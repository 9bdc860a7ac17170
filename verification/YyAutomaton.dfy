/** One pass of yyparse from yynewstate back to yynewstate, as a step on configurations,
    and the complete run it generates. */
module YyAutomaton {
  import opened CalcGrammar
  import opened YyTables

  datatype Event = Res(value: int) | SyntaxErrorLine

  // `input` starts with the lookahead token, read or not; `junk` stands for values that the
  // parser copies but never uses (yyval before rule 2, yylval for tokens without a value).
  datatype Config = Config(
    states: seq<nat>,
    values: seq<int>,
    errStatus: nat,
    input: seq<Token>,
    out: seq<Event>,
    nerrs: nat,
    junk: int)
  {
    function Top(): nat
      requires states != []
    {
      states[|states| - 1]
    }

    function Symbol(): (sym: nat)
      ensures sym < YYNTOKENS
    {
      if input == [] then 0 else SymbolOf(input[0])
    }

    function LookaheadValue(): int {
      if input != [] && input[0].Num? then input[0].value else junk
    }

    function Rest(): seq<Token> {
      if input == [] then [] else input[1..]
    }
  }

  datatype Outcome =
    | Running(config: Config)
    | Done(result: int, out: seq<Event>, nerrs: nat)

  function SymbolOf(t: Token): (sym: nat)
    ensures sym < YYNTOKENS
  {
    if t.Num? then Translate(258) else Translate(t.code)
  }

  // The value yyparse gives $$ for a rule, from the values of its right-hand side.
  function Semantic(rule: nat, rhs: seq<int>, junk: int): int
    requires rule < |YYR2| && |rhs| == YYR2[rule]
  {
    if rule == 5 then rhs[1]
    else if rule == 6 then Apply(Add, rhs[1], rhs[3])
    else if rule == 7 then Apply(Sub, rhs[1], rhs[3])
    else if rule == 8 then Apply(Mul, rhs[1], rhs[3])
    else if rhs == [] then junk
    else rhs[0]
  }

  function Printed(rule: nat, rhs: seq<int>): seq<Event>
    requires rule < |YYR2| && |rhs| == YYR2[rule]
  {
    if rule == 3 then [Res(rhs[1])] else if rule == 4 then [SyntaxErrorLine] else []
  }

  predicate Linked(states: seq<nat>, i: nat)
    requires 0 < i < |states|
  {
    Edge(states[i - 1], states[i])
  }

  // A stack of states is a path of the automaton from state 0.
  predicate IsPath(states: seq<nat>) {
    && states != []
    && states[0] == 0
    && forall i :: 0 < i < |states| ==> Linked(states, i)
  }

  // One value per state, and full error status (3) is only seen just after the error token
  // was shifted.
  predicate Inv(c: Config) {
    && |c.states| == |c.values| > 0
    && IsPath(c.states)
    && c.errStatus <= 3
    && (c.errStatus == 3 ==> c.Top() == 3)
  }

  lemma InRange(states: seq<nat>)
    requires IsPath(states)
    ensures forall i :: 0 <= i < |states| ==> states[i] < 20
    ensures forall i :: 0 < i < |states| ==> states[i] != 0
  {
    forall i | 0 <= i < |states| ensures states[i] < 20 && (i > 0 ==> states[i] != 0) {
      assert i > 0 ==> Linked(states, i);
    }
  }

  lemma PathPrefix(states: seq<nat>, n: nat)
    requires IsPath(states) && 0 < n <= |states|
    ensures IsPath(states[..n])
  {
    forall i | 0 < i < n ensures Linked(states[..n], i) {
      assert Linked(states, i);
    }
  }

  lemma PathPush(states: seq<nat>, t: nat)
    requires IsPath(states) && Edge(states[|states| - 1], t)
    ensures IsPath(states + [t])
  {
    var longer := states + [t];
    forall i | 0 < i < |longer| ensures Linked(longer, i) {
      assert i < |states| ==> Linked(states, i);
    }
  }

  function ShiftStep(c: Config, next: nat): Config {
    c.(states := c.states + [next], values := c.values + [c.LookaheadValue()],
    errStatus := if c.errStatus == 0 then 0 else c.errStatus - 1, input := c.Rest())
  }

  function ReduceStep(c: Config, rule: nat): Config
    requires 1 <= rule < |YYR1|
    requires YYR2[rule] < |c.states| == |c.values|
    requires c.states[|c.states| - YYR2[rule] - 1] < |YYPACT|
    requires GotoOf(rule, c.states[|c.states| - YYR2[rule] - 1]) >= 0
  {
    var n := |c.states| - YYR2[rule];
    var rhs := c.values[n..];
    c.(states := c.states[..n] + [GotoOf(rule, c.states[n - 1])],
    values := c.values[..n] + [Semantic(rule, rhs, c.junk)],
    out := c.out + Printed(rule, rhs))
  }

  // yyerrlab1: pop until a state shifts the error token.
  function PopToError(states: seq<nat>): (n: nat)
    requires forall i :: 0 <= i < |states| ==> states[i] < 20
    ensures n <= |states|
  {
    if states == [] then 0
    else if ErrorShift(states[|states| - 1]) > 0 then |states|
    else PopToError(states[..|states| - 1])
  }

  // yyerrlab and yyerrlab1
  function ErrorStep(c: Config): Outcome
    requires |c.states| == |c.values|
    requires forall i :: 0 <= i < |c.states| ==> c.states[i] < 20
  {
    var nerrs := if c.errStatus == 0 then c.nerrs + 1 else c.nerrs;
    if c.errStatus == 3 && c.input == [] then Done(1, c.out, nerrs)
    else
      var input := if c.errStatus == 3 then c.Rest() else c.input;
      var n := PopToError(c.states);
      if n == 0 then Done(1, c.out, nerrs)
      else Running(c.(states := c.states[..n] + [ErrorShift(c.states[n - 1])],
                   values := c.values[..n] + [c.LookaheadValue()],
                   errStatus := 3, input := input, nerrs := nerrs))
  }

  // What lies under the top of the stack: a reduction never pops more than its right-hand
  // side and uncovers a state with a goto on the rule's nonterminal.
  lemma StackShape(states: seq<nat>)
    requires IsPath(states)
    ensures var n := |states|; var top := states[n - 1];
            && top < 20
            && (top == 0 ==> states == [0])
            && (top == 1 ==> states == [0, 1])
            && (top == 2 || top == 3 || top == 6 ==> states == [0, 1, top])
            && (top == 7 ==> states == [0, 1, 3, 7])
            && (top == 9 ==> states == [0, 1, 6, 9])
            && (top == 4 ==> n > 2 && WantsExp(states[n - 2]))
            && (5 == top || top == 8 || 10 <= top ==> n > 2)
            && (top == 10 ==> n > 4 && WantsExp(states[n - 4]))
            && (top >= 17 ==> n > 6 && WantsExp(states[n - 6]))
  {
    InRange(states);
    var n := |states|;
    assert n > 1 ==> Linked(states, n - 1);
    assert n > 2 ==> Linked(states, n - 2);
    assert n > 3 ==> Linked(states, n - 3);
    assert n > 4 ==> Linked(states, n - 4);
    assert n > 5 ==> Linked(states, n - 5);
    assert n > 6 ==> Linked(states, n - 6);
  }

  // A reduction that the tables ask for pops what is there and enters a state by an edge.
  lemma ReduceDefined(c: Config, rule: nat)
    requires Inv(c) && c.Top() < 20 && c.Top() != YYFINAL
    requires ActionOf(c.Top(), c.Symbol()) == Reduce(rule)
    ensures 2 <= rule < |YYR1|
    ensures YYR2[rule] < |c.states|
    ensures var under := c.states[|c.states| - YYR2[rule] - 1];
            under < 20 && GotoOf(rule, under) >= 0 && Edge(under, GotoOf(rule, under))
    ensures if rule <= 4 then c.states[|c.states| - YYR2[rule] - 1] == 0
            else WantsExp(c.states[|c.states| - YYR2[rule] - 1])
    ensures c.errStatus < 3
  {
    ActionTable(c.Top(), c.Symbol());
    StackShape(c.states);
    var under := c.states[|c.states| - YYR2[rule] - 1];
    InRange(c.states);
    GotoTable(under);
  }

  // From one entry of yynewstate to the next.
  function Step(c: Config): Outcome
    requires Inv(c)
  {
    InRange(c.states);
    if |c.states| >= YYMAXDEPTH then Done(2, c.out, c.nerrs)
    else if c.Top() == YYFINAL then Done(0, c.out, c.nerrs)
    else
      match ActionOf(c.Top(), c.Symbol())
      case Shift(t) => Running(ShiftStep(c, t))
      case Reduce(r) => ReduceDefined(c, r); Running(ReduceStep(c, r))
      case Error => ErrorStep(c)
  }

  lemma StateOneIsSecond(states: seq<nat>)
    requires IsPath(states) && |states| >= 2
    ensures states[1] == 1
    ensures forall i :: 2 <= i < |states| ==> states[i] != 1
  {
    InRange(states);
    assert Linked(states, 1);
    forall i | 2 <= i < |states| ensures states[i] != 1 {
      assert Linked(states, i);
    }
  }

  lemma {:induction false} PopsToStateOne(states: seq<nat>)
    requires forall i :: 0 <= i < |states| ==> states[i] < 20
    requires |states| >= 2 && states[1] == 1
    requires forall i :: 2 <= i < |states| ==> states[i] != 1
    ensures PopToError(states) == 2
    decreases |states|
  {
    GotoTable(states[|states| - 1]);
    if |states| > 2 {
      PopsToStateOne(states[..|states| - 1]);
    }
  }

  // An error never empties the stack: the parser ends up just after the error token, or at
  // the end of the input.
  lemma ErrorStepIs(c: Config)
    requires Inv(c) && c.Top() != 0
    requires forall i :: 0 <= i < |c.states| ==> c.states[i] < 20
    ensures var nerrs := if c.errStatus == 0 then c.nerrs + 1 else c.nerrs;
            ErrorStep(c) ==
              if c.errStatus == 3 && c.input == [] then Done(1, c.out, nerrs)
              else Running(Config([0, 1, 3], c.values[..2] + [c.LookaheadValue()], 3,
                                  if c.errStatus == 3 then c.Rest() else c.input, c.out, nerrs, c.junk))
  {
    assert |c.states| >= 2;
    hide IsPath, Edge, PopToError, ErrorShift;
    StateOneIsSecond(c.states);
    PopsToStateOne(c.states);
    GotoTable(1);
    assert c.states[..2] == [0, 1];
  }

  lemma ShiftKeeps(c: Config, t: nat)
    requires Inv(c) && c.Top() < 20 && c.Top() != YYFINAL
    requires ActionOf(c.Top(), c.Symbol()) == Shift(t)
    ensures Inv(ShiftStep(c, t))
    ensures c.input == [] ==> t == YYFINAL
  {
    ActionTable(c.Top(), c.Symbol());
    PathPush(c.states, t);
  }

  lemma ReduceKeeps(c: Config, rule: nat)
    requires Inv(c) && c.Top() < 20 && c.Top() != YYFINAL
    requires ActionOf(c.Top(), c.Symbol()) == Reduce(rule)
    ensures 1 <= rule < |YYR1| && YYR2[rule] < |c.states|
    ensures c.states[|c.states| - YYR2[rule] - 1] < 20
    ensures GotoOf(rule, c.states[|c.states| - YYR2[rule] - 1]) >= 0
    ensures var c' := ReduceStep(c, rule);
            && Inv(c')
            && StackMeasure(c'.states) < StackMeasure(c.states)
            && (c'.Top() == YYFINAL <==> c.Top() == YYFINAL)
  {
    hide Edge, IsPath, ActionOf, GotoOf, WantsExp;
    ReduceDefined(c, rule);
    ReduceEnters(c, rule);
    var n := |c.states| - YYR2[rule];
    PathReplace(c.states, n, GotoOf(rule, c.states[n - 1]));
  }

  lemma PathReplace(states: seq<nat>, n: nat, t: nat)
    requires IsPath(states) && 0 < n <= |states| && Edge(states[n - 1], t)
    ensures IsPath(states[..n] + [t])
  {
    hide Edge, IsPath;
    PathPrefix(states, n);
    PathPush(states[..n], t);
  }

  lemma ReduceEnters(c: Config, rule: nat)
    requires Inv(c) && c.Top() < 20 && c.Top() != YYFINAL
    requires ActionOf(c.Top(), c.Symbol()) == Reduce(rule)
    requires 2 <= rule < |YYR1| && YYR2[rule] < |c.states|
    requires c.states[|c.states| - YYR2[rule] - 1] < 20
    ensures var t := GotoOf(rule, c.states[|c.states| - YYR2[rule] - 1]);
            && t != 2 && t != 3 && t != 4
            && (|c.states| == 1 ==> YYR2[rule] == 0)
            && (|c.states| > 1 ==> YYR2[rule] > 1 || (YYR2[rule] == 1 && c.Top() == 4))
  {
    ActionTable(c.Top(), c.Symbol());
    StackShape(c.states);
    ReduceDefined(c, rule);
    GotoTable(c.states[|c.states| - YYR2[rule] - 1]);
  }

  lemma ErrorKeeps(c: Config)
    requires Inv(c) && c.Top() < 20 && c.Top() != YYFINAL
    requires forall i :: 0 <= i < |c.states| ==> c.states[i] < 20
    requires ActionOf(c.Top(), c.Symbol()) == Error
    requires ErrorStep(c).Running?
    ensures Inv(ErrorStep(c).config)
    ensures ErrorStep(c).config.Top() == 3
    ensures c.errStatus == 3 ==> ErrorStep(c).config.input == c.Rest() && c.input != []
    ensures c.errStatus != 3 ==> ErrorStep(c).config.input == c.input
    ensures ErrorStep(c).config.errStatus == 3
  {
    ActionTable(c.Top(), c.Symbol());
    ErrorStepIs(c);
    assert IsPath([0, 1, 3]) by {
      assert Linked([0, 1, 3], 1) && Linked([0, 1, 3], 2);
    }
  }

  // Bounds the reductions possible before the next token is needed.
  function StackMeasure(states: seq<nat>): nat {
    if |states| <= 1 then 5
    else 2 * |states| + (if states[|states| - 1] == 4 then 1 else 0)
  }

  // Every step keeps the invariant and makes progress: it reaches the final state, or
  // consumes a token, or enters error recovery, or reduces.
  lemma StepProgress(c: Config)
    requires Inv(c) && Step(c).Running?
    ensures var c' := Step(c).config;
            && Inv(c')
            && c.Top() != YYFINAL
            && (|| c'.Top() == YYFINAL
                || |c'.input| < |c.input|
                || (|c'.input| == |c.input| && c.errStatus != 3 && c'.errStatus == 3)
                || (|c'.input| == |c.input| && c'.errStatus == c.errStatus && StackMeasure(c'.states) < StackMeasure(c.states)))
  {
    InRange(c.states);
    match ActionOf(c.Top(), c.Symbol())
    case Shift(t) => ShiftKeeps(c, t);
    case Reduce(r) => ReduceKeeps(c, r);
    case Error => ErrorKeeps(c);
  }

  // The complete run of yyparse from a configuration: its result, what it printed and how
  // often it called yyerror.
  function Run(c: Config): (r: Outcome)
    requires Inv(c)
    ensures r.Done?
    decreases if c.Top() == YYFINAL then 0 else 1, |c.input|, if c.errStatus == 3 then 0 else 1, StackMeasure(c.states)
  {
    match Step(c)
    case Done(result, out, nerrs) => Done(result, out, nerrs)
    case Running(c') => StepProgress(c); Run(c')
  }

  // yyparse's start: state 0 on an otherwise empty stack.
  function Init(input: seq<Token>, junk: int): (c: Config)
    ensures Inv(c)
  {
    Config([0], [junk], 0, input, [], 0, junk)
  }
}
