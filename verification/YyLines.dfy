/** What yyparse does with one line: a well-formed line is reduced to its value, any other
    line is discarded up to its newline. */
module YyLines {
  import opened CalcGrammar
  import opened YyTables
  import opened YyAutomaton
  import opened LineReader
  import opened Options

  function Minus(a: nat, b: nat): nat {
    if a <= b then 0 else a - b
  }

  // The run from c goes through c' after raising the stack by at most `need` states,
  // unless that exhausts the stack first.
  ghost predicate Reaches(c: Config, c': Config, need: int) {
    && Inv(c) && Inv(c')
    && c'.out == c.out && c'.nerrs == c.nerrs
    && Run(c) == if |c.states| + need < YYMAXDEPTH then Run(c') else Done(2, c.out, c.nerrs)
  }

  lemma Then(c: Config, c1: Config, c2: Config, need1: int, need2: int)
    requires Reaches(c, c1, need1) && Reaches(c1, c2, need2)
    ensures Reaches(c, c2, Max(need1, |c1.states| - |c.states| + need2))
  {
  }

  lemma ByShift(c: Config, t: nat)
    requires Inv(c) && c.Top() < 20 && c.Top() != YYFINAL
    requires ActionOf(c.Top(), c.Symbol()) == Shift(t)
    ensures Inv(ShiftStep(c, t))
    ensures Reaches(c, ShiftStep(c, t), 1)
  {
    ShiftKeeps(c, t);
    if |c.states| < YYMAXDEPTH {
      assert Step(c) == Running(ShiftStep(c, t));
      if |c.states| + 1 >= YYMAXDEPTH {
        assert Step(ShiftStep(c, t)) == Done(2, c.out, c.nerrs);
      }
    }
  }

  lemma ByReduce(c: Config, rule: nat)
    requires Inv(c) && c.Top() < 20 && c.Top() != YYFINAL
    requires ActionOf(c.Top(), c.Symbol()) == Reduce(rule)
    ensures 1 <= rule < |YYR1| && YYR2[rule] < |c.states|
    ensures c.states[|c.states| - YYR2[rule] - 1] < 20
    ensures GotoOf(rule, c.states[|c.states| - YYR2[rule] - 1]) >= 0
    ensures Inv(ReduceStep(c, rule))
    ensures Run(c) == if |c.states| < YYMAXDEPTH then Run(ReduceStep(c, rule)) else Done(2, c.out, c.nerrs)
  {
    ReduceKeeps(c, rule);
    if |c.states| < YYMAXDEPTH {
      assert Step(c) == Running(ReduceStep(c, rule));
    }
  }

  function Grown(c: Config, state: nat, value: int): Config {
    c.(states := c.states + [state], values := c.values + [value])
  }

  function OpState(op: Operator): nat {
    match op
    case Add => 11
    case Sub => 12
    case Mul => 13
  }

  // c with the symbols of an unfinished expression above its stack.
  function Over(c: Config, p: Partial): (o: Config)
    requires c.states != [] && WantsExp(c.Top())
    ensures |o.states| == |c.states| + Height(p)
    ensures o == c.(states := o.states, values := o.values)
    decreases p
  {
    match p
    case Nothing => c
    case Whole(e) => Grown(c, ExpGoto(c.Top()), Value(e))
    case Open(q) => Over(Grown(c, 5, c.junk), q)
    case Operand(l, op, q) => Over(OverOperator(c, l, op), q)
  }

  function OverOperator(c: Config, l: Expr, op: Operator): Config {
    Grown(Grown(Grown(c, 5, c.junk), 8, Value(l)), OpState(op), c.junk)
  }

  function Eaten(c: Config, rest: seq<Token>): Config {
    c.(errStatus := Minus(c.errStatus, 1), input := rest)
  }

  // Shifting a token that fits, and reducing if it ends a right-hand side, makes the stack
  // that of the longer prefix; the stack rises by one state on the way.
  lemma {:induction false} Pushes(c: Config, p: Partial, t: Token, rest: seq<Token>)
    requires c.states != [] && WantsExp(c.Top()) && Inv(c)
    requires Inv(Over(c, p)) && c.input == [t] + rest
    requires Push(p, t).Some?
    ensures Inv(Eaten(c, rest))
    ensures Reaches(Over(c, p), Over(Eaten(c, rest), Push(p, t).value), 1)
    decreases p
  {
    match p
    case Nothing => PushesFirst(c, t, rest);
    case Open(Whole(l)) => PushesAfterLeft(c, l, t, rest);
    case Open(q) =>
      OpenKeeps(c);
      Pushes(Grown(c, 5, c.junk), q, t, rest);
    case Operand(l, op, Whole(r)) => PushesAfterRight(c, l, op, r, rest);
    case Operand(l, op, q) =>
      OperatorKeeps(c, l, op);
      Pushes(OverOperator(c, l, op), q, t, rest);
  }

  lemma OpenKeeps(c: Config)
    requires Inv(c) && WantsExp(c.Top())
    ensures Inv(Grown(c, 5, c.junk))
  {
    PathPush(c.states, 5);
  }

  lemma OperatorKeeps(c: Config, l: Expr, op: Operator)
    requires Inv(c) && WantsExp(c.Top())
    ensures Inv(OverOperator(c, l, op))
  {
    PathPush(c.states, 5);
    PathPush(c.states + [5], 8);
    PathPush(c.states + [5] + [8], OpState(op));
  }

  // Reducing by an expression rule whose right-hand side lies just above c's stack.
  lemma ReducesAbove(c: Config, states: seq<nat>, values: seq<int>, rule: nat, v: int)
    requires Inv(c) && WantsExp(c.Top())
    requires 5 <= rule <= 9 && |states| == |values| == YYR2[rule]
    requires Inv(c.(states := c.states + states, values := c.values + values))
    requires EndsRule(states[|states| - 1]) && ReductionOf(states[|states| - 1]) == rule
    requires Semantic(rule, values, c.junk) == v
    ensures Reaches(c.(states := c.states + states, values := c.values + values), Grown(c, ExpGoto(c.Top()), v), 0)
  {
    hide Run, Step;
    var c1 := c.(states := c.states + states, values := c.values + values);
    DefaultTable(c1.Top(), c1.Symbol());
    ByReduce(c1, rule);
    ReducedIs(c, states, values, rule, v);
  }

  lemma ReducedIs(c: Config, states: seq<nat>, values: seq<int>, rule: nat, v: int)
    requires Inv(c) && WantsExp(c.Top())
    requires 5 <= rule <= 9 && |states| == |values| == YYR2[rule]
    requires Semantic(rule, values, c.junk) == v
    ensures var c1 := c.(states := c.states + states, values := c.values + values);
            && c1.states[|c1.states| - YYR2[rule] - 1] == c.Top() < 20
            && GotoOf(rule, c.Top()) >= 0
            && ReduceStep(c1, rule) == Grown(c, ExpGoto(c.Top()), v)
  {
    GotoTable(c.Top());
    var c1 := c.(states := c.states + states, values := c.values + values);
    var n := |c.states|;
    assert |c1.states| - YYR2[rule] == n;
    assert c1.values[n..] == values && c1.states[..n] == c.states && c1.values[..n] == c.values;
    assert c.out + Printed(rule, values) == c.out;
  }

  lemma PushesFirst(c: Config, t: Token, rest: seq<Token>)
    requires Inv(c) && WantsExp(c.Top()) && c.input == [t] + rest
    requires Push(Nothing, t).Some?
    ensures Inv(Eaten(c, rest))
    ensures Reaches(c, Over(Eaten(c, rest), Push(Nothing, t).value), 1)
  {
    hide Run, Step;
    var b := Eaten(c, rest);
    ActionTable(c.Top(), c.Symbol());
    if t.Num? {
      ByShift(c, 4);
      var c1 := ShiftStep(c, 4);
      assert c1 == b.(states := b.states + [4], values := b.values + [t.value]);
      ReducesAbove(b, [4], [t.value], 9, t.value);
      Then(c, c1, Grown(b, ExpGoto(b.Top()), t.value), 1, 0);
    } else {
      ByShift(c, 5);
      assert ShiftStep(c, 5) == Grown(b, 5, b.junk);
    }
  }

  // What lies above c's stack after `( l`.
  lemma OverLeft(c: Config, l: Expr)
    requires c.states != [] && WantsExp(c.Top())
    ensures Over(c, Open(Whole(l))) == c.(states := c.states + [5, 8], values := c.values + [c.junk, Value(l)])
  {
    assert c.states + [5] + [8] == c.states + [5, 8];
    assert c.values + [c.junk] + [Value(l)] == c.values + [c.junk, Value(l)];
  }

  // c with a parenthesised expression, not yet reduced, above its stack.
  function Closed(c: Config, l: Expr): Config {
    c.(states := c.states + [5, 8, 10], values := c.values + [c.junk, Value(l), c.junk])
  }

  lemma ShiftsAfterLeft(c: Config, l: Expr, rest: seq<Token>)
    requires Inv(c) && WantsExp(c.Top()) && c.input == [RPAREN] + rest
    requires Inv(Over(c, Open(Whole(l))))
    ensures Inv(Eaten(c, rest)) && Inv(Closed(Eaten(c, rest), l))
    ensures Reaches(Over(c, Open(Whole(l))), Closed(Eaten(c, rest), l), 1)
    ensures |Over(c, Open(Whole(l))).states| == |c.states| + 2
  {
    hide Run, Step, Value, ActionOf, GotoOf, Over;
    var o := Over(c, Open(Whole(l)));
    OverLeft(c, l);
    ActionTable(8, 6);
    ByShift(o, 10);
    assert ShiftStep(o, 10) == Closed(Eaten(c, rest), l);
  }

  lemma ClosedReduces(b: Config, l: Expr)
    requires Inv(b) && WantsExp(b.Top()) && Inv(Closed(b, l))
    ensures Reaches(Closed(b, l), Over(b, Whole(Paren(l))), 0)
  {
    assert Value(Paren(l)) == Value(l);
    hide Run, Step, Value, Reaches, IsPath;
    ReducesAbove(b, [5, 8, 10], [b.junk, Value(l), b.junk], 5, Value(l));
  }

  lemma ClosesLeft(c: Config, l: Expr, rest: seq<Token>)
    requires Inv(c) && WantsExp(c.Top()) && c.input == [RPAREN] + rest
    requires Inv(Over(c, Open(Whole(l))))
    ensures Inv(Eaten(c, rest))
    ensures Reaches(Over(c, Open(Whole(l))), Over(Eaten(c, rest), Whole(Paren(l))), 1)
  {
    hide Reaches, IsPath, Over, Value;
    ShiftsAfterLeft(c, l, rest);
    var b := Eaten(c, rest);
    ClosedReduces(b, l);
    Then(Over(c, Open(Whole(l))), Closed(b, l), Over(b, Whole(Paren(l))), 1, 0);
  }

  lemma OperatorAfterLeft(c: Config, l: Expr, op: Operator, rest: seq<Token>)
    requires Inv(c) && WantsExp(c.Top()) && c.input == [OpToken(op)] + rest
    requires Inv(Over(c, Open(Whole(l))))
    ensures Inv(Eaten(c, rest))
    ensures Reaches(Over(c, Open(Whole(l))), OverOperator(Eaten(c, rest), l, op), 1)
  {
    hide Run, Step, Value, ActionOf, DefaultAction, GotoOf;
    var o := Over(c, Open(Whole(l)));
    OverLeft(c, l);
    ActionTable(8, SymbolOf(OpToken(op)));
    ByShift(o, OpState(op));
    assert ShiftStep(o, OpState(op)) == OverOperator(Eaten(c, rest), l, op);
  }

  lemma PushesAfterLeft(c: Config, l: Expr, t: Token, rest: seq<Token>)
    requires Inv(c) && WantsExp(c.Top()) && c.input == [t] + rest
    requires Inv(Over(c, Open(Whole(l))))
    requires Push(Open(Whole(l)), t).Some?
    ensures Inv(Eaten(c, rest))
    ensures Reaches(Over(c, Open(Whole(l))), Over(Eaten(c, rest), Push(Open(Whole(l)), t).value), 1)
  {
    hide IsPath, Reaches, Value;
    if t == RPAREN {
      assert Push(Open(Whole(l)), t) == Some(Whole(Paren(l)));
      ClosesLeft(c, l, rest);
    } else {
      var op := OperatorOf(t).value;
      assert t == OpToken(op) && Push(Open(Whole(l)), t) == Some(Operand(l, op, Nothing));
      OperatorAfterLeft(c, l, op, rest);
      assert Over(Eaten(c, rest), Operand(l, op, Nothing)) == OverOperator(Eaten(c, rest), l, op);
    }
  }

  lemma FourMore<T>(list: seq<T>, w: T, x: T, y: T, z: T)
    ensures list + [w] + [x] + [y] + [z] == list + [w, x, y, z]
  {
  }

  // What lies above c's stack after `( l op r`.
  lemma OverRight(c: Config, l: Expr, op: Operator, r: Expr)
    requires c.states != [] && WantsExp(c.Top())
    ensures var s := OpState(op);
            Over(c, Operand(l, op, Whole(r)))
            == c.(states := c.states + [5, 8, s, s + 3],
                  values := c.values + [c.junk, Value(l), c.junk, Value(r)])
  {
    hide Value;
    var s := OpState(op);
    FourMore(c.states, 5, 8, s, s + 3);
    FourMore(c.values, c.junk, Value(l), c.junk, Value(r));
  }

  // The rule that the closing parenthesis ends, and its value.
  lemma RightRule(op: Operator, x: int, y: int, junk: int)
    ensures var s := OpState(op);
            EndsRule(s + 6) && ReductionOf(s + 6) == s - 5 && 5 <= s - 5 <= 9 && YYR2[s - 5] == 5
            && Semantic(s - 5, [junk, x, junk, y, junk], junk) == Apply(op, x, y)
  {
  }

  // c with a parenthesised operation, not yet reduced, above its stack.
  function Operated(c: Config, l: Expr, op: Operator, r: Expr): Config {
    var s := OpState(op);
    c.(states := c.states + [5, 8, s, s + 3, s + 6],
       values := c.values + [c.junk, Value(l), c.junk, Value(r), c.junk])
  }

  lemma ShiftsAfterRight(c: Config, l: Expr, op: Operator, r: Expr, rest: seq<Token>)
    requires Inv(c) && WantsExp(c.Top()) && c.input == [RPAREN] + rest
    requires Inv(Over(c, Operand(l, op, Whole(r))))
    ensures Inv(Eaten(c, rest)) && Inv(Operated(Eaten(c, rest), l, op, r))
    ensures Reaches(Over(c, Operand(l, op, Whole(r))), Operated(Eaten(c, rest), l, op, r), 1)
    ensures |Over(c, Operand(l, op, Whole(r))).states| == |c.states| + 4
  {
    hide Run, Step, Value, ActionOf, GotoOf, Over;
    var o := Over(c, Operand(l, op, Whole(r)));
    var s := OpState(op);
    OverRight(c, l, op, r);
    ClosingTable(s + 3, 6);
    ByShift(o, s + 6);
    assert ShiftStep(o, s + 6) == Operated(Eaten(c, rest), l, op, r);
  }

  lemma OperationReduces(b: Config, l: Expr, op: Operator, r: Expr)
    requires Inv(b) && WantsExp(b.Top()) && Inv(Operated(b, l, op, r))
    ensures Reaches(Operated(b, l, op, r), Over(b, Whole(Bin(op, l, r))), 0)
  {
    var v := Value(Bin(op, l, r));
    assert v == Apply(op, Value(l), Value(r));
    hide Run, Step, Value, Reaches, IsPath, Semantic, Apply, EndsRule, ReductionOf;
    var s := OpState(op);
    RightRule(op, Value(l), Value(r), b.junk);
    ReducesAbove(b, [5, 8, s, s + 3, s + 6], [b.junk, Value(l), b.junk, Value(r), b.junk], s - 5, v);
  }

  lemma PushesAfterRight(c: Config, l: Expr, op: Operator, r: Expr, rest: seq<Token>)
    requires Inv(c) && WantsExp(c.Top()) && c.input == [RPAREN] + rest
    requires Inv(Over(c, Operand(l, op, Whole(r))))
    ensures Inv(Eaten(c, rest))
    ensures Reaches(Over(c, Operand(l, op, Whole(r))), Over(Eaten(c, rest), Whole(Bin(op, l, r))), 1)
  {
    hide Reaches, IsPath, Over, Value;
    ShiftsAfterRight(c, l, op, r, rest);
    var b := Eaten(c, rest);
    OperationReduces(b, l, op, r);
    var o1 := Operated(b, l, op, r);
    assert |o1.states| == |Over(c, Operand(l, op, Whole(r))).states| + 1;
    Then(Over(c, Operand(l, op, Whole(r))), o1, Over(b, Whole(Bin(op, l, r))), 1, 0);
  }

  // The state on top of the stack when p has been read from state s.
  function TopOf(s: nat, p: Partial): nat
    requires WantsExp(s)
    decreases p
  {
    match p
    case Nothing => s
    case Whole(_) => ExpGoto(s)
    case Open(q) => TopOf(5, q)
    case Operand(_, op, q) => TopOf(OpState(op), q)
  }

  lemma {:induction false} OverTop(c: Config, p: Partial)
    requires c.states != [] && WantsExp(c.Top())
    ensures Over(c, p).Top() == TopOf(c.Top(), p)
    decreases p
  {
    match p
    case Nothing =>
    case Whole(_) =>
    case Open(q) => OverTop(Grown(c, 5, c.junk), q);
    case Operand(l, op, q) => OverTop(OverOperator(c, l, op), q);
  }

  // A token that does not fit is a syntax error at once: no state is entered on it.
  lemma {:induction false} Rejects(s: nat, p: Partial, t: Token)
    requires WantsExp(s)
    requires Push(p, t).None?
    requires p.Whole? ==> s == 1 && t != NEWLINE
    ensures 0 < TopOf(s, p) < 20 && TopOf(s, p) != YYFINAL && TopOf(s, p) != 3
    ensures ActionOf(TopOf(s, p), SymbolOf(t)) == Error
    decreases p
  {
    hide ActionOf, SymbolOf;
    match p
    case Nothing =>
      RejectsFirst(s, t);
    case Whole(_) =>
      RejectsBehind(t);
    case Open(Whole(l)) =>
      RejectsAfterLeft(l, t);
    case Open(q) =>
      Rejects(5, q, t);
    case Operand(l, op, Whole(r)) =>
      RejectsAfterRight(op, t);
    case Operand(l, op, q) =>
      Rejects(OpState(op), q, t);
  }

  lemma RejectsFirst(s: nat, t: Token)
    requires WantsExp(s) && Push(Nothing, t).None?
    ensures ActionOf(s, SymbolOf(t)) == Error
  {
    ActionTable(s, SymbolOf(t));
  }

  lemma RejectsBehind(t: Token)
    requires t != NEWLINE
    ensures ActionOf(6, SymbolOf(t)) == Error
  {
    hide ActionOf;
    ActionTable(6, SymbolOf(t));
  }

  lemma RejectsAfterRight(op: Operator, t: Token)
    requires t != RPAREN
    ensures ActionOf(OpState(op) + 3, SymbolOf(t)) == Error
  {
    hide ActionOf;
    ClosingTable(OpState(op) + 3, SymbolOf(t));
  }

  lemma RejectsAfterLeft(l: Expr, t: Token)
    requires Push(Open(Whole(l)), t).None?
    ensures ActionOf(8, SymbolOf(t)) == Error
  {
    ActionTable(8, SymbolOf(t));
  }

  // The end of the input is accepted between lines and is an error inside one.
  lemma {:induction false} RejectsEnd(s: nat, p: Partial)
    requires WantsExp(s)
    requires p == Nothing ==> s != 1
    ensures 0 < TopOf(s, p) < 20 && TopOf(s, p) != YYFINAL && TopOf(s, p) != 3
    ensures ActionOf(TopOf(s, p), 0) == Error
    decreases p
  {
    match p
    case Nothing =>
      OperandTable(s, 0);
    case Whole(_) =>
      ActionTable(ExpGoto(s), 0);
    case Open(q) =>
      RejectsEnd(5, q);
    case Operand(l, op, q) =>
      RejectsEnd(OpState(op), q);
  }

  // Just after the error token has been shifted.
  function Recovering(c: Config, value: int, nerrs: nat): Config
    requires |c.values| >= 2
  {
    c.(states := [0, 1, 3], values := c.values[..2] + [value], errStatus := 3, nerrs := nerrs)
  }

  // The first error of a line reports it unless an earlier one is too recent, and unwinds
  // the stack down to state 1 without touching the input.
  lemma FirstError(o: Config)
    requires Inv(o) && |o.states| < YYMAXDEPTH
    requires 0 < o.Top() < 20 && o.Top() != YYFINAL && o.Top() != 3
    requires ActionOf(o.Top(), o.Symbol()) == Error
    ensures |o.values| >= 2
    ensures Inv(Recovering(o, o.LookaheadValue(), o.nerrs + if o.errStatus == 0 then 1 else 0))
    ensures Run(o) == Run(Recovering(o, o.LookaheadValue(), o.nerrs + if o.errStatus == 0 then 1 else 0))
  {
    hide Run;
    InRange(o.states);
    ErrorStepIs(o);
    ErrorKeeps(o);
    assert Step(o) == Running(Recovering(o, o.LookaheadValue(), o.nerrs + if o.errStatus == 0 then 1 else 0));
    RunStep(o);
  }

  lemma RunStep(c: Config)
    requires Inv(c) && Step(c).Running?
    ensures Inv(Step(c).config)
    ensures Run(c) == Run(Step(c).config)
  {
    StepProgress(c);
  }

  // During recovery the tokens of the line are dropped one by one.
  lemma {:induction false} Discards(c: Config, value: int, line: seq<Token>, rest: seq<Token>)
    requires Inv(c) && |c.values| >= 2 && Inv(Recovering(c, value, c.nerrs))
    requires c.input == line + rest && NEWLINE !in line
    ensures exists v :: Inv(Recovering(c.(input := rest), v, c.nerrs)) && Run(Recovering(c, value, c.nerrs)) == Run(Recovering(c.(input := rest), v, c.nerrs))
    decreases |line|
  {
    hide Run, DefaultAction, ErrorStep, ErrorShift;
    var e := Recovering(c, value, c.nerrs);
    if line == [] {
      assert e == Recovering(c.(input := rest), value, c.nerrs);
    } else {
      var t := line[0];
      assert c.input[0] == t && c.input[1..] == line[1..] + rest;
      ActionTable(3, SymbolOf(t));
      InRange(e.states);
      ErrorStepIs(e);
      var c1 := c.(input := line[1..] + rest);
      assert Step(e) == Running(Recovering(c1, e.LookaheadValue(), c.nerrs));
      RunStep(e);
      Discards(c1, e.LookaheadValue(), line[1..], rest);
    }
  }

  // A reduction of what lies above `under`.
  lemma ReduceStepIs(c: Config, under: seq<nat>, popped: seq<nat>, kept: seq<int>, rhs: seq<int>, rule: nat)
    requires 1 <= rule < |YYR1| && |popped| == |rhs| == YYR2[rule] && |under| == |kept| > 0
    requires c.states == under + popped && c.values == kept + rhs
    requires under[|under| - 1] < 20 && GotoOf(rule, under[|under| - 1]) >= 0
    ensures |c.states| == |c.values| > YYR2[rule] && c.states[|c.states| - YYR2[rule] - 1] == under[|under| - 1]
    ensures ReduceStep(c, rule) ==
              c.(states := under + [GotoOf(rule, under[|under| - 1])], values := kept + [Semantic(rule, rhs, c.junk)],
              out := c.out + Printed(rule, rhs))
  {
    hide GotoOf, Semantic, Printed;
    var n := |under|;
    assert c.states[..n] == under && c.values[..n] == kept && c.values[n..] == rhs;
  }

  // Rules 3 and 4 end a line: state 1 and its value stay.
  lemma ReducesLine(c: Config, mid: nat, top: nat, v: int, rule: nat)
    requires Inv(c) && |c.values| == 4 && c.states == [0, 1, mid, top] && c.values[2] == v
    requires (top == 7 && rule == 4) || (top == 9 && rule == 3)
    ensures var line := if rule == 3 then Res(v) else SyntaxErrorLine;
            var d := c.(states := [0, 1], values := c.values[..2], out := c.out + [line]);
            Inv(d) && Run(c) == Run(d)
  {
    hide Run, Step, ActionOf, DefaultAction, GotoOf, ReduceStep;
    ActionTable(top, c.Symbol());
    ByReduce(c, rule);
    GotoTable(0);
    var rhs := c.values[1..];
    assert c.states == [0] + [1, mid, top] && c.values == [c.values[0]] + rhs;
    ReduceStepIs(c, [0], [1, mid, top], [c.values[0]], rhs, rule);
    assert [0] + [1] == [0, 1] && [c.values[0]] + [rhs[0]] == c.values[..2];
  }

  // The error token and the newline reduce to an empty line, whose message is printed.
  lemma EndsRecovery(c: Config, value: int, rest: seq<Token>)
    requires Inv(c) && c.states == [0, 1] && Inv(Recovering(c, value, c.nerrs)) && c.input == [NEWLINE] + rest
    ensures Inv(c.(errStatus := 2, input := rest, out := c.out + [SyntaxErrorLine]))
    ensures Run(Recovering(c, value, c.nerrs)) == Run(c.(errStatus := 2, input := rest, out := c.out + [SyntaxErrorLine]))
  {
    hide Run, Step, ActionOf, DefaultAction;
    var e := Recovering(c, value, c.nerrs);
    ActionTable(3, 4);
    ByShift(e, 7);
    var e1 := ShiftStep(e, 7);
    assert e1.states == [0, 1, 3, 7] && e1.values == [c.values[0], c.values[1], value, c.junk];
    ReducesLine(e1, 3, 7, value, 4);
    assert e1.values[..2] == c.values;
  }

  // A completed expression and its newline print the value.
  lemma EndsGoodLine(c: Config, e: Expr, rest: seq<Token>)
    requires Inv(c) && c.states == [0, 1] && Inv(Over(c, Whole(e))) && c.input == [NEWLINE] + rest
    ensures Inv(c.(errStatus := Minus(c.errStatus, 1), input := rest, out := c.out + [Res(Value(e))]))
    ensures Run(Over(c, Whole(e))) == Run(c.(errStatus := Minus(c.errStatus, 1), input := rest, out := c.out + [Res(Value(e))]))
  {
    hide Run, Step, ActionOf, DefaultAction, GotoOf, Value;
    var o := Over(c, Whole(e));
    assert o == c.(states := c.states + [6], values := c.values + [Value(e)]);
    ActionTable(6, 4);
    ByShift(o, 9);
    var o1 := ShiftStep(o, 9);
    assert o1.states == [0, 1, 6, 9] && o1.values == [c.values[0], c.values[1], Value(e), c.junk];
    ReducesLine(o1, 6, 9, Value(e), 3);
    assert o1.values[..2] == c.values;
  }

  // Where the parser stands after a line of `len` tokens, read as r says, and its newline.
  function AfterLine(c: Config, r: Reading, len: nat, rest: seq<Token>): Config {
    if r.taken == len && r.partial.Whole? then
      c.(errStatus := Minus(c.errStatus, len + 1), input := rest, out := c.out + [Res(Value(r.partial.e))])
    else
      c.(errStatus := 2, input := rest, out := c.out + [SyntaxErrorLine],
      nerrs := c.nerrs + if c.errStatus <= r.taken then 1 else 0)
  }

  // An error inside a line leaves the parser just after the error token, on the stack that
  // the line began with.
  lemma LineError(c: Config, p: Partial) returns (value: int)
    requires Inv(c) && c.states == [0, 1] && Inv(Over(c, p)) && |Over(c, p).states| < YYMAXDEPTH
    requires if c.input == [] then p != Nothing else Push(p, c.input[0]).None? && (p.Whole? ==> c.input[0] != NEWLINE)
    ensures Inv(Recovering(c, value, c.nerrs + if c.errStatus == 0 then 1 else 0))
    ensures Run(Over(c, p)) == Run(Recovering(c, value, c.nerrs + if c.errStatus == 0 then 1 else 0))
  {
    hide Run, Step, ActionOf, Inv;
    var o := Over(c, p);
    OverTop(c, p);
    if c.input == [] {
      RejectsEnd(1, p);
    } else {
      Rejects(1, p, c.input[0]);
    }
    FirstError(o);
    ValuesOfLine(c, p);
    value := o.LookaheadValue();
    assert Recovering(o, value, c.nerrs + if c.errStatus == 0 then 1 else 0) == Recovering(c, value, c.nerrs + if c.errStatus == 0 then 1 else 0);
  }

  lemma ValuesOfLine(c: Config, p: Partial)
    requires Inv(c) && c.states == [0, 1]
    ensures |Over(c, p).values| >= 2 && Over(c, p).values[..2] == c.values == c.values[..2]
  {
    OverKeeps(c, p);
  }

  // After an error the rest of the line is dropped, its newline ends the recovery.
  lemma Recovers(c: Config, value: int, line: seq<Token>, rest: seq<Token>)
    requires Inv(c) && c.states == [0, 1] && Inv(Recovering(c, value, c.nerrs))
    requires c.input == line + ([NEWLINE] + rest) && NEWLINE !in line
    ensures Inv(c.(errStatus := 2, input := rest, out := c.out + [SyntaxErrorLine]))
    ensures Run(Recovering(c, value, c.nerrs)) == Run(c.(errStatus := 2, input := rest, out := c.out + [SyntaxErrorLine]))
  {
    hide Run, Step, Recovering;
    Discards(c, value, line, [NEWLINE] + rest);
    var d := c.(input := [NEWLINE] + rest);
    var v :| Inv(Recovering(d, v, d.nerrs)) && Run(Recovering(c, value, c.nerrs)) == Run(Recovering(d, v, d.nerrs));
    EndsRecovery(d, v, rest);
  }

  // A line that breaks off at its first token that does not fit.
  lemma BadLine(c: Config, p: Partial, line: seq<Token>, rest: seq<Token>)
    requires Inv(c) && c.states == [0, 1] && Inv(Over(c, p)) && |Over(c, p).states| < YYMAXDEPTH
    requires c.input == line + ([NEWLINE] + rest) && NEWLINE !in line
    requires if line == [] then !p.Whole? else Push(p, line[0]).None?
    ensures Inv(AfterLine(c, Reading(p, 0, 0), |line|, rest))
    ensures Run(Over(c, p)) == Run(AfterLine(c, Reading(p, 0, 0), |line|, rest))
  {
    hide Run, Step, Over, Push, Recovering;
    NoPushOfNewline(p);
    assert c.input[0] == if line == [] then NEWLINE else line[0];
    var value := LineError(c, p);
    var c1 := c.(nerrs := c.nerrs + if c.errStatus == 0 then 1 else 0);
    assert Recovering(c, value, c1.nerrs) == Recovering(c1, value, c1.nerrs) by {
      RecoveringFrom(c, value, c1.nerrs);
    }
    Recovers(c1, value, line, rest);
  }

  lemma RecoveringFrom(c: Config, value: int, nerrs: nat)
    requires |c.values| >= 2
    ensures Recovering(c, value, nerrs) == Recovering(c.(nerrs := nerrs), value, nerrs)
  {
  }

  lemma {:induction false} NoPushOfNewline(p: Partial)
    ensures Push(p, NEWLINE).None?
  {
    match p
    case Nothing =>
    case Whole(_) =>
    case Open(q) => NoPushOfNewline(q);
    case Operand(_, _, q) => NoPushOfNewline(q);
  }

  // What lies under an unfinished expression is untouched.
  lemma {:induction false} OverKeeps(c: Config, p: Partial)
    requires c.states != [] && |c.values| == |c.states| && WantsExp(c.Top())
    ensures |Over(c, p).values| >= |c.values| && Over(c, p).values[..|c.values|] == c.values
    decreases p
  {
    match p
    case Nothing =>
    case Whole(_) =>
    case Open(q) =>
      var d := Grown(c, 5, c.junk);
      OverKeeps(d, q);
      assert Over(d, q).values[..|c.values|] == Over(d, q).values[..|d.values|][..|c.values|];
    case Operand(l, op, q) =>
      var d := OverOperator(c, l, op);
      OverKeeps(d, q);
      assert Over(d, q).values[..|c.values|] == Over(d, q).values[..|d.values|][..|c.values|];
  }

  // The whole of a line, from any point inside it.
  lemma {:induction false} LineRun(c: Config, p: Partial, line: seq<Token>, rest: seq<Token>)
    requires Inv(c) && c.states == [0, 1] && Inv(Over(c, p)) && |Over(c, p).states| < YYMAXDEPTH
    requires c.input == line + ([NEWLINE] + rest) && NEWLINE !in line
    ensures var r := Read(p, line);
            && Inv(AfterLine(c, r, |line|, rest))
            && Run(Over(c, p)) ==
               if 2 + r.peak < YYMAXDEPTH then Run(AfterLine(c, r, |line|, rest)) else Done(2, c.out, c.nerrs)
    decreases |line|
  {
    hide Run, Step, Over, Push, Inv;
    AfterLineKeeps(c, Read(p, line), |line|, rest);
    if line == [] && p.Whole? {
      EndsGoodLine(c, p.e, rest);
    } else if line == [] || Push(p, line[0]).None? {
      BadLine(c, p, line, rest);
    } else {
      var text := line[1..] + ([NEWLINE] + rest);
      assert c.input == [line[0]] + text;
      LineStep(c, p, line[0], text);
      var q := Push(p, line[0]).value;
      if 2 + Height(p) + 1 < YYMAXDEPTH {
        LineRun(Eaten(c, text), q, line[1..], rest);
        var r := Read(q, line[1..]);
        assert AfterLine(c, Read(p, line), |line|, rest) == AfterLine(Eaten(c, text), r, |line| - 1, rest);
      }
    }
  }

  lemma AfterLineKeeps(c: Config, r: Reading, len: nat, rest: seq<Token>)
    requires Inv(c) && c.states == [0, 1]
    ensures Inv(AfterLine(c, r, len, rest))
  {
  }

  lemma LineStep(c: Config, p: Partial, t: Token, text: seq<Token>)
    requires Inv(c) && c.states == [0, 1] && Inv(Over(c, p)) && |Over(c, p).states| < YYMAXDEPTH
    requires c.input == [t] + text && Push(p, t).Some?
    ensures var q := Push(p, t).value; var d := Eaten(c, text);
            && Inv(d) && Inv(Over(d, q)) && Height(q) <= Height(p) + 1
            && Run(Over(c, p)) == if 2 + Height(p) + 1 < YYMAXDEPTH then Run(Over(d, q)) else Done(2, c.out, c.nerrs)
  {
    hide Run, Step, Inv;
    Pushes(c, p, t, text);
    PushHeight(p, t);
  }

  lemma {:induction false} PushHeight(p: Partial, t: Token)
    requires Push(p, t).Some?
    ensures Height(Push(p, t).value) <= Height(p) + 1
  {
    match p
    case Nothing =>
    case Open(Whole(_)) =>
    case Open(q) => PushHeight(q, t);
    case Operand(_, _, Whole(_)) =>
    case Operand(_, _, q) => PushHeight(q, t);
  }

  // The tokens after the last newline: none, and the parser accepts; some, and it fails.
  lemma {:induction false} LastLineRun(c: Config, p: Partial)
    requires Inv(c) && c.states == [0, 1] && Inv(Over(c, p)) && |Over(c, p).states| < YYMAXDEPTH
    requires NEWLINE !in c.input
    ensures var r := Read(p, c.input);
            Run(Over(c, p)) ==
              if 2 + r.peak >= YYMAXDEPTH then Done(2, c.out, c.nerrs)
              else if c.input == [] && p == Nothing then Done(0, c.out, c.nerrs)
              else Done(1, c.out, c.nerrs + if c.errStatus <= r.taken then 1 else 0)
    decreases |c.input|
  {
    hide Run, Step, Over, Push, Inv;
    if c.input == [] && p == Nothing {
      Accepts(c);
    } else if c.input == [] || Push(p, c.input[0]).None? {
      LastLineFails(c, p);
    } else {
      var t, text := c.input[0], c.input[1..];
      assert c.input == [t] + text;
      LineStep(c, p, t, text);
      if 2 + Height(p) + 1 < YYMAXDEPTH {
        LastLineRun(Eaten(c, text), Push(p, t).value);
        NotNothing(p, t);
      }
    }
  }

  lemma NotNothing(p: Partial, t: Token)
    requires Push(p, t).Some?
    ensures Push(p, t).value != Nothing
  {
  }

  lemma Accepts(c: Config)
    requires Inv(c) && c.states == [0, 1] && c.input == []
    ensures Run(Over(c, Nothing)) == Done(0, c.out, c.nerrs)
  {
    ActionTable(1, 0);
    ByShift(c, 2);
    assert Step(ShiftStep(c, 2)) == Done(0, c.out, c.nerrs);
  }

  lemma LastLineFails(c: Config, p: Partial)
    requires Inv(c) && c.states == [0, 1] && Inv(Over(c, p)) && |Over(c, p).states| < YYMAXDEPTH
    requires NEWLINE !in c.input
    requires if c.input == [] then p != Nothing else Push(p, c.input[0]).None?
    ensures Run(Over(c, p)) == Done(1, c.out, c.nerrs + if c.errStatus == 0 then 1 else 0)
  {
    hide Run, Step, Over, Push, Recovering;
    var value := LineError(c, p);
    var c1 := c.(nerrs := c.nerrs + if c.errStatus == 0 then 1 else 0);
    assert Recovering(c, value, c1.nerrs) == Recovering(c1, value, c1.nerrs) by {
      RecoveringFrom(c, value, c1.nerrs);
    }
    assert c.input == c.input + [];
    Discards(c1, value, c.input, []);
    var d := c1.(input := []);
    var v :| Inv(Recovering(d, v, d.nerrs)) && Run(Recovering(c1, value, c1.nerrs)) == Run(Recovering(d, v, d.nerrs));
    FailsAtEnd(d, v);
  }

  lemma FailsAtEnd(d: Config, v: int)
    requires Inv(d) && d.states == [0, 1] && Inv(Recovering(d, v, d.nerrs)) && d.input == []
    ensures Run(Recovering(d, v, d.nerrs)) == Done(1, d.out, d.nerrs)
  {
    var e := Recovering(d, v, d.nerrs);
    ActionTable(3, 0);
    InRange(e.states);
    ErrorStepIs(e);
    assert Step(e) == Done(1, d.out, d.nerrs);
  }
}
