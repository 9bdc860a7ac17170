/** The parser object: yyparse's loop over its two stacks. */
module Yyparse {
  import opened CalcGrammar
  import opened YyTables
  import opened YyAutomaton
  import opened YyLines
  import opened YyStream

  // yychar: nothing read, the end of the input, or a token.
  datatype Lookahead = YyEmpty | YyEof | YyToken(token: Token)

  class Parser {
    var states: seq<nat>   // yyss .. yyssp
    var values: seq<int>   // yyvs .. yyvsp
    var stackSize: nat     // yystacksize
    var yychar: Lookahead
    var errStatus: nat     // yyerrstatus
    var nerrs: nat         // yynerrs
    var input: seq<Token>  // what yylex has still to return
    var out: seq<Event>    // what has been printed
    const junk: int

    constructor (input: seq<Token>, junk: int)
      ensures this.input == input && this.junk == junk
      ensures yychar == YyEmpty && out == []
    {
      this.input, this.junk := input, junk;
      states, values, stackSize := [], [], 0;
      yychar, errStatus, nerrs, out := YyEmpty, 0, 0, [];
    }

    function Current(): Config
      reads this
    {
      Config(states, values, errStatus,
             match yychar {
               case YyEmpty => input
               case YyEof => []
               case YyToken(t) => [t] + input
             },
             out, nerrs, junk)
    }

    predicate LookaheadOk()
      reads this
    {
      yychar == YyEof ==> input == []
    }

    function Token(): nat
      reads this
    {
      match yychar {
        case YyToken(t) => SymbolOf(t)
        case _ => 0
      }
    }

    function YyLval(): int
      reads this
    {
      if yychar.YyToken? && yychar.token.Num? then yychar.token.value else junk
    }

    // yychar = yylex() when there is no lookahead yet
    method ReadLookahead()
      requires LookaheadOk()
      modifies this`yychar, this`input
      ensures LookaheadOk() && yychar != YyEmpty
      ensures Current() == old(Current())
      ensures Token() == Current().Symbol() && YyLval() == Current().LookaheadValue()
    {
      if yychar == YyEmpty {
        if input == [] {
          yychar := YyEof;
        } else {
          yychar, input := YyToken(input[0]), input[1..];
        }
      }
    }

    // The switch over the semantic actions, with the default $$ = $1.
    method SemanticAction(rule: nat, rhs: seq<int>) returns (yyval: int)
      requires 1 <= rule < |YYR2| && |rhs| == YYR2[rule]
      modifies this`out
      ensures yyval == Semantic(rule, rhs, junk)
      ensures out == old(out) + Printed(rule, rhs)
    {
      yyval := if |rhs| == 0 then junk else rhs[0];
      if rule == 3 {
        out := out + [Res(rhs[1])];
      } else if rule == 4 {
        out := out + [SyntaxErrorLine];
      } else if rule == 5 {
        yyval := rhs[1];
      } else if rule == 6 {
        yyval := rhs[1] + rhs[3];
      } else if rule == 7 {
        yyval := rhs[1] - rhs[3];
      } else if rule == 8 {
        yyval := rhs[1] * rhs[3];
      }
    }

    // yyreduce
    method YyReduce(rule: nat)
      requires 1 <= rule < |YYR1| && YYR2[rule] < |states| == |values|
      requires states[|states| - YYR2[rule] - 1] < |YYPACT|
      requires GotoOf(rule, states[|states| - YYR2[rule] - 1]) >= 0
      modifies this`states, this`values, this`out
      ensures Current() == ReduceStep(old(Current()), rule)
    {
      hide GotoOf, Semantic, Printed;
      var n := |states| - YYR2[rule];
      var yyval := SemanticAction(rule, values[n..]);
      states, values := states[..n], values[..n] + [yyval];
      states := states + [GotoOf(rule, states[n - 1])];
    }

    // The loop of yyerrlab1: pops the states that cannot shift the error token.
    method PopStates() returns (found: bool)
      requires 0 < |states| == |values| && forall i :: 0 <= i < |states| ==> states[i] < 20
      modifies this`states, this`values
      ensures found <==> PopToError(old(states)) > 0
      ensures found ==> states == old(states)[..PopToError(old(states))] && values == old(values)[..PopToError(old(states))]
    {
      hide ErrorShift;
      ghost var states0, values0 := states, values;
      while ErrorShift(states[|states| - 1]) == 0
        invariant 0 < |states| <= |states0| == |values0|
        invariant states == states0[..|states|] && values == values0[..|states|]
        invariant PopToError(states0) == PopToError(states)
        decreases |states|
      {
        if |states| == 1 {
          return false;
        }
        assert states0[..|states|][..|states| - 1] == states0[..|states| - 1];
        assert values0[..|states|][..|states| - 1] == values0[..|states| - 1];
        states, values := states[..|states| - 1], values[..|values| - 1];
      }
      return true;
    }

    // yyerrlab and yyerrlab1; `aborted` is YYABORT
    method YyError() returns (aborted: bool)
      requires 0 < |states| == |values| && forall i :: 0 <= i < |states| ==> states[i] < 20
      requires LookaheadOk() && yychar != YyEmpty
      modifies this`states, this`values, this`yychar, this`errStatus, this`nerrs
      ensures LookaheadOk()
      ensures ErrorStep(old(Current())) == if aborted then Done(1, out, nerrs) else Running(Current())
    {
      hide ErrorShift, SymbolOf, ErrorStep, PopToError;
      ErrorStepCases(Current());
      var yylval := YyLval();
      if errStatus == 0 {
        nerrs := nerrs + 1;
      }
      if errStatus == 3 {
        if yychar == YyEof {
          return true;
        }
        yychar := YyEmpty;
      }
      errStatus := 3;
      var found := PopStates();
      if !found {
        return true;
      }
      values := values + [yylval];
      states := states + [ErrorShift(states[|states| - 1])];
      return false;
    }

    // yybackup: what to do in the current state, reading a lookahead only if it matters.
    method YyBackup() returns (action: Action)
      requires states != [] && states[|states| - 1] < 20 && states[|states| - 1] != YYFINAL
      requires LookaheadOk()
      modifies this`yychar, this`input
      ensures LookaheadOk() && Current() == old(Current())
      ensures action == ActionOf(Current().Top(), Current().Symbol())
      ensures !action.Reduce? ==> yychar != YyEmpty && Token() == Current().Symbol() && YyLval() == Current().LookaheadValue()
    {
      hide SymbolOf, ActionOf, DefaultAction;
      var yystate := states[|states| - 1];
      if YYPACT[yystate] == YYPACT_NINF {
        NoDefaultError(yystate, Current().Symbol());
        action := DefaultAction(yystate);
      } else {
        ReadLookahead();
        action := LookUp(yystate, Token());
      }
    }

    // Shifting the lookahead.
    method YyShift(next: nat)
      requires |states| == |values| && LookaheadOk()
      requires yychar != YyEmpty && YyLval() == Current().LookaheadValue()
      modifies this`states, this`values, this`errStatus, this`yychar
      ensures LookaheadOk() && Current() == ShiftStep(old(Current()), next)
    {
      if errStatus > 0 {
        errStatus := errStatus - 1;
      }
      values := values + [YyLval()];
      yychar := YyEmpty;
      states := states + [next];
    }

    // yysetstate: the stacks grow up to YYMAXDEPTH.
    method YySetState() returns (exhausted: bool)
      requires |states| <= stackSize && YYINITDEPTH <= stackSize <= YYMAXDEPTH
      modifies this`stackSize
      ensures exhausted <==> |states| >= YYMAXDEPTH
      ensures YYINITDEPTH <= stackSize <= YYMAXDEPTH
      ensures !exhausted ==> |states| < stackSize
      ensures old(stackSize) > |states| ==> stackSize == old(stackSize)
      ensures old(stackSize) <= |states| && !exhausted ==>
                stackSize == if 2 * old(stackSize) <= YYMAXDEPTH then 2 * old(stackSize) else YYMAXDEPTH
    {
      if stackSize <= |states| {
        if YYMAXDEPTH <= stackSize {
          return true;
        }
        stackSize := stackSize * 2;
        if YYMAXDEPTH < stackSize {
          stackSize := YYMAXDEPTH;
        }
      }
      return false;
    }

    // From yybackup to the next yynewstate; `aborted` is YYABORT
    method YyPass() returns (aborted: bool)
      requires Inv(Current()) && LookaheadOk()
      requires |states| < YYMAXDEPTH && Current().Top() != YYFINAL
      modifies this`states, this`values, this`yychar, this`errStatus, this`nerrs, this`input, this`out
      ensures LookaheadOk()
      ensures aborted ==> Run(old(Current())) == Done(1, out, nerrs)
      ensures !aborted ==> Onward(old(Current()), Current())
    {
      hide Run, Step, ActionOf, ReduceStep, ShiftStep, ErrorStep, Onward, GotoOf;
      TopInRange(Current());
      Steps(Current());
      var action := YyBackup();
      match action {
        case Shift(next) =>
          YyShift(next);
          return false;
        case Reduce(rule) =>
          YyReduce(rule);
          return false;
        case Error =>
          aborted := YyError();
      }
    }

    // yyparse
    method YyParse() returns (result: int)
      requires yychar == YyEmpty && out == []
      modifies this
      ensures Done(result, out, nerrs) == Reference(old(input), 0, [], 0)
    {
      hide Run, Step, Reference;
      ParserMeetsReference(input, junk);
      ghost var goal := Reference(input, 0, [], 0);
      states, values, stackSize := [0], [junk], YYINITDEPTH;
      errStatus, nerrs := 0, 0;
      assert Current() == Init(old(input), junk);
      while true
        invariant LookaheadOk() && 0 < |states| <= stackSize && YYINITDEPTH <= stackSize <= YYMAXDEPTH
        invariant Inv(Current()) && Run(Current()) == goal
        decreases if Current().Top() == YYFINAL then 0 else 1,
                  |Current().input|, if Current().errStatus == 3 then 0 else 1, StackMeasure(Current().states)
      {
        var exhausted := YySetState();
        if exhausted {
          Ends(Current());
          return 2;
        }
        if states[|states| - 1] == YYFINAL {
          Ends(Current());
          return 0;
        }
        var aborted := YyPass();
        if aborted {
          return 1;
        }
      }
    }
  }

  lemma TopInRange(c: Config)
    requires Inv(c)
    ensures |c.states| == |c.values| > 0 && c.Top() < 20
  {
    StackShape(c.states);
  }

  // The lookup in the compressed tables, for a state that looks at the token.
  method LookUp(yystate: nat, yytoken: nat) returns (action: Action)
    requires yystate < 20 && yytoken < YYNTOKENS && YYPACT[yystate] != YYPACT_NINF
    ensures action == ActionOf(yystate, yytoken)
  {
    var yyn := YYPACT[yystate] + yytoken;
    if yyn < 0 || YYLAST < yyn || YYCHECK[yyn] != yytoken {
      return DefaultAction(yystate);
    }
    yyn := YYTABLE[yyn];
    return if yyn <= 0 then Reduce(Negated(yyn)) else Shift(yyn);
  }

  // A state that does not look at the token reduces.
  lemma NoDefaultError(s: nat, sym: nat)
    requires s < 20 && s != YYFINAL && YYPACT[s] == YYPACT_NINF && sym < YYNTOKENS
    ensures DefaultAction(s).Reduce? && ActionOf(s, sym) == DefaultAction(s)
  {
  }

  lemma ErrorStepCases(c: Config)
    requires 0 < |c.states| == |c.values| && forall i :: 0 <= i < |c.states| ==> c.states[i] < 20
    ensures var nerrs := if c.errStatus == 0 then c.nerrs + 1 else c.nerrs;
            var n := PopToError(c.states);
            ErrorStep(c) ==
              if (c.errStatus == 3 && c.input == []) || n == 0 then Done(1, c.out, nerrs)
              else Running(Config(c.states[..n] + [ErrorShift(c.states[n - 1])], c.values[..n] + [c.LookaheadValue()], 3,
                                  if c.errStatus == 3 then c.Rest() else c.input, c.out, nerrs, c.junk))
  {
    hide PopToError, ErrorShift;
  }

  lemma Ends(c: Config)
    requires Inv(c) && (|c.states| >= YYMAXDEPTH || c.Top() == YYFINAL)
    ensures Run(c) == if |c.states| >= YYMAXDEPTH then Done(2, c.out, c.nerrs) else Done(0, c.out, c.nerrs)
  {
  }

  lemma ShiftsOn(c: Config)
    requires Inv(c) && |c.states| < YYMAXDEPTH && c.Top() < 20 && c.Top() != YYFINAL
    requires ActionOf(c.Top(), c.Symbol()).Shift?
    ensures Onward(c, ShiftStep(c, ActionOf(c.Top(), c.Symbol()).state))
  {
    hide Run, ActionOf;
    StepProgress(c);
    RunStep(c);
  }

  lemma ReducesOn(c: Config)
    requires Inv(c) && |c.states| < YYMAXDEPTH && c.Top() < 20 && c.Top() != YYFINAL
    requires ActionOf(c.Top(), c.Symbol()).Reduce?
    ensures var rule := ActionOf(c.Top(), c.Symbol()).rule;
            && 1 <= rule < |YYR1| && YYR2[rule] < |c.states|
            && c.states[|c.states| - YYR2[rule] - 1] < 20
            && GotoOf(rule, c.states[|c.states| - YYR2[rule] - 1]) >= 0
            && Onward(c, ReduceStep(c, rule))
  {
    hide Run, ActionOf, GotoOf;
    ReduceKeeps(c, ActionOf(c.Top(), c.Symbol()).rule);
    StepProgress(c);
    RunStep(c);
  }

  lemma FailsOn(c: Config)
    requires Inv(c) && |c.states| < YYMAXDEPTH && c.Top() < 20 && c.Top() != YYFINAL
    requires ActionOf(c.Top(), c.Symbol()) == Error
    requires forall i :: 0 <= i < |c.states| ==> c.states[i] < 20
    ensures ErrorStep(c).Running? ==> Onward(c, ErrorStep(c).config)
    ensures ErrorStep(c).Done? ==> Run(c) == ErrorStep(c)
  {
    hide Run, ActionOf;
    if ErrorStep(c).Running? {
      StepProgress(c);
      RunStep(c);
    } else {
      RunDone(c);
    }
  }

  // What one pass around yynewstate does to a configuration.
  lemma Steps(c: Config)
    requires Inv(c) && |c.states| < YYMAXDEPTH && c.Top() < 20 && c.Top() != YYFINAL
    ensures forall i :: 0 <= i < |c.states| ==> c.states[i] < 20
    ensures var a := ActionOf(c.Top(), c.Symbol());
            && (a.Shift? ==> Onward(c, ShiftStep(c, a.state)))
            && (a.Reduce? ==>
                  && 1 <= a.rule < |YYR1| && YYR2[a.rule] < |c.states|
                  && c.states[|c.states| - YYR2[a.rule] - 1] < |YYPACT|
                  && GotoOf(a.rule, c.states[|c.states| - YYR2[a.rule] - 1]) >= 0
                  && Onward(c, ReduceStep(c, a.rule)))
            && (a.Error? ==>
                  && (ErrorStep(c).Running? ==> Onward(c, ErrorStep(c).config))
                  && (ErrorStep(c).Done? ==> Run(c) == ErrorStep(c)))
  {
    hide Run, ActionOf, GotoOf, Onward, ErrorStep, ReduceStep, ShiftStep;
    InRange(c.states);
    match ActionOf(c.Top(), c.Symbol())
    case Shift(t) => ShiftsOn(c);
    case Reduce(r) => ReducesOn(c);
    case Error => FailsOn(c);
  }

  lemma RunDone(c: Config)
    requires Inv(c) && Step(c).Done?
    ensures Run(c) == Step(c)
  {
  }

  // The run continues from c' with a smaller measure.
  ghost predicate Onward(c: Config, c': Config) {
    && Inv(c') && Inv(c) && Run(c) == Run(c')
    && |c'.states| <= |c.states| + 1
    && (|| c'.Top() == YYFINAL
        || |c'.input| < |c.input|
        || (|c'.input| == |c.input| && c.errStatus != 3 && c'.errStatus == 3)
        || (|c'.input| == |c.input| && c'.errStatus == c.errStatus && StackMeasure(c'.states) < StackMeasure(c.states)))
  }
}
