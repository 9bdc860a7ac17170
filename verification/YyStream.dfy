/** What yyparse computes for a whole token stream, stated on its lines. */
module YyStream {
  import opened CalcGrammar
  import opened YyTables
  import opened YyAutomaton
  import opened LineReader
  import opened Options
  import opened YyLines

  // The number of tokens before the first newline.
  function LineLength(input: seq<Token>): (n: nat)
    ensures n <= |input|
    ensures NEWLINE !in input[..n]
    ensures n < |input| ==> input[n] == NEWLINE
  {
    if input == [] || input[0] == NEWLINE then 0
    else
      var n := LineLength(input[1..]);
      assert input[..1 + n] == [input[0]] + input[1..][..n];
      1 + n
  }

  // The greatest height, above the two states every line starts with, that the stack
  // reaches while shifting the longest viable prefix of a line.
  function StackPeak(line: seq<Token>): nat {
    Read(Nothing, line).peak
  }

  ghost function LineValue(line: seq<Token>): int
    requires IsPrint(line)
  {
    var e :| Print(e) == line;
    Value(e)
  }

  // What a line followed by its newline prints.
  ghost function LineEvent(line: seq<Token>): Event {
    if IsPrint(line) then Res(LineValue(line)) else SyntaxErrorLine
  }

  // The error status after the line: it counts down with every token read, and is 2 after
  // a malformed line (3 at the error, less the newline).
  ghost function LineStatus(line: seq<Token>, errStatus: nat): nat {
    if IsPrint(line) then Minus(errStatus, |line| + 1) else 2
  }

  // A malformed line calls yyerror unless the error status has not yet counted down to 0
  // when the first token that cannot be part of a well-formed line is met.
  ghost function LineReports(line: seq<Token>, errStatus: nat): nat {
    if errStatus <= ViableLength(line) then 1 else 0
  }

  ghost function LineErrors(line: seq<Token>, errStatus: nat): nat {
    if IsPrint(line) then 0 else LineReports(line, errStatus)
  }

  // The reference: lines are independent. A line that is the print of an expression gives
  // its value; any other line gives one syntax error line. After the last newline nothing
  // may follow. The stack limit is the only other way to end.
  ghost function Reference(input: seq<Token>, errStatus: nat, out: seq<Event>, nerrs: nat): (r: Outcome)
    ensures r.Done?
    decreases |input|
  {
    var n := LineLength(input);
    var line := input[..n];
    if 2 + StackPeak(line) >= YYMAXDEPTH then
      Done(2, out, nerrs)
    else if n == |input| then
      if input == [] then Done(0, out, nerrs) else Done(1, out, nerrs + LineReports(line, errStatus))
    else
      Reference(input[n + 1..], LineStatus(line, errStatus), out + [LineEvent(line)],
                nerrs + LineErrors(line, errStatus))
  }

  // From the start of a line, the parser meets the reference on everything that is left.
  lemma {:induction false} RunsAsReference(c: Config)
    requires Inv(c) && c.states == [0, 1]
    ensures Run(c) == Reference(c.input, c.errStatus, c.out, c.nerrs)
    decreases |c.input|
  {
    hide Run, Step, Inv, LineEvent, LineStatus, LineErrors, LineReports, StackPeak, LineLength, Reference;
    if LineLength(c.input) == |c.input| {
      RunsLastLine(c);
    } else {
      var c' := RunsLine(c);
      NextLine(c.input, c.errStatus, c.out, c.nerrs);
      if 2 + StackPeak(c.input[..LineLength(c.input)]) < YYMAXDEPTH {
        RunsAsReference(c');
      }
    }
  }

  lemma LastLine(input: seq<Token>, errStatus: nat, out: seq<Event>, nerrs: nat)
    requires LineLength(input) == |input|
    ensures Reference(input, errStatus, out, nerrs) ==
              if 2 + StackPeak(input) >= YYMAXDEPTH then Done(2, out, nerrs)
              else if input == [] then Done(0, out, nerrs)
              else Done(1, out, nerrs + LineReports(input, errStatus))
  {
    hide LineEvent, LineStatus, LineErrors, LineReports, StackPeak, LineLength;
    assert input[..|input|] == input;
  }

  lemma NextLine(input: seq<Token>, errStatus: nat, out: seq<Event>, nerrs: nat)
    requires LineLength(input) < |input|
    ensures var n := LineLength(input); var line := input[..n];
            Reference(input, errStatus, out, nerrs) ==
              if 2 + StackPeak(line) >= YYMAXDEPTH then Done(2, out, nerrs)
              else Reference(input[n + 1..], LineStatus(line, errStatus), out + [LineEvent(line)], nerrs + LineErrors(line, errStatus))
  {
    hide LineEvent, LineStatus, LineErrors, LineReports, StackPeak, LineLength;
  }

  lemma RunsLine(c: Config) returns (c': Config)
    requires Inv(c) && c.states == [0, 1] && LineLength(c.input) < |c.input|
    ensures var n := LineLength(c.input); var line := c.input[..n];
            && c' == c.(errStatus := LineStatus(line, c.errStatus), input := c.input[n + 1..],
                        out := c.out + [LineEvent(line)], nerrs := c.nerrs + LineErrors(line, c.errStatus))
            && Inv(c')
            && Run(c) == if 2 + StackPeak(line) < YYMAXDEPTH then Run(c') else Done(2, c.out, c.nerrs)
  {
    hide Run, Step, Inv, LineEvent, LineStatus, LineErrors, Read, AfterLine;
    var n := LineLength(c.input);
    var line, rest := c.input[..n], c.input[n + 1..];
    assert c.input == line + ([NEWLINE] + rest);
    assert Over(c, Nothing) == c;
    LineRun(c, Nothing, line, rest);
    AfterLineIs(c, line, rest);
    c' := AfterLine(c, Read(Nothing, line), n, rest);
  }

  lemma RunsLastLine(c: Config)
    requires Inv(c) && c.states == [0, 1] && LineLength(c.input) == |c.input|
    ensures Run(c) == Reference(c.input, c.errStatus, c.out, c.nerrs)
  {
    hide Run, Step, Inv, LineReports, Read;
    var line := c.input[..|c.input|];
    assert line == c.input;
    assert Over(c, Nothing) == c;
    LastLineRun(c, Nothing);
    LineReportsIs(line, c.errStatus);
  }

  lemma LineReportsIs(line: seq<Token>, errStatus: nat)
    ensures LineReports(line, errStatus) == if errStatus <= Read(Nothing, line).taken then 1 else 0
  {
    ReadsViablePrefix(line);
  }

  lemma AfterLineIs(c: Config, line: seq<Token>, rest: seq<Token>)
    ensures AfterLine(c, Read(Nothing, line), |line|, rest) ==
            c.(errStatus := LineStatus(line, c.errStatus), input := rest,
               out := c.out + [LineEvent(line)], nerrs := c.nerrs + LineErrors(line, c.errStatus))
  {
    hide Read, ViableLength, Print;
    ReadsViablePrefix(line);
    LineValueIs(line, Read(Nothing, line).partial);
  }

  lemma LineValueIs(line: seq<Token>, p: Partial)
    ensures p.Whole? && Print(p.e) == line ==> LineValue(line) == Value(p.e)
  {
    if p.Whole? && Print(p.e) == line {
      var e :| Print(e) == line && Value(e) == LineValue(line);
      PrintIsInjective(e, p.e);
    }
  }

  // yyparse on every token stream: result, printed lines and error reports.
  lemma ParserMeetsReference(input: seq<Token>, junk: int)
    ensures Run(Init(input, junk)) == Reference(input, 0, [], 0)
  {
    hide Run, Inv;
    var c := Init(input, junk);
    ActionTable(0, c.Symbol());
    GotoTable(0);
    ByReduce(c, 2);
    assert ReduceStep(c, 2) == Config([0, 1], [junk, junk], 0, input, [], 0, junk);
    RunsAsReference(ReduceStep(c, 2));
  }

  // Unless the stack is exhausted, yyparse returns 0 exactly for the empty stream and for
  // streams that end with a newline, however many malformed lines they hold; else 1.
  lemma {:induction false} AcceptsIff(input: seq<Token>, errStatus: nat, out: seq<Event>, nerrs: nat)
    ensures var r := Reference(input, errStatus, out, nerrs);
            && r.Done? && 0 <= r.result <= 2
            && (r.result != 2 ==> (r.result == 0 <==> input == [] || input[|input| - 1] == NEWLINE))
    decreases |input|
  {
    hide LineEvent, LineStatus, LineReports, LineErrors, StackPeak, Reference;
    var n := LineLength(input);
    var line := input[..n];
    if n < |input| {
      NextLine(input, errStatus, out, nerrs);
      assert n == |input| - 1 ==> input[n + 1..] == [];
      AcceptsIff(input[n + 1..], LineStatus(line, errStatus), out + [LineEvent(line)],
                 nerrs + LineErrors(line, errStatus));
    } else {
      LastLine(input, errStatus, out, nerrs);
      assert input != [] ==> input[|input| - 1] in input[..n];
    }
  }

  // What a stream prints and returns does not depend on the errors or output before it: a
  // line gives the same after malformed lines as it does alone.
  lemma {:induction false} HistoryIsIrrelevant(input: seq<Token>, e1: nat, out: seq<Event>, n1: nat, e2: nat, n2: nat)
    ensures var r1 := Reference(input, e1, out, n1); var r2 := Reference(input, e2, [], n2);
            r1.Done? && r2.Done? && r1.result == r2.result && r1.out == out + r2.out
    decreases |input|
  {
    hide LineEvent, LineErrors, StackPeak, LineStatus, LineReports, LineLength, Reference;
    var n := LineLength(input);
    var line := input[..n];
    if n == |input| {
      LastLine(input, e1, out, n1);
      LastLine(input, e2, [], n2);
    } else {
      NextLine(input, e1, out, n1);
      NextLine(input, e2, [], n2);
      if 2 + StackPeak(line) < YYMAXDEPTH {
        var a := LineEvent(line);
        var m1 := n1 + LineErrors(line, e1);
        var m2 := n2 + LineErrors(line, e2);
        HistoryIsIrrelevant(input[n + 1..], LineStatus(line, e1), out + [a], m1, 0, 0);
        HistoryIsIrrelevant(input[n + 1..], LineStatus(line, e2), [] + [a], m2, 0, 0);
      }
    }
  }

  // Streams of complete lines compose: the second is parsed as if it stood alone.
  lemma {:induction false} LinesCompose(first: seq<Token>, second: seq<Token>, errStatus: nat, nerrs: nat)
    requires Reference(first, errStatus, [], nerrs).result == 0
    ensures var r := Reference(first + second, errStatus, [], nerrs); var r2 := Reference(second, 0, [], 0);
            && r.Done? && r2.Done? && r.result == r2.result
            && r.out == Reference(first, errStatus, [], nerrs).out + r2.out
    decreases |first|
  {
    hide LineEvent, LineErrors, StackPeak, LineStatus, LineReports, LineLength, Reference;
    if first == [] {
      assert first + second == second;
      HistoryIsIrrelevant(second, errStatus, [], nerrs, 0, 0);
      EmptyReference(errStatus, [], nerrs);
    } else {
      HasLine(first, errStatus, nerrs);
      SplitLine(first, second);
      NextLine(first, errStatus, [], nerrs);
      NextLine(first + second, errStatus, [], nerrs);
      var n := LineLength(first);
      var line := first[..n];
      var e, m := LineStatus(line, errStatus), nerrs + LineErrors(line, errStatus);
      var a := [] + [LineEvent(line)];
      HistoryIsIrrelevant(first[n + 1..], e, a, m, e, m);
      HistoryIsIrrelevant(first[n + 1..] + second, e, a, m, e, m);
      LinesCompose(first[n + 1..], second, e, m);
    }
  }

  lemma EmptyReference(errStatus: nat, out: seq<Event>, nerrs: nat)
    ensures Reference([], errStatus, out, nerrs) == Done(0, out, nerrs)
  {
  }

  lemma HasLine(input: seq<Token>, errStatus: nat, nerrs: nat)
    requires Reference(input, errStatus, [], nerrs).result == 0 && input != []
    ensures LineLength(input) < |input|
  {
    hide LineReports, StackPeak, LineLength, Reference;
    if LineLength(input) == |input| {
      LastLine(input, errStatus, [], nerrs);
    }
  }

  lemma SplitLine(first: seq<Token>, second: seq<Token>)
    requires LineLength(first) < |first|
    ensures var n := LineLength(first);
            && LineLength(first + second) == n
            && (first + second)[..n] == first[..n]
            && (first + second)[n + 1..] == first[n + 1..] + second
    decreases |first|
  {
    if first[0] != NEWLINE {
      assert (first + second)[1..] == first[1..] + second;
      SplitLine(first[1..], second);
    }
  }
}
