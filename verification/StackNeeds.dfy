/** How much parser stack a line needs. */
module StackNeeds {
  import opened CalcGrammar
  import opened YyTables
  import opened LineReader
  import opened Options
  import opened YyStream
  import opened YyLines
  import opened YyAutomaton

  // How far the stack rises while an expression is parsed.
  function Need(e: Expr): (n: nat)
    ensures n >= 1
  {
    match e
    case Const(_) => 1
    case Paren(x) => Max(1 + Need(x), 3)
    case Bin(_, l, r) => Max(Max(1 + Need(l), 3 + Need(r)), 5)
  }

  // p has a place where the next expression goes.
  predicate HasHole(p: Partial) {
    match p
    case Nothing => true
    case Whole(_) => false
    case Open(q) => HasHole(q)
    case Operand(_, _, q) => HasHole(q)
  }

  function Fill(p: Partial, q: Partial): Partial
    requires HasHole(p)
  {
    match p
    case Nothing => q
    case Open(x) => Open(Fill(x, q))
    case Operand(l, op, x) => Operand(l, op, Fill(x, q))
  }

  lemma {:induction false} FillPush(p: Partial, q: Partial, t: Token)
    requires HasHole(p) && Push(q, t).Some?
    ensures Push(Fill(p, q), t) == Some(Fill(p, Push(q, t).value))
    ensures Height(Fill(p, q)) == Height(p) + Height(q)
  {
    match p
    case Nothing =>
    case Open(x) => FillPush(x, q, t);
    case Operand(l, op, x) => FillPush(x, q, t);
  }

  // Reading a printed expression in place of the hole takes all of it and peaks as needed.
  lemma {:induction false} ReadsExp(p: Partial, e: Expr, rest: seq<Token>)
    requires HasHole(p)
    ensures var r := Read(p, Spell(e, rest)); var r' := Read(Fill(p, Whole(e)), rest);
            r.peak == Max(Height(p) + Need(e), r'.peak) && r.partial == r'.partial
    decreases e, 1
  {
    FillNothing(p);
    match e
    case Const(n) =>
      FillPush(p, Nothing, Num(n));
      ReadOne(p, Num(n), rest);
    case Paren(x) =>
      ReadsParen(p, x, rest);
    case Bin(op, l, r) =>
      ReadsBin(p, op, l, r, rest);
  }

  lemma {:induction false} FillNothing(p: Partial)
    requires HasHole(p)
    ensures Fill(p, Nothing) == p
  {
    match p
    case Nothing =>
    case Open(x) => FillNothing(x);
    case Operand(_, _, x) => FillNothing(x);
  }

  lemma {:induction false} FillHole(p: Partial, q: Partial)
    requires HasHole(p) && HasHole(q)
    ensures HasHole(Fill(p, q)) && Height(Fill(p, q)) == Height(p) + Height(q)
    ensures forall x :: Fill(Fill(p, q), x) == Fill(p, Fill(q, x))
  {
    match p
    case Nothing =>
    case Open(x) => FillHole(x, q);
    case Operand(_, _, x) => FillHole(x, q);
  }

  lemma ReadOne(p: Partial, t: Token, rest: seq<Token>)
    requires Push(p, t).Some?
    ensures var r := Read(p, [t] + rest); var r' := Read(Push(p, t).value, rest);
            r.peak == Max(Height(p) + 1, r'.peak) && r.partial == r'.partial
  {
    assert ([t] + rest)[1..] == rest;
  }

  lemma {:induction false} ReadsParen(p: Partial, x: Expr, rest: seq<Token>)
    requires HasHole(p)
    ensures var r := Read(p, Spell(Paren(x), rest)); var r' := Read(Fill(p, Whole(Paren(x))), rest);
            r.peak == Max(Height(p) + Need(Paren(x)), r'.peak) && r.partial == r'.partial
    decreases x, 2
  {
    hide Read, Push, Fill, Spell;
    assert Spell(Paren(x), rest) == [LPAREN] + Spell(x, [RPAREN] + rest) by {
      SpellParen(x, rest);
    }
    Opens(p, Spell(x, [RPAREN] + rest));
    FillOpen(p, x);
    ReadsExp(Fill(p, Open(Nothing)), x, [RPAREN] + rest);
    ClosesParen(p, x, rest);
  }

  lemma SpellParen(x: Expr, rest: seq<Token>)
    ensures Spell(Paren(x), rest) == [LPAREN] + Spell(x, [RPAREN] + rest)
  {
  }

  lemma FillOpen(p: Partial, x: Expr)
    requires HasHole(p)
    ensures HasHole(Fill(p, Open(Nothing))) && Height(Fill(p, Open(Nothing))) == Height(p) + 1
    ensures Fill(Fill(p, Open(Nothing)), Whole(x)) == Fill(p, Open(Whole(x)))
  {
    FillHole(p, Open(Nothing));
    assert Fill(Fill(p, Open(Nothing)), Whole(x)) == Fill(p, Fill(Open(Nothing), Whole(x)));
    assert Fill(Open(Nothing), Whole(x)) == Open(Whole(x));
  }

  lemma FillOperand(p: Partial, l: Expr, op: Operator, x: Expr)
    requires HasHole(p)
    ensures var o := Fill(p, Operand(l, op, Nothing));
            && HasHole(o) && Height(o) == Height(p) + 3
            && Fill(o, Whole(x)) == Fill(p, Operand(l, op, Whole(x)))
  {
    var q := Operand(l, op, Nothing);
    FillHole(p, q);
    assert Fill(Fill(p, q), Whole(x)) == Fill(p, Fill(q, Whole(x)));
    assert Fill(q, Whole(x)) == Operand(l, op, Whole(x));
  }

  lemma Opens(p: Partial, rest: seq<Token>)
    requires HasHole(p)
    ensures var r := Read(p, [LPAREN] + rest); var r' := Read(Fill(p, Open(Nothing)), rest);
            r.peak == Max(Height(p) + 1, r'.peak) && r.partial == r'.partial
  {
    FillNothing(p);
    FillPush(p, Nothing, LPAREN);
    ReadOne(p, LPAREN, rest);
  }

  lemma Closes(p: Partial, q: Partial, e: Expr, rest: seq<Token>)
    requires HasHole(p) && Push(q, RPAREN) == Some(Whole(e))
    ensures var r := Read(Fill(p, q), [RPAREN] + rest); var r' := Read(Fill(p, Whole(e)), rest);
            r.peak == Max(Height(p) + Height(q) + 1, r'.peak) && r.partial == r'.partial
  {
    hide Read, Push, Fill, Height, HasHole;
    FillPush(p, q, RPAREN);
    ReadOne(Fill(p, q), RPAREN, rest);
  }

  lemma Operates(p: Partial, l: Expr, op: Operator, rest: seq<Token>)
    requires HasHole(p)
    ensures var r := Read(Fill(p, Open(Whole(l))), [OpToken(op)] + rest);
            var r' := Read(Fill(p, Operand(l, op, Nothing)), rest);
            r.peak == Max(Height(p) + 3, r'.peak) && r.partial == r'.partial
  {
    FillPush(p, Open(Whole(l)), OpToken(op));
    ReadOne(Fill(p, Open(Whole(l))), OpToken(op), rest);
  }

  lemma {:induction false} ReadsBin(p: Partial, op: Operator, l: Expr, r: Expr, rest: seq<Token>)
    requires HasHole(p)
    ensures var e := Bin(op, l, r);
            var x := Read(p, Spell(e, rest)); var x' := Read(Fill(p, Whole(e)), rest);
            x.peak == Max(Height(p) + Need(e), x'.peak) && x.partial == x'.partial
    decreases Bin(op, l, r), 0
  {
    hide Read, Push, Fill;
    var text := Spell(r, [RPAREN] + rest);
    Opens(p, Spell(l, [OpToken(op)] + text));
    FillOpen(p, l);
    ReadsExp(Fill(p, Open(Nothing)), l, [OpToken(op)] + text);
    Operates(p, l, op, text);
    FillOperand(p, l, op, r);
    ReadsExp(Fill(p, Operand(l, op, Nothing)), r, [RPAREN] + rest);
    ClosesBin(p, op, l, r, rest);
  }

  lemma ClosesParen(p: Partial, x: Expr, rest: seq<Token>)
    requires HasHole(p)
    ensures var r := Read(Fill(p, Open(Whole(x))), [RPAREN] + rest);
            var r' := Read(Fill(p, Whole(Paren(x))), rest);
            r.peak == Max(Height(p) + 3, r'.peak) && r.partial == r'.partial
  {
    Closes(p, Open(Whole(x)), Paren(x), rest);
  }

  lemma ClosesBin(p: Partial, op: Operator, l: Expr, r: Expr, rest: seq<Token>)
    requires HasHole(p)
    ensures var x := Read(Fill(p, Operand(l, op, Whole(r))), [RPAREN] + rest);
            var x' := Read(Fill(p, Whole(Bin(op, l, r))), rest);
            x.peak == Max(Height(p) + 5, x'.peak) && x.partial == x'.partial
  {
    Closes(p, Operand(l, op, Whole(r)), Bin(op, l, r), rest);
  }

  // The stack limit for a well-formed line, from the shape of its expression alone.
  lemma PeakOfPrint(e: Expr)
    ensures StackPeak(Print(e)) == Need(e)
  {
    SpellIsPrint(e, []);
    assert Print(e) + [] == Print(e);
    ReadsExp(Nothing, e, []);
  }

  // A line of fewer than 9998 tokens never exhausts the stack, well formed or not.
  lemma {:induction false} PeakBound(p: Partial, line: seq<Token>)
    ensures Read(p, line).peak <= Height(p) + |line|
    decreases |line|
  {
    if line != [] && Push(p, line[0]).Some? {
      PeakBound(Push(p, line[0]).value, line[1..]);
      PushHeight(p, line[0]);
    }
  }

  // One well-formed line: its value is printed, unless the expression is nested too deeply.
  lemma ParsesExpression(e: Expr, junk: int)
    ensures Run(Init(Print(e) + [NEWLINE], junk)) ==
            if 2 + Need(e) < YYMAXDEPTH then Done(0, [Res(Value(e))], 0) else Done(2, [], 0)
  {
    hide Run, Need, StackPeak;
    var input := Print(e) + [NEWLINE];
    ParserMeetsReference(input, junk);
    PeakOfPrint(e);
    NoNewline(e);
    LineLengthIs(Print(e), []);
    assert input[..|Print(e)|] == Print(e) && input[|Print(e)| + 1..] == [];
    LineValueIs(Print(e), Whole(e));
    EmptyReference(LineStatus(Print(e), 0), [] + [LineEvent(Print(e))], 0);
  }

  lemma {:induction false} LineLengthIs(line: seq<Token>, rest: seq<Token>)
    requires NEWLINE !in line
    ensures LineLength(line + ([NEWLINE] + rest)) == |line|
    decreases |line|
  {
    if line != [] {
      assert (line + ([NEWLINE] + rest))[1..] == line[1..] + ([NEWLINE] + rest);
      LineLengthIs(line[1..], rest);
    }
  }
}
