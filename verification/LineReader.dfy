/** Reading a line from left to right: the unfinished expression that the tokens read so far
    determine, and when no further token fits. */
module LineReader {
  import opened CalcGrammar
  import opened Options

  // An expression of which only a prefix has been read.
  datatype Partial =
    | Nothing
    | Whole(e: Expr)
    | Open(inner: Partial)                              // ( inner
    | Operand(left: Expr, op: Operator, right: Partial) // ( left op right

  function Yield(p: Partial): seq<Token> {
    match p
    case Nothing => []
    case Whole(e) => Print(e)
    case Open(q) => [LPAREN] + Yield(q)
    case Operand(l, op, q) => [LPAREN] + Print(l) + [OpToken(op)] + Yield(q)
  }

  // The number of symbols an LR parser keeps on its stack for p.
  function Height(p: Partial): nat {
    match p
    case Nothing => 0
    case Whole(_) => 1
    case Open(q) => 1 + Height(q)
    case Operand(_, _, q) => 3 + Height(q)
  }

  function OperatorOf(t: Token): Option<Operator> {
    if t == OpToken(Add) then Some(Add)
    else if t == OpToken(Sub) then Some(Sub)
    else if t == OpToken(Mul) then Some(Mul)
    else None
  }

  // One more token, or None when it does not fit.
  function Push(p: Partial, t: Token): Option<Partial> {
    match p
    case Nothing =>
      if t.Num? then Some(Whole(Const(t.value))) else if t == LPAREN then Some(Open(Nothing)) else None
    case Whole(_) => None
    case Open(Whole(l)) =>
      if t == RPAREN then Some(Whole(Paren(l)))
      else if OperatorOf(t).Some? then Some(Operand(l, OperatorOf(t).value, Nothing))
      else None
    case Open(q) =>
      if Push(q, t).Some? then Some(Open(Push(q, t).value)) else None
    case Operand(l, op, Whole(r)) =>
      if t == RPAREN then Some(Whole(Bin(op, l, r))) else None
    case Operand(l, op, q) =>
      if Push(q, t).Some? then Some(Operand(l, op, Push(q, t).value)) else None
  }

  // Where reading stops: what has been read, how many tokens that took, and the greatest
  // height reached just after taking one of them.
  datatype Reading = Reading(partial: Partial, taken: nat, peak: nat)

  function Read(p: Partial, line: seq<Token>): (r: Reading)
    ensures r.taken <= |line|
    decreases line
  {
    if line == [] || Push(p, line[0]).None? then Reading(p, 0, 0)
    else
      var r := Read(Push(p, line[0]).value, line[1..]);
      Reading(r.partial, 1 + r.taken, Max(Height(p) + 1, r.peak))
  }

  lemma {:induction false} PushYields(p: Partial, t: Token)
    requires Push(p, t).Some?
    ensures Yield(Push(p, t).value) == Yield(p) + [t]
  {
    match p
    case Nothing =>
    case Open(Whole(l)) =>
    case Open(q) =>
      PushYields(q, t);
    case Operand(l, op, Whole(r)) =>
    case Operand(l, op, q) =>
      PushYields(q, t);
  }

  lemma {:induction false} ReadYields(p: Partial, line: seq<Token>)
    ensures var r := Read(p, line);
            Yield(r.partial) == Yield(p) + line[..r.taken]
    decreases line
  {
    if line != [] && Push(p, line[0]).Some? {
      var q := Push(p, line[0]).value;
      PushYields(p, line[0]);
      ReadYields(q, line[1..]);
      var r := Read(q, line[1..]);
      assert line[..1 + r.taken] == [line[0]] + line[1..][..r.taken];
    }
  }

  // Whatever has been read can be completed to an expression.
  lemma {:induction false} Completes(p: Partial) returns (e: Expr, rest: seq<Token>)
    ensures Print(e) == Yield(p) + rest
  {
    match p
    case Nothing =>
      e, rest := Const(0), [Num(0)];
    case Whole(x) =>
      e, rest := x, [];
    case Open(q) =>
      var x, r := Completes(q);
      e, rest := Paren(x), r + [RPAREN];
    case Operand(l, op, q) =>
      var x, r := Completes(q);
      e, rest := Bin(op, l, x), r + [RPAREN];
  }

  // A token that does not fit cannot follow in any text that starts with an expression,
  // unless an expression has just been completed.
  lemma {:induction false} NoFit(p: Partial, t: Token, more: seq<Token>, e: Expr, x: seq<Token>)
    requires Push(p, t).None? && !p.Whole?
    requires Yield(p) + ([t] + more) == Spell(e, x)
    ensures false
    decreases p, 0
  {
    SpellStarts(e, x);
    match p
    case Nothing =>
      assert false;
    case Open(q) =>
      var tail := Yield(q) + ([t] + more);
      assert Yield(p) + ([t] + more) == [LPAREN] + tail;
      assert ([LPAREN] + tail)[0] == LPAREN;
      var first, rest := if e.Paren? then e.inner else e.left, AfterFirst(e, x);
      SameTail(LPAREN, LPAREN, tail, Spell(first, rest));
      if q.Whole? {
        WholeThen(q.e, [t] + more, first, rest);
        if e.Paren? {
          SameTail(t, RPAREN, more, x);
        } else {
          SameTail(t, OpToken(e.op), more, Spell(e.right, [RPAREN] + x));
        }
        assert false;
      } else {
        NoFit(q, t, more, first, rest);
      }
    case Operand(l, op, q) =>
      var tail := [OpToken(op)] + (Yield(q) + ([t] + more));
      assert Yield(p) + ([t] + more) == [LPAREN] + (Print(l) + tail);
      assert ([LPAREN] + (Print(l) + tail))[0] == LPAREN;
      var first, rest := if e.Paren? then e.inner else e.left, AfterFirst(e, x);
      SameTail(LPAREN, LPAREN, Print(l) + tail, Spell(first, rest));
      WholeThen(l, tail, first, rest);
      assert tail[0] == rest[0];
      SameTail(OpToken(op), OpToken(e.op), Yield(q) + ([t] + more), Spell(e.right, [RPAREN] + x));
      NoFitRight(q, t, more, e.right, x);
  }

  lemma {:induction false} NoFitRight(q: Partial, t: Token, more: seq<Token>, e: Expr, x: seq<Token>)
    requires if q.Whole? then t != RPAREN else Push(q, t).None?
    requires Yield(q) + ([t] + more) == Spell(e, [RPAREN] + x)
    ensures false
    decreases q, 1
  {
    if q.Whole? {
      WholeThen(q.e, [t] + more, e, [RPAREN] + x);
      SameTail(t, RPAREN, more, x);
      assert false;
    } else {
      NoFit(q, t, more, e, [RPAREN] + x);
    }
  }

  // What follows the first subexpression of a parenthesised expression.
  function AfterFirst(e: Expr, x: seq<Token>): seq<Token>
    requires !e.Const?
  {
    if e.Paren? then [RPAREN] + x else [OpToken(e.op)] + Spell(e.right, [RPAREN] + x)
  }

  lemma WholeThen(a: Expr, x: seq<Token>, b: Expr, y: seq<Token>)
    requires Print(a) + x == Spell(b, y)
    ensures a == b && x == y
  {
    SpellIsPrint(a, x);
    UniquelyDecodable(a, x, b, y);
  }

  lemma {:induction false} ReadStops(p: Partial, line: seq<Token>)
    ensures var r := Read(p, line);
            r.taken < |line| ==> Push(r.partial, line[r.taken]).None?
    decreases line
  {
    if line != [] && Push(p, line[0]).Some? {
      ReadStops(Push(p, line[0]).value, line[1..]);
    }
  }

  // An unfinished expression is not an expression.
  lemma {:induction false} Unfinished(p: Partial, e: Expr, x: seq<Token>)
    requires Yield(p) == Spell(e, x) && !p.Whole?
    ensures false
  {
    SpellStarts(e, x);
    match p
    case Nothing => assert false;
    case Open(q) =>
      var first, rest := if e.Paren? then e.inner else e.left, AfterFirst(e, x);
      SameTail(LPAREN, LPAREN, Yield(q), Spell(first, rest));
      if q.Whole? {
        WholeThen(q.e, [], first, rest);
        assert false;
      } else {
        Unfinished(q, first, rest);
      }
    case Operand(l, op, q) =>
      var tail := [OpToken(op)] + Yield(q);
      assert Yield(p) == [LPAREN] + (Print(l) + tail);
      var first, rest := if e.Paren? then e.inner else e.left, AfterFirst(e, x);
      SameTail(LPAREN, LPAREN, Print(l) + tail, Spell(first, rest));
      WholeThen(l, tail, first, rest);
      assert tail[0] == rest[0];
      SameTail(OpToken(op), OpToken(e.op), Yield(q), Spell(e.right, [RPAREN] + x));
      if q.Whole? {
        WholeThen(q.e, [], e.right, [RPAREN] + x);
        assert false;
      } else {
        Unfinished(q, e.right, [RPAREN] + x);
      }
  }

  lemma StopsBefore(line: seq<Token>)
    requires Read(Nothing, line).taken < |line|
    ensures !Viable(line[..Read(Nothing, line).taken + 1])
  {
    hide Push, Print, Read, Spell;
    var r := Read(Nothing, line);
    var t := line[r.taken];
    ReadIsViable(line);
    ReadStops(Nothing, line);
    if Viable(line[..r.taken + 1]) {
      var e, rest :| Print(e) == line[..r.taken + 1] + rest;
      SpellIsPrint(e, []);
      assert line[..r.taken + 1] + rest == line[..r.taken] + ([t] + rest);
      CannotFollow(r.partial, t, rest, e);
    }
  }

  lemma CannotFollow(p: Partial, t: Token, more: seq<Token>, e: Expr)
    requires Push(p, t).None? && Yield(p) + ([t] + more) == Spell(e, [])
    ensures false
  {
    if p.Whole? {
      WholeThen(p.e, [t] + more, e, []);
      assert false;
    } else {
      NoFit(p, t, more, e, []);
    }
  }

  // Reading stops exactly at the end of the longest viable prefix, and a line is well formed
  // exactly when all of it is read and completes an expression.
  lemma ReadsViablePrefix(line: seq<Token>)
    ensures var r := Read(Nothing, line);
            && r.taken == ViableLength(line)
            && (IsPrint(line) <==> r.taken == |line| && r.partial.Whole?)
            && (IsPrint(line) ==> Print(r.partial.e) == line)
  {
    hide Push, Print, ViableLength;
    var r := Read(Nothing, line);
    ReadIsViable(line);
    if r.taken < |line| {
      StopsBefore(line);
    }
    ViableLengthIs(line, r.taken);
    assert line[..|line|] == line;
    if IsPrint(line) {
      PrintIsRead(line);
    }
  }

  lemma ReadIsViable(line: seq<Token>)
    ensures var r := Read(Nothing, line);
            && Viable(line[..r.taken])
            && Yield(r.partial) == line[..r.taken]
  {
    hide Push, Print, Read;
    var r := Read(Nothing, line);
    ReadYields(Nothing, line);
    assert Yield(r.partial) == line[..r.taken];
    var e, rest := Completes(r.partial);
  }

  lemma PrintIsRead(line: seq<Token>)
    requires IsPrint(line)
    ensures var r := Read(Nothing, line);
            r.taken == |line| && r.partial.Whole? && Print(r.partial.e) == line
  {
    hide Push, Print, Read, Spell;
    var e :| Print(e) == line;
    SpellIsPrint(e, []);
    assert Print(e) == line + [];
    var r := Read(Nothing, line);
    ReadIsViable(line);
    if r.taken < |line| {
      PrefixOfViable(line, r.taken + 1);
      StopsBefore(line);
    }
    assert line[..|line|] == line;
    if !r.partial.Whole? {
      assert Yield(r.partial) == Spell(e, []);
      Unfinished(r.partial, e, []);
    }
  }
}
