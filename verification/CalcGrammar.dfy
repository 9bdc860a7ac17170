/** Tokens, expressions and the language of the calculator: lines holding one fully
    parenthesised expression each, or anything else. */
module CalcGrammar {

  // What yylex can return: a character code, or a constant with its value in yylval.
  // The first code that is zero or negative (end of input, or a character above 127) ends
  // the stream.
  type CharCode = c: int | 0 < c < 256 witness 10

  datatype Token = Num(value: int) | Char(code: CharCode)

  const NEWLINE := Char(10)
  const LPAREN := Char(40)
  const RPAREN := Char(41)

  datatype Operator = Add | Sub | Mul

  datatype Expr =
    | Const(n: int)
    | Paren(inner: Expr)
    | Bin(op: Operator, left: Expr, right: Expr)

  function OpToken(op: Operator): Token {
    match op
    case Add => Char(43)
    case Sub => Char(45)
    case Mul => Char(42)
  }

  function Apply(op: Operator, x: int, y: int): int {
    match op
    case Add => x + y
    case Sub => x - y
    case Mul => x * y
  }

  function Value(e: Expr): int {
    match e
    case Const(n) => n
    case Paren(x) => Value(x)
    case Bin(op, l, r) => Apply(op, Value(l), Value(r))
  }

  // The one way to write an expression.
  function Print(e: Expr): (ts: seq<Token>)
    ensures |ts| >= 1
  {
    match e
    case Const(n) => [Num(n)]
    case Paren(x) => [LPAREN] + Print(x) + [RPAREN]
    case Bin(op, l, r) => [LPAREN] + Print(l) + [OpToken(op)] + Print(r) + [RPAREN]
  }

  function Max(a: int, b: int): int {
    if a < b then b else a
  }

  ghost predicate IsPrint(line: seq<Token>) {
    exists e :: Print(e) == line
  }

  // The tokens read so far can still be completed to a well-formed line.
  ghost predicate Viable(prefix: seq<Token>) {
    exists e, rest :: Print(e) == prefix + rest
  }

  // The length of the longest viable prefix.
  ghost function ViableLength(line: seq<Token>): (k: nat)
    ensures k <= |line|
  {
    if line == [] || Viable(line) then |line| else ViableLength(line[..|line| - 1])
  }

  lemma PrefixOfViable(line: seq<Token>, k: nat)
    requires k <= |line| && Viable(line)
    ensures Viable(line[..k])
  {
    var e, rest :| Print(e) == line + rest;
    assert line + rest == line[..k] + (line[k..] + rest);
  }

  lemma {:induction false} ViableLengthIs(line: seq<Token>, k: nat)
    requires k <= |line|
    requires k == 0 || Viable(line[..k])
    requires k < |line| ==> !Viable(line[..k + 1])
    ensures ViableLength(line) == k
  {
    if k == |line| {
      assert line[..k] == line;
    } else {
      if Viable(line) {
        PrefixOfViable(line, k + 1);
      }
      var shorter := line[..|line| - 1];
      assert shorter[..k] == line[..k];
      assert k < |shorter| ==> shorter[..k + 1] == line[..k + 1];
      ViableLengthIs(shorter, k);
    }
  }

  // The tokens of an expression in front of a text.
  function Spell(e: Expr, rest: seq<Token>): (ts: seq<Token>)
    ensures ts != []
  {
    match e
    case Const(n) => [Num(n)] + rest
    case Paren(x) => [LPAREN] + Spell(x, [RPAREN] + rest)
    case Bin(op, l, r) => [LPAREN] + Spell(l, [OpToken(op)] + Spell(r, [RPAREN] + rest))
  }

  lemma {:induction false} SpellIsPrint(e: Expr, rest: seq<Token>)
    ensures Spell(e, rest) == Print(e) + rest
  {
    match e
    case Const(n) =>
    case Paren(x) =>
      SpellIsPrint(x, [RPAREN] + rest);
    case Bin(op, l, r) =>
      SpellIsPrint(r, [RPAREN] + rest);
      SpellIsPrint(l, [OpToken(op)] + Spell(r, [RPAREN] + rest));
  }

  lemma SameTail(t: Token, u: Token, x: seq<Token>, y: seq<Token>)
    requires [t] + x == [u] + y
    ensures t == u && x == y
  {
    assert ([t] + x)[0] == ([u] + y)[0];
    assert x == ([t] + x)[1..] == ([u] + y)[1..] == y;
  }

  lemma SpellStarts(e: Expr, rest: seq<Token>)
    ensures Spell(e, rest)[0] == if e.Const? then Num(e.n) else LPAREN
  {
  }

  // No printed expression is a proper prefix of another: a text starts with at most one.
  lemma {:induction false} UniquelyDecodable(a: Expr, x: seq<Token>, b: Expr, y: seq<Token>)
    requires Spell(a, x) == Spell(b, y)
    ensures a == b && x == y
    decreases a, 0
  {
    SpellStarts(a, x);
    SpellStarts(b, y);
    match a
    case Const(n) =>
      SameTail(Num(n), Num(b.n), x, y);
    case Paren(p) =>
      DecodeAfterParen(p, [RPAREN] + x, b, y);
      if b.Bin? {
        SameTail(RPAREN, OpToken(b.op), x, Spell(b.right, [RPAREN] + y));
        assert false;
      }
      SameTail(RPAREN, RPAREN, x, y);
    case Bin(op, l, r) =>
      DecodeAfterParen(l, [OpToken(op)] + Spell(r, [RPAREN] + x), b, y);
      if b.Paren? {
        SameTail(OpToken(op), RPAREN, Spell(r, [RPAREN] + x), y);
        assert false;
      }
      SameTail(OpToken(op), OpToken(b.op), Spell(r, [RPAREN] + x), Spell(b.right, [RPAREN] + y));
      UniquelyDecodable(r, [RPAREN] + x, b.right, [RPAREN] + y);
      SameTail(RPAREN, RPAREN, x, y);
  }

  // The step of the previous lemma past an opening parenthesis.
  lemma {:induction false} DecodeAfterParen(p: Expr, tail: seq<Token>, b: Expr, y: seq<Token>)
    requires [LPAREN] + Spell(p, tail) == Spell(b, y) && !b.Const?
    ensures b.Paren? ==> p == b.inner && tail == [RPAREN] + y
    ensures b.Bin? ==> p == b.left && tail == [OpToken(b.op)] + Spell(b.right, [RPAREN] + y)
    decreases p, 1
  {
    if b.Paren? {
      SameTail(LPAREN, LPAREN, Spell(p, tail), Spell(b.inner, [RPAREN] + y));
      UniquelyDecodable(p, tail, b.inner, [RPAREN] + y);
    } else {
      var btail := [OpToken(b.op)] + Spell(b.right, [RPAREN] + y);
      SameTail(LPAREN, LPAREN, Spell(p, tail), Spell(b.left, btail));
      UniquelyDecodable(p, tail, b.left, btail);
    }
  }

  lemma PrintIsInjective(a: Expr, b: Expr)
    requires Print(a) == Print(b)
    ensures a == b
  {
    SpellIsPrint(a, []);
    SpellIsPrint(b, []);
    UniquelyDecodable(a, [], b, []);
  }

  // Printed expressions hold no newline.
  lemma {:induction false} NoNewline(e: Expr)
    ensures NEWLINE !in Print(e)
  {
    match e
    case Const(_) =>
    case Paren(x) => NoNewline(x);
    case Bin(_, l, r) => NoNewline(l); NoNewline(r);
  }
}
