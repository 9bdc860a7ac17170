/** The generated constants of the calculator's LALR parser, and the two lookups
    that yyparse makes in them: what to do in a state on a symbol, and where to go
    after a reduction. */
module YyTables {

  const YYFINAL := 2
  const YYLAST := 19
  const YYNTOKENS := 10
  const YYUNDEFTOK := 2
  const YYTERROR := 1
  const YYPACT_NINF := -6
  const YYINITDEPTH := 200
  const YYMAXDEPTH := 10000

  const YYPACT: seq<int> :=
    [-6, 9, -6, -3, -6, 8, 11, -6, -4, -6,
     -6, 8, 8, 8, 10, 12, 13, -6, -6, -6]

  const YYDEFACT: seq<nat> :=
    [2, 0, 1, 0, 9, 0, 0, 4, 0, 3,
     5, 0, 0, 0, 0, 0, 0, 6, 7, 8]

  const YYPGOTO: seq<int> := [-6, -6, -5]

  const YYDEFGOTO: seq<int> := [-1, 1, 6]

  const YYTABLE: seq<nat> :=
    [8, 7, 10, 11, 12, 13, 14, 15, 16, 2,
     3, 4, 4, 5, 5, 9, 17, 0, 18, 19]

  const YYCHECK: seq<int> :=
    [5, 4, 6, 7, 8, 9, 11, 12, 13, 0,
     1, 3, 3, 5, 5, 4, 6, -1, 6, 6]

  const YYR1: seq<nat> := [0, 10, 11, 11, 11, 12, 12, 12, 12, 12]

  const YYR2: seq<nat> := [0, 2, 0, 3, 3, 3, 5, 5, 5, 1]

  // The non-trivial entries of yytranslate; every other index up to 258 maps to
  // YYUNDEFTOK, and so does every larger code.
  function Translate(code: int): (sym: nat)
    requires 0 <= code
    ensures sym < YYNTOKENS
  {
    match code
    case 0 => 0
    case 10 => 4
    case 40 => 5
    case 41 => 6
    case 42 => 9
    case 43 => 7
    case 45 => 8
    case 256 => 1
    case 258 => 3
    case _ => YYUNDEFTOK
  }

  datatype Action = Shift(state: nat) | Reduce(rule: nat) | Error

  // yydefault
  function DefaultAction(state: nat): Action
    requires state < |YYDEFACT|
  {
    if YYDEFACT[state] == 0 then Error else Reduce(YYDEFACT[state])
  }

  // The rule that a table entry of 0 or less stands for.
  function Negated(entry: int): nat {
    if entry < 0 then -entry else 0
  }

  // yybackup, from the lookup in yypact to the shift, reduction or error
  function ActionOf(state: nat, sym: nat): Action
    requires state < |YYPACT|
    requires sym < YYNTOKENS
  {
    if YYPACT[state] == YYPACT_NINF then
      DefaultAction(state)
    else
      var n := YYPACT[state] + sym;
      if n < 0 || YYLAST < n || YYCHECK[n] != sym then DefaultAction(state)
      else if YYTABLE[n] <= 0 then Reduce(Negated(YYTABLE[n]))
      else Shift(YYTABLE[n])
  }

  // The state entered after reducing by `rule` with `top` uncovered on the stack.
  function GotoOf(rule: nat, top: nat): int
    requires 1 <= rule < |YYR1|
    requires top < |YYPACT|
  {
    var nt := YYR1[rule] - YYNTOKENS;
    var n := YYPGOTO[nt] + top;
    if 0 <= n <= YYLAST && YYCHECK[n] == top then YYTABLE[n] else YYDEFGOTO[nt]
  }

  // The state entered from `state` by shifting the error token, if it has such a shift.
  function ErrorShift(state: nat): (next: nat)
    requires state < |YYPACT|
  {
    var n := YYPACT[state] + YYTERROR;
    if YYPACT[state] != YYPACT_NINF && 0 <= n <= YYLAST && YYCHECK[n] == YYTERROR
    then YYTABLE[n]
    else 0
  }

  // The edges of the automaton, read off the tables: t is entered from s by shifting
  // some symbol or by a goto on some nonterminal.
  predicate Edge(s: nat, t: nat) {
    match s
    case 0 => t == 1
    case 1 => t == 2 || t == 3 || t == 4 || t == 5 || t == 6
    case 3 => t == 7
    case 5 => t == 4 || t == 5 || t == 8
    case 6 => t == 9
    case 8 => t == 10 || t == 11 || t == 12 || t == 13
    case 11 => t == 4 || t == 5 || t == 14
    case 12 => t == 4 || t == 5 || t == 15
    case 13 => t == 4 || t == 5 || t == 16
    case 14 => t == 17
    case 15 => t == 18
    case 16 => t == 19
    case _ => false
  }

  // States that expect an expression.
  predicate WantsExp(s: nat) {
    s == 1 || s == 5 || s == 11 || s == 12 || s == 13
  }

  // The state entered from s once an expression has been recognised.
  function ExpGoto(s: nat): nat
    requires WantsExp(s)
  {
    if s == 1 then 6 else if s == 5 then 8 else s + 3
  }

  // What the compressed tables say, state by state.
  lemma ActionTable(s: nat, sym: nat)
    requires s < 20 && sym < YYNTOKENS
    ensures s == 0 ==> ActionOf(s, sym) == Reduce(2)
    ensures s == 1 ==>
              ActionOf(s, sym) == (if sym == 0 then Shift(2) else if sym == 1 then Shift(3)
                                   else if sym == 3 then Shift(4) else if sym == 5 then Shift(5) else Error)
    ensures s == 2 ==> ActionOf(s, sym) == Reduce(1)
    ensures s == 3 ==> ActionOf(s, sym) == (if sym == 4 then Shift(7) else Error)
    ensures s == 5 || s == 11 || s == 12 || s == 13 ==>
              ActionOf(s, sym) == (if sym == 3 then Shift(4) else if sym == 5 then Shift(5) else Error)
    ensures s == 6 ==> ActionOf(s, sym) == (if sym == 4 then Shift(9) else Error)
    ensures s == 8 ==>
              ActionOf(s, sym) == (if 6 <= sym then Shift(sym + 4) else Error)
    ensures s == 14 || s == 15 || s == 16 ==>
              ActionOf(s, sym) == (if sym == 6 then Shift(s + 3) else Error)
    ensures EndsRule(s) ==> ActionOf(s, sym) == Reduce(ReductionOf(s))
  {
    hide ActionOf;
    if EndsRule(s) {
      DefaultTable(s, sym);
    } else if s == 5 || 11 <= s <= 13 {
      OperandTable(s, sym);
    } else if 14 <= s <= 16 {
      ClosingTable(s, sym);
    } else {
      LineTable(s, sym);
    }
  }

  lemma LineTable(s: nat, sym: nat)
    requires sym < YYNTOKENS
    requires s < 4 || s == 6 || s == 8
    ensures ActionOf(s, sym)
            == if s == 0 then Reduce(2)
               else if s == 1 then
                 if sym == 0 then Shift(2) else if sym == 1 then Shift(3)
                 else if sym == 3 then Shift(4) else if sym == 5 then Shift(5) else Error
               else if s == 2 then Reduce(1)
               else if s == 3 then if sym == 4 then Shift(7) else Error
               else if s == 6 then if sym == 4 then Shift(9) else Error
               else if 6 <= sym then Shift(sym + 4) else Error
  {
  }

  lemma OperandTable(s: nat, sym: nat)
    requires sym < YYNTOKENS
    requires s == 5 || 11 <= s <= 13
    ensures ActionOf(s, sym) == (if sym == 3 then Shift(4) else if sym == 5 then Shift(5) else Error)
  {
  }

  lemma ClosingTable(s: nat, sym: nat)
    requires sym < YYNTOKENS
    requires 14 <= s <= 16
    ensures ActionOf(s, sym) == (if sym == 6 then Shift(s + 3) else Error)
  {
  }

  // States that end a right-hand side.
  predicate EndsRule(s: nat) {
    s == 4 || s == 7 || s == 9 || s == 10 || 17 <= s < 20
  }

  // The rule reduced, whatever the lookahead, in a state that ends a right-hand side.
  function ReductionOf(s: nat): nat {
    if s == 4 then 9 else if s == 7 then 4 else if s == 9 then 3 else if s == 10 then 5 else if s < 17 then 0 else s - 11
  }

  lemma DefaultTable(s: nat, sym: nat)
    requires EndsRule(s) && sym < YYNTOKENS
    ensures YYPACT[s] == YYPACT_NINF && ActionOf(s, sym) == Reduce(ReductionOf(s))
  {
  }

  lemma GotoTable(s: nat)
    requires s < 20
    ensures WantsExp(s) ==> forall r :: 5 <= r <= 9 ==> GotoOf(r, s) == ExpGoto(s)
    ensures s == 0 ==> forall r :: 2 <= r <= 4 ==> GotoOf(r, s) == 1
    ensures ErrorShift(s) == if s == 1 then 3 else 0
  {
  }

  // `Edge` is exactly the shifts and gotos of the tables.
  lemma EdgesAreTheTables(s: nat, t: nat)
    requires s < 20
    ensures Edge(s, t) <==>
            || (exists sym :: 0 <= sym < YYNTOKENS && ActionOf(s, sym) == Shift(t))
            || (s == 0 && t == GotoOf(2, 0))
            || (WantsExp(s) && t == GotoOf(9, s))
  {
    forall sym | 0 <= sym < YYNTOKENS ensures ActionOf(s, sym) == Shift(t) ==> Edge(s, t) {
      ActionTable(s, sym);
    }
    if Edge(s, t) && !(s == 0 && t == 1) && !(WantsExp(s) && t == ExpGoto(s)) {
      var sym := if t == 2 then 0 else if t == 3 then 1 else if t == 4 then 3 else if t == 5 then 5
                 else if t == 7 || t == 9 then 4 else if 10 <= t <= 13 then t - 4 else 6;
      ActionTable(s, sym);
      assert ActionOf(s, sym) == Shift(t);
    }
    GotoTable(s);
  }
}
