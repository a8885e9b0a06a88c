/** A reference grammar for the statements the builder emits, AND binding tighter than OR. */
module SqlGrammar {
  import opened Core
  import opened SqlText
  import opened Conditions

  // ---- Syntax trees ----------------------------------------------------------------------

  /** A WHERE expression; `param` is the number of the placeholder compared with. */
  datatype Expr =
    | Cmp(col: string, op: CmpOp, param: nat)
    | Conj(left: Expr, right: Expr)
    | Disj(left: Expr, right: Expr)

  datatype Parsed<T> = Fail | Got(value: T, rest: seq<Token>)

  // ---- Expressions -----------------------------------------------------------------------

  function ParseOr(ts: seq<Token>): (r: Parsed<Expr>)
    ensures r.Got? ==> |r.rest| < |ts|
    decreases |ts|, 3
  {
    var a := ParseAnd(ts);
    if a.Fail? then Fail else OrTail(a.value, a.rest)
  }

  function OrTail(e: Expr, ts: seq<Token>): (r: Parsed<Expr>)
    ensures r.Got? ==> |r.rest| <= |ts|
    decreases |ts|, 0
  {
    if ts != [] && ts[0] == Word("OR") then
      var b := ParseAnd(ts[1..]);
      if b.Fail? then Fail else OrTail(Disj(e, b.value), b.rest)
    else Got(e, ts)
  }

  function ParseAnd(ts: seq<Token>): (r: Parsed<Expr>)
    ensures r.Got? ==> |r.rest| < |ts|
    decreases |ts|, 2
  {
    var a := ParsePrimary(ts);
    if a.Fail? then Fail else AndTail(a.value, a.rest)
  }

  function AndTail(e: Expr, ts: seq<Token>): (r: Parsed<Expr>)
    ensures r.Got? ==> |r.rest| <= |ts|
    decreases |ts|, 0
  {
    if ts != [] && ts[0] == Word("AND") then
      var b := ParsePrimary(ts[1..]);
      if b.Fail? then Fail else AndTail(Conj(e, b.value), b.rest)
    else Got(e, ts)
  }

  /** A parenthesised expression or a comparison of a column with a placeholder. */
  function ParsePrimary(ts: seq<Token>): (r: Parsed<Expr>)
    ensures r.Got? ==> |r.rest| < |ts|
    decreases |ts|, 1
  {
    if ts != [] && ts[0] == Symbol('(') then
      var a := ParseOr(ts[1..]);
      if a.Got? && a.rest != [] && a.rest[0] == Symbol(')') then Got(a.value, a.rest[1..]) else Fail
    else if |ts| >= 3 && ts[0].Name? && ts[1].Compare? && ts[2].Param? then
      Got(Cmp(ts[0].name, ts[1].op, ts[2].k), ts[3..])
    else Fail
  }

  // ---- Conditions as the builder prints them ---------------------------------------------

  function CondPieces(c: Condition): seq<Piece> {
    match c
    case Leaf(col, op, _) => [Id(col), Space, Op(op), Space, Hole]
    case And(l, r) => Binary(CondPieces(l), "AND", CondPieces(r))
    case Or(l, r) => Binary(CondPieces(l), "OR", CondPieces(r))
    case All => []
  }

  function Bracket(a: seq<Token>, word: string, b: seq<Token>): seq<Token> {
    [Symbol('(')] + a + [Word(word)] + b + [Symbol(')')]
  }

  function CondTokens(n: nat, c: Condition): seq<Token>
    decreases c
  {
    match c
    case Leaf(col, op, _) => [Name(col), Compare(op), Param(n + 1)]
    case And(l, r) => Bracket(CondTokens(n, l), "AND", CondTokens(n + |Leaves(l)|, r))
    case Or(l, r) => Bracket(CondTokens(n, l), "OR", CondTokens(n + |Leaves(l)|, r))
    case All => []
  }

  /** The tree itself, its leaves numbered left to right from `n + 1`. */
  function CondExpr(n: nat, c: Condition): Expr
    requires AllFree(c)
    decreases c
  {
    match c
    case Leaf(col, op, _) => Cmp(col, op, n + 1)
    case And(l, r) => Conj(CondExpr(n, l), CondExpr(n + |Leaves(l)|, r))
    case Or(l, r) => Disj(CondExpr(n, l), CondExpr(n + |Leaves(l)|, r))
  }

  /** The pieces of a parenthesised pair of operands. */
  function Binary(a: seq<Piece>, word: string, b: seq<Piece>): seq<Piece> {
    [Sy('(')] + a + [Space, Kw(word), Space] + b + [Sy(')')]
  }

  lemma {:induction false} ConnectiveTokens(n: nat, word: string)
    ensures var mid := [Space, Kw(word), Space]; Holes(mid) == 0 && Tokens(n, mid) == [Word(word)]
    ensures PieceOk(Kw(word)) ==> WellSpaced([Space, Kw(word), Space])
  {
    var mid := [Space, Kw(word), Space];
    assert mid[1..] == [Kw(word), Space] && mid[1..][1..] == [Space];
    assert Tokens(n, [Space]) == [] && Holes([Space]) == 0;
    assert Tokens(n, mid[1..]) == [Word(word)] + Tokens(n, [Space]) && Holes(mid[1..]) == 0;
    assert Tokens(n, mid) == [] + Tokens(n, mid[1..]) && Holes(mid) == 0;
  }

  lemma {:induction false} BinaryTokens(n: nat, a: seq<Piece>, word: string, b: seq<Piece>)
    ensures Holes(Binary(a, word, b)) == Holes(a) + Holes(b)
    ensures Tokens(n, Binary(a, word, b)) == Bracket(Tokens(n, a), word, Tokens(n + Holes(a), b))
  {
    var open, close, mid := [Sy('(')], [Sy(')')], [Space, Kw(word), Space];
    var m := n + Holes(a);
    assert Holes(open) == 0 && Tokens(n, open) == [Symbol('(')];
    assert Holes(close) == 0 && Tokens(m + Holes(b), close) == [Symbol(')')];
    ConnectiveTokens(m, word);
    hide Holes, Tokens;
    HolesJoin(open, a);
    HolesJoin(open + a, mid);
    HolesJoin(open + a + mid, b);
    HolesJoin(open + a + mid + b, close);
    TokensJoin(n, open, a);
    TokensJoin(n, open + a, mid);
    TokensJoin(n, open + a + mid, b);
    TokensJoin(n, open + a + mid + b, close);
  }

  lemma {:induction false} BinarySpaced(a: seq<Piece>, word: string, b: seq<Piece>)
    requires WellSpaced(a) && WellSpaced(b) && PieceOk(Kw(word))
    ensures WellSpaced(Binary(a, word, b))
  {
    var open, close, mid := [Sy('(')], [Sy(')')], [Space, Kw(word), Space];
    assert WellSpaced(open) && WellSpaced(close);
    ConnectiveTokens(0, word);
    WellSpacedJoin(open, a);
    WellSpacedJoin(open + a, mid);
    WellSpacedJoin(open + a + mid, b);
    WellSpacedJoin(open + a + mid + b, close);
  }

  ghost predicate PlainColumns(c: Condition) {
    match c
    case Leaf(col, _, _) => Plain(col)
    case And(l, r) => PlainColumns(l) && PlainColumns(r)
    case Or(l, r) => PlainColumns(l) && PlainColumns(r)
    case All => true
  }

  /** `c` joins `l` and `r` by the connective spelled `word`. */
  predicate Joins(c: Condition, l: Condition, word: string, r: Condition) {
    (c == And(l, r) && word == "AND") || (c == Or(l, r) && word == "OR")
  }

  lemma {:induction false} JoinedTokens(n: nat, c: Condition, l: Condition, word: string, r: Condition)
    requires Joins(c, l, word, r)
    requires Holes(CondPieces(l)) == |Leaves(l)| && Tokens(n, CondPieces(l)) == CondTokens(n, l)
    requires Holes(CondPieces(r)) == |Leaves(r)|
    requires Tokens(n + |Leaves(l)|, CondPieces(r)) == CondTokens(n + |Leaves(l)|, r)
    ensures Holes(CondPieces(c)) == |Leaves(c)| && Tokens(n, CondPieces(c)) == CondTokens(n, c)
  {
    hide Holes, Tokens, Binary, Bracket;
    BinaryTokens(n, CondPieces(l), word, CondPieces(r));
    assert CondPieces(c) == Binary(CondPieces(l), word, CondPieces(r));
    assert CondTokens(n, c) == Bracket(CondTokens(n, l), word, CondTokens(n + |Leaves(l)|, r));
  }

  lemma {:induction false} AtomTokens(n: nat, c: Condition)
    requires c.Leaf? || c.All?
    ensures Holes(CondPieces(c)) == |Leaves(c)| && Tokens(n, CondPieces(c)) == CondTokens(n, c)
  {
    if c.Leaf? {
      hide Holes, Tokens;
      LeafTokens(n, c.col, c.op);
    }
  }

  /** The printed condition has one placeholder per leaf and lexes to the condition's tokens. */
  lemma {:induction false} CondPiecesTokens(n: nat, c: Condition)
    ensures Holes(CondPieces(c)) == |Leaves(c)|
    ensures Tokens(n, CondPieces(c)) == CondTokens(n, c)
    decreases c
  {
    if c.Leaf? || c.All? {
      AtomTokens(n, c);
    } else {
      hide Holes, Tokens, CondPieces, CondTokens, Leaves;
      CondPiecesTokens(n, c.left);
      CondPiecesTokens(n + |Leaves(c.left)|, c.right);
      JoinedTokens(n, c, c.left, if c.And? then "AND" else "OR", c.right);
    }
  }

  lemma {:induction false} CondSpaced(c: Condition)
    requires PlainColumns(c)
    ensures WellSpaced(CondPieces(c))
  {
    match c
    case All =>
    case Leaf(col, op, v) => LeafTokens(0, col, op);
    case And(l, r) =>
      hide WellSpaced, Binary;
      CondSpaced(l);
      CondSpaced(r);
      BinarySpaced(CondPieces(l), "AND", CondPieces(r));
    case Or(l, r) =>
      hide WellSpaced, Binary;
      CondSpaced(l);
      CondSpaced(r);
      BinarySpaced(CondPieces(l), "OR", CondPieces(r));
  }

  lemma {:induction false} LeafTokens(n: nat, col: string, op: CmpOp)
    ensures var ps := [Id(col), Space, Op(op), Space, Hole];
            && Holes(ps) == 1 && Tokens(n, ps) == [Name(col), Compare(op), Param(n + 1)]
            && (Plain(col) ==> WellSpaced(ps))
  {
    var ps := [Id(col), Space, Op(op), Space, Hole];
    var p1, p2, p3 := [Space, Op(op), Space, Hole], [Op(op), Space, Hole], [Space, Hole];
    assert ps[1..] == p1 && p1[1..] == p2 && p2[1..] == p3 && p3[1..] == [Hole] && [Hole][1..] == [];
    assert Tokens(n, [Hole]) == [Param(n + 1)] && Holes([Hole]) == 1;
    assert Tokens(n, p3) == [] + [Param(n + 1)] && Holes(p3) == 1;
    assert Tokens(n, p2) == [Compare(op)] + [Param(n + 1)] && Holes(p2) == 1;
    assert Tokens(n, p1) == [] + Tokens(n, p2) && Holes(p1) == 1;
    assert Tokens(n, ps) == [Name(col)] + Tokens(n, p1);
  }

  // ---- Parsing what was printed ----------------------------------------------------------

  /** Tokens after which a complete operand must have ended. */
  predicate Closing(rest: seq<Token>) {
    rest == [] || rest[0] == Symbol(')') || rest[0] == Word("AND") || rest[0] == Word("OR")
  }

  /** An operand that stands before a token other than AND and OR is a whole expression. */
  lemma {:induction false} PrimaryIsOr(ts: seq<Token>, e: Expr, rest: seq<Token>)
    requires ParsePrimary(ts) == Got(e, rest)
    requires rest == [] || (rest[0] != Word("AND") && rest[0] != Word("OR"))
    ensures ParseOr(ts) == Got(e, rest)
  {
    assert AndTail(e, rest) == Got(e, rest);
    assert ParseAnd(ts) == Got(e, rest);
    assert OrTail(e, rest) == Got(e, rest);
  }

  lemma {:induction false} ParseConj(ts: seq<Token>, a: Expr, tail: seq<Token>, b: Expr, rest: seq<Token>)
    requires ParsePrimary(ts) == Got(a, [Word("AND")] + tail) && ParsePrimary(tail) == Got(b, [Symbol(')')] + rest)
    ensures ParseOr(ts) == Got(Conj(a, b), [Symbol(')')] + rest)
  {
    var close := [Symbol(')')] + rest;
    assert ([Word("AND")] + tail)[1..] == tail;
    assert AndTail(Conj(a, b), close) == Got(Conj(a, b), close);
    assert AndTail(a, [Word("AND")] + tail) == AndTail(Conj(a, b), close);
    assert ParseAnd(ts) == Got(Conj(a, b), close);
    assert OrTail(Conj(a, b), close) == Got(Conj(a, b), close);
  }

  lemma {:induction false} ParseDisj(ts: seq<Token>, a: Expr, tail: seq<Token>, b: Expr, rest: seq<Token>)
    requires ParsePrimary(ts) == Got(a, [Word("OR")] + tail) && ParsePrimary(tail) == Got(b, [Symbol(')')] + rest)
    ensures ParseOr(ts) == Got(Disj(a, b), [Symbol(')')] + rest)
  {
    var close := [Symbol(')')] + rest;
    assert ([Word("OR")] + tail)[1..] == tail;
    assert AndTail(a, [Word("OR")] + tail) == Got(a, [Word("OR")] + tail);
    assert AndTail(b, close) == Got(b, close);
    assert ParseAnd(ts) == Got(a, [Word("OR")] + tail) && ParseAnd(tail) == Got(b, close);
    assert OrTail(Disj(a, b), close) == Got(Disj(a, b), close);
  }

  /** A bracketed token list, taken apart from the left. */
  lemma {:induction false} BracketSplit(a: seq<Token>, word: string, b: seq<Token>, rest: seq<Token>)
    ensures var ts := Bracket(a, word, b) + rest;
            && ts != [] && ts[0] == Symbol('(')
            && ts[1..] == a + ([Word(word)] + (b + ([Symbol(')')] + rest)))
  {
  }

  lemma {:induction false} ParseParenthesised(ts: seq<Token>, e: Expr, rest: seq<Token>)
    requires ts != [] && ts[0] == Symbol('(') && ParseOr(ts[1..]) == Got(e, [Symbol(')')] + rest)
    ensures ParsePrimary(ts) == Got(e, rest)
  {
    hide ParseOr;
    assert ([Symbol(')')] + rest)[1..] == rest;
  }

  lemma {:induction false} ParseBracket(
    a: seq<Token>, x: Expr, word: string, b: seq<Token>, y: Expr, rest: seq<Token>)
    requires word == "AND" || word == "OR"
    requires var tail := b + ([Symbol(')')] + rest);
             && ParsePrimary(a + ([Word(word)] + tail)) == Got(x, [Word(word)] + tail)
             && ParsePrimary(tail) == Got(y, [Symbol(')')] + rest)
    ensures ParsePrimary(Bracket(a, word, b) + rest) == Got(if word == "AND" then Conj(x, y) else Disj(x, y), rest)
  {
    hide ParsePrimary, ParseOr, Bracket;
    var ts := Bracket(a, word, b) + rest;
    BracketSplit(a, word, b, rest);
    if word == "AND" {
      ParseConj(ts[1..], x, b + ([Symbol(')')] + rest), y, rest);
      ParseParenthesised(ts, Conj(x, y), rest);
    } else {
      ParseDisj(ts[1..], x, b + ([Symbol(')')] + rest), y, rest);
      ParseParenthesised(ts, Disj(x, y), rest);
    }
  }

  /** Parsing a printed condition gives back the condition, whatever follows it. */
  lemma {:induction false} ParseCond(n: nat, c: Condition, rest: seq<Token>)
    requires AllFree(c)
    ensures ParsePrimary(CondTokens(n, c) + rest) == Got(CondExpr(n, c), rest)
    decreases c
  {
    if c.Leaf? {
      assert (CondTokens(n, c) + rest)[3..] == rest;
    } else {
      hide ParsePrimary, Leaves, Bracket;
      var word, m := if c.And? then "AND" else "OR", n + |Leaves(c.left)|;
      var tail := CondTokens(m, c.right) + ([Symbol(')')] + rest);
      ParseCond(n, c.left, [Word(word)] + tail);
      ParseCond(m, c.right, [Symbol(')')] + rest);
      ParseBracket(CondTokens(n, c.left), CondExpr(n, c.left), word, CondTokens(m, c.right), CondExpr(m, c.right),
          rest);
    }
  }

  lemma {:induction false} FailInside(ts: seq<Token>)
    requires ts != [] && ts[0] == Symbol('(') && ParseOr(ts[1..]).Fail?
    ensures ParsePrimary(ts).Fail?
  {
  }

  /** A connective whose right operand does not parse makes the whole expression fail. */
  lemma {:induction false} FailRight(ts: seq<Token>, a: Expr, word: string, tail: seq<Token>)
    requires word == "AND" || word == "OR"
    requires ParsePrimary(ts) == Got(a, [Word(word)] + tail) && ParsePrimary(tail).Fail?
    ensures ParseOr(ts).Fail?
  {
    var more := [Word(word)] + tail;
    assert more[1..] == tail;
    assert ParseAnd(tail).Fail?;
    if word == "AND" {
      assert AndTail(a, more).Fail?;
    } else {
      assert AndTail(a, more) == Got(a, more) && OrTail(a, more).Fail?;
    }
  }

  /** A match-all node below a connective prints nothing, and the text no longer parses. */
  lemma {:induction false} ParseCondFails(n: nat, c: Condition, rest: seq<Token>)
    requires !AllFree(c) && Closing(rest)
    ensures ParsePrimary(CondTokens(n, c) + rest).Fail?
    decreases c
  {
    if c.All? {
      assert CondTokens(n, c) + rest == rest;
    } else {
      ParseJoinedFails(n, c, c.left, if c.And? then "AND" else "OR", c.right, rest);
    }
  }

  lemma {:induction false} ParseJoinedFails(
    n: nat, c: Condition, l: Condition, word: string, r: Condition, rest: seq<Token>)
    requires Joins(c, l, word, r) && !AllFree(c)
    ensures ParsePrimary(CondTokens(n, c) + rest).Fail?
    decreases c, 0
  {
    var m := n + |Leaves(l)|;
    var ts := CondTokens(n, c) + rest;
    var tail := CondTokens(m, r) + ([Symbol(')')] + rest);
    BracketSplit(CondTokens(n, l), word, CondTokens(m, r), rest);
    if AllFree(l) {
      ParseCond(n, l, [Word(word)] + tail);
      ParseCondFails(m, r, [Symbol(')')] + rest);
      hide ParseOr, ParsePrimary, Bracket;
      FailRight(ts[1..], CondExpr(n, l), word, tail);
    } else {
      ParseCondFails(n, l, [Word(word)] + tail);
      assert ParseAnd(ts[1..]).Fail?;
    }
    hide ParseOr, ParsePrimary, Bracket;
    FailInside(ts);
  }
}
