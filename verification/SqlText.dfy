/**
 * SQL text: the pieces the query builder emits, how they are spelled in each dialect,
 * and a lexer that reads any such spelling back.
 */
module SqlText {
  import opened Core

  // ---- Characters ------------------------------------------------------------------------

  predicate IsDigit(c: char) { '0' <= c <= '9' }

  predicate IsAlpha(c: char) { 'a' <= c <= 'z' || 'A' <= c <= 'Z' }

  predicate IsAlnum(c: char) { IsAlpha(c) || IsDigit(c) }

  predicate IsWordChar(c: char) { IsAlnum(c) || c == '_' }

  /** A name made of word characters only: it can hold no quote, no '?' and no '$'. */
  predicate Plain(name: string) {
    name != "" && !IsDigit(name[0]) && forall i :: 0 <= i < |name| ==> IsWordChar(name[i])
  }

  // ---- Decimal numerals ------------------------------------------------------------------

  function Decimal(n: nat): (s: string)
    ensures s != "" && forall i :: 0 <= i < |s| ==> IsDigit(s[i])
  {
    if n < 10 then [('0' as int + n) as char] else Decimal(n / 10) + [('0' as int + n % 10) as char]
  }

  function DigitValue(c: char): (v: nat)
    requires IsDigit(c)
    ensures v < 10
  {
    c as int - '0' as int
  }

  /** The value of a digit string read left to right, starting from `v`. */
  function Numeral(v: nat, s: string): nat
    requires forall i :: 0 <= i < |s| ==> IsDigit(s[i])
    decreases |s|
  {
    if s == "" then v else Numeral(v * 10 + DigitValue(s[0]), s[1..])
  }

  lemma {:induction false} NumeralAppend(v: nat, s: string, c: char)
    requires (forall i :: 0 <= i < |s| ==> IsDigit(s[i])) && IsDigit(c)
    ensures Numeral(v, s + [c]) == Numeral(v, s) * 10 + DigitValue(c)
    decreases |s|
  {
    if s == "" {
      assert (s + [c])[1..] == "";
    } else {
      NumeralAppend(v * 10 + DigitValue(s[0]), s[1..], c);
      assert (s + [c])[1..] == s[1..] + [c];
    }
  }

  /** Printing a number and reading it back gives the number. */
  lemma {:induction false} DecimalRoundTrip(n: nat)
    ensures Numeral(0, Decimal(n)) == n
  {
    if n < 10 {
      assert Decimal(n)[1..] == "";
    } else {
      DecimalRoundTrip(n / 10);
      NumeralAppend(0, Decimal(n / 10), ('0' as int + n % 10) as char);
    }
  }

  /** Distinct numbers have distinct numerals. */
  lemma {:induction false} DecimalInjective(m: nat, n: nat)
    requires Decimal(m) == Decimal(n)
    ensures m == n
  {
    DecimalRoundTrip(m);
    DecimalRoundTrip(n);
  }

  // ---- Pieces and their spelling ---------------------------------------------------------

  /** What the builder emits: keywords, spaces, quoted names, punctuation, operators, placeholders. */
  datatype Piece = Kw(word: string) | Space | Id(name: string) | Sy(symbol: char) | Op(op: CmpOp) | Hole

  predicate IsSymbol(c: char) { c in "(),.*" }

  function OpText(op: CmpOp): (s: string)
    ensures s != ""
  {
    match op
    case Eq => "="
    case Ne => "!="
    case Lt => "<"
    case Le => "<="
    case Gt => ">"
    case Ge => ">="
  }

  /** The placeholder with 1-based number `k`. */
  function HoleText(d: Dialect, k: nat): (s: string)
    ensures s != ""
  {
    if d.Postgres? then "$" + Decimal(k) else "?"
  }

  function Holes(ps: seq<Piece>): nat {
    if ps == [] then 0 else (if ps[0].Hole? then 1 else 0) + Holes(ps[1..])
  }

  /** The text of one piece, `n` placeholders having come before it. */
  function Spell(d: Dialect, n: nat, p: Piece): string {
    match p
    case Kw(w) => w
    case Space => " "
    case Id(name) => "\"" + name + "\""
    case Sy(c) => [c]
    case Op(op) => OpText(op)
    case Hole => HoleText(d, n + 1)
  }

  function After(n: nat, p: Piece): nat { if p.Hole? then n + 1 else n }

  function Render(d: Dialect, n: nat, ps: seq<Piece>): string
    decreases |ps|
  {
    if ps == [] then "" else Spell(d, n, ps[0]) + Render(d, After(n, ps[0]), ps[1..])
  }

  predicate PieceOk(p: Piece) {
    match p
    case Kw(w) => w != "" && forall i :: 0 <= i < |w| ==> IsAlpha(w[i])
    case Id(name) => Plain(name)
    case Sy(c) => IsSymbol(c)
    case _ => true
  }

  /** Two pieces that may touch without being read as one. */
  predicate Apart(p: Piece, q: Piece) {
    !(p.Kw? && q.Kw?) && !(p.Op? && q.Op?) && !(p.Id? && q.Id?)
  }

  predicate WellSpaced(ps: seq<Piece>) {
    && (forall i :: 0 <= i < |ps| ==> PieceOk(ps[i]))
    && (forall i :: 0 <= i < |ps| - 1 ==> Apart(ps[i], ps[i + 1]))
  }

  // ---- Lexing ----------------------------------------------------------------------------

  datatype Token = Word(word: string) | Name(name: string) | Symbol(symbol: char) | Compare(op: CmpOp) | Param(k: nat)

  function TokenOf(n: nat, p: Piece): seq<Token> {
    match p
    case Kw(w) => [Word(w)]
    case Space => []
    case Id(name) => [Name(name)]
    case Sy(c) => [Symbol(c)]
    case Op(op) => [Compare(op)]
    case Hole => [Param(n + 1)]
  }

  /** The tokens of a piece list: placeholders are numbered left to right from `n + 1`. */
  function Tokens(n: nat, ps: seq<Piece>): seq<Token>
    decreases |ps|
  {
    if ps == [] then [] else TokenOf(n, ps[0]) + Tokens(After(n, ps[0]), ps[1..])
  }

  /** Length of the longest prefix of word characters (of digits, for `RunLength(IsDigit, s)`). */
  function RunLength(p: char -> bool, s: string): (k: nat)
    ensures k <= |s| && (forall i :: 0 <= i < k ==> p(s[i])) && (k < |s| ==> !p(s[k]))
  {
    if s == "" || !p(s[0]) then 0
    else
      var k := RunLength(p, s[1..]);
      assert forall i :: 0 <= i < k + 1 ==> p(s[i]) by {
        forall i | 0 <= i < k + 1 ensures p(s[i]) { if i > 0 { assert s[i] == s[1..][i - 1]; } }
      }
      k + 1
  }

  function Cons(t: Token, rest: Option<seq<Token>>): Option<seq<Token>> {
    if rest.None? then None else Some([t] + rest.value)
  }

  /**
   * Reads SQL text. An anonymous '?' takes the number after the largest one so far, `n`;
   * '$N' takes number N. A doubled quote inside a quoted name is not supported.
   */
  function Lex(n: nat, s: string): Option<seq<Token>>
    decreases |s|
  {
    if s == "" then Some([])
    else if s[0] == ' ' then Lex(n, s[1..])
    else if IsWordChar(s[0]) && !IsDigit(s[0]) then
      var k := RunLength(IsWordChar, s);
      if k == 0 then None else Cons(Word(s[..k]), Lex(n, s[k..]))
    else if s[0] == '"' then
      var k := RunLength(c => c != '"', s[1..]);
      if k + 1 >= |s| || (k + 2 < |s| && s[k + 2] == '"') then None
      else Cons(Name(s[1..k + 1]), Lex(n, s[k + 2..]))
    else if s[0] == '?' then Cons(Param(n + 1), Lex(n + 1, s[1..]))
    else if s[0] == '$' then
      var k := RunLength(IsDigit, s[1..]);
      if k == 0 then None
      else
        var v := Numeral(0, s[1..][..k]);
        Cons(Param(v), Lex(Max(n, v), s[1..][k..]))
    else if s[0] in "<>!" && |s| > 1 && s[1] == '=' then
      Cons(Compare(if s[0] == '<' then Le else if s[0] == '>' then Ge else Ne), Lex(n, s[2..]))
    else if s[0] in "<>=" then
      Cons(Compare(if s[0] == '<' then Lt else if s[0] == '>' then Gt else Eq), Lex(n, s[1..]))
    else if IsSymbol(s[0]) then Cons(Symbol(s[0]), Lex(n, s[1..]))
    else None
  }

  // ---- Reading back what was rendered ----------------------------------------------------

  lemma {:induction false} RunLengthIs(p: char -> bool, s: string, k: nat)
    requires k <= |s| && (forall i :: 0 <= i < k ==> p(s[i])) && (k < |s| ==> !p(s[k]))
    ensures RunLength(p, s) == k
  {
  }

  lemma {:induction false} LexWord(n: nat, w: string, rest: string)
    requires PieceOk(Kw(w)) && (rest == "" || !IsWordChar(rest[0]))
    ensures Lex(n, w + rest) == Cons(Word(w), Lex(n, rest))
  {
    var s := w + rest;
    assert IsAlpha(s[0]);
    RunLengthIs(IsWordChar, s, |w|);
    assert s[..|w|] == w && s[|w|..] == rest;
  }

  lemma {:induction false} LexName(n: nat, name: string, rest: string)
    requires Plain(name) && (rest == "" || rest[0] != '"')
    ensures Lex(n, "\"" + name + "\"" + rest) == Cons(Name(name), Lex(n, rest))
  {
    var s := "\"" + name + "\"" + rest;
    assert s[1..] == name + "\"" + rest;
    RunLengthIs(c => c != '"', s[1..], |name|);
    assert s[1..|name| + 1] == name && s[|name| + 2..] == rest;
  }

  lemma {:induction false} LexNumber(n: nat, digits: string, rest: string)
    requires digits != "" && forall i :: 0 <= i < |digits| ==> IsDigit(digits[i])
    requires rest == "" || !IsDigit(rest[0])
    ensures Lex(n, "$" + digits + rest) ==
            Cons(Param(Numeral(0, digits)), Lex(Max(n, Numeral(0, digits)), rest))
  {
    hide Numeral, RunLength;
    var s := "$" + digits + rest;
    assert s[1..] == digits + rest;
    RunLengthIs(IsDigit, s[1..], |digits|);
    assert s[1..][..|digits|] == digits && s[1..][|digits|..] == rest;
  }

  lemma {:induction false} LexHole(d: Dialect, n: nat, rest: string)
    requires rest == "" || !IsDigit(rest[0])
    ensures Lex(n, HoleText(d, n + 1) + rest) == Cons(Param(n + 1), Lex(n + 1, rest))
  {
    if d.Postgres? {
      hide Lex, Numeral, Decimal;
      LexNumber(n, Decimal(n + 1), rest);
      DecimalRoundTrip(n + 1);
    } else {
      assert ("?" + rest)[1..] == rest;
    }
  }

  lemma {:induction false} LexOp(n: nat, op: CmpOp, rest: string)
    requires rest == "" || rest[0] != '='
    ensures Lex(n, OpText(op) + rest) == Cons(Compare(op), Lex(n, rest))
  {
    hide RunLength, Numeral;
    var s, k := OpText(op) + rest, |OpText(op)|;
    assert s[k..] == rest && k <= 2;
    assert s[0] in "=!<>" && !IsWordChar(s[0]);
    assert k == 2 ==> s[1] == '=';
    assert k == 1 && |s| > 1 ==> s[1] != '=';
  }

  lemma {:induction false} LexSingle(n: nat, c: char, rest: string)
    requires c == ' ' || IsSymbol(c)
    ensures Lex(n, [c] + rest) == if c == ' ' then Lex(n, rest) else Cons(Symbol(c), Lex(n, rest))
  {
    assert ([c] + rest)[1..] == rest;
  }

  /** What may come right after a piece for the lexer to see where it ends. */
  predicate Boundary(p: Piece, rest: string) {
    rest == "" ||
    match p
    case Kw(_) => !IsWordChar(rest[0])
    case Id(_) => rest[0] != '"'
    case Op(_) => rest[0] != '='
    case Hole => !IsDigit(rest[0])
    case _ => true
  }

  function Prepend(ts: seq<Token>, rest: Option<seq<Token>>): Option<seq<Token>> {
    if rest.None? then None else Some(ts + rest.value)
  }

  lemma {:induction false} LexPiece(d: Dialect, n: nat, p: Piece, rest: string)
    requires PieceOk(p) && Boundary(p, rest)
    ensures Lex(n, Spell(d, n, p) + rest) == Prepend(TokenOf(n, p), Lex(After(n, p), rest))
  {
    hide Lex, Plain, OpText, HoleText;
    match p
    case Kw(w) => LexWord(n, w, rest);
    case Id(name) => LexName(n, name, rest);
    case Op(op) => LexOp(n, op, rest);
    case Hole => LexHole(d, n, rest);
    case Sy(c) => LexSingle(n, c, rest);
    case Space =>
      LexSingle(n, ' ', rest);
      assert Lex(n, rest).Some? ==> [] + Lex(n, rest).value == Lex(n, rest).value;
  }

  lemma {:induction false} SpellStart(d: Dialect, n: nat, p: Piece, q: Piece)
    requires PieceOk(p) && PieceOk(q) && Apart(p, q)
    ensures Spell(d, n, q) != "" && Boundary(p, Spell(d, n, q))
  {
    match q
    case Op(op) => assert OpText(op)[0] in "=!<>";
    case Hole => assert HoleText(d, n + 1)[0] in "?$";
    case _ =>
  }

  lemma {:induction false} RenderBoundary(d: Dialect, n: nat, ps: seq<Piece>)
    requires WellSpaced(ps) && ps != []
    ensures Boundary(ps[0], Render(d, After(n, ps[0]), ps[1..]))
  {
    if |ps| > 1 {
      assert Apart(ps[0], ps[0 + 1]);
      SpellStart(d, After(n, ps[0]), ps[0], ps[1]);
    }
  }

  /** Lexing a rendered piece list gives exactly its tokens, in both dialects. */
  lemma {:induction false} LexRender(d: Dialect, n: nat, ps: seq<Piece>)
    requires WellSpaced(ps)
    ensures Lex(n, Render(d, n, ps)) == Some(Tokens(n, ps))
    decreases |ps|
  {
    if ps != [] {
      var p, tail := ps[0], ps[1..];
      var rest := Render(d, After(n, p), tail);
      assert WellSpaced(tail) by { WellSpacedTail(ps); }
      LexRender(d, After(n, p), tail);
      RenderBoundary(d, n, ps);
      hide Lex, Spell, Boundary;
      LexPiece(d, n, p, rest);
    }
  }

  lemma {:induction false} WellSpacedTail(ps: seq<Piece>)
    requires WellSpaced(ps) && ps != []
    ensures WellSpaced(ps[1..])
  {
    hide PieceOk, Apart;
    var tail := ps[1..];
    assert forall i :: 0 <= i < |tail| ==> tail[i] == ps[i + 1];
    forall i | 0 <= i < |tail| - 1 ensures Apart(tail[i], tail[i + 1]) { assert Apart(ps[i + 1], ps[i + 1 + 1]); }
  }

  // ---- Joining piece lists ---------------------------------------------------------------

  lemma {:induction false} HolesJoin(a: seq<Piece>, b: seq<Piece>)
    ensures Holes(a + b) == Holes(a) + Holes(b)
  {
    if a == [] {
      assert a + b == b;
    } else {
      HolesJoin(a[1..], b);
      assert (a + b)[1..] == a[1..] + b;
    }
  }

  lemma {:induction false} TokensJoin(n: nat, a: seq<Piece>, b: seq<Piece>)
    ensures Tokens(n, a + b) == Tokens(n, a) + Tokens(n + Holes(a), b)
    decreases |a|
  {
    if a == [] {
      assert a + b == b;
    } else {
      hide TokenOf;
      var m := After(n, a[0]);
      TokensJoin(m, a[1..], b);
      assert (a + b)[1..] == a[1..] + b;
      assert m + Holes(a[1..]) == n + Holes(a);
    }
  }

  lemma {:induction false} RenderJoin(d: Dialect, n: nat, a: seq<Piece>, b: seq<Piece>)
    ensures Render(d, n, a + b) == Render(d, n, a) + Render(d, n + Holes(a), b)
    decreases |a|
  {
    if a == [] {
      assert a + b == b;
    } else {
      hide Spell;
      var m := After(n, a[0]);
      RenderJoin(d, m, a[1..], b);
      assert (a + b)[1..] == a[1..] + b;
      assert m + Holes(a[1..]) == n + Holes(a);
    }
  }

  predicate Separator(p: Piece) { p.Space? || p.Sy? }

  /** Two well-spaced lists join when a space or a symbol stands at the seam. */
  lemma {:induction false} WellSpacedJoin(a: seq<Piece>, b: seq<Piece>)
    requires WellSpaced(a) && WellSpaced(b)
    requires a == [] || b == [] || Separator(a[|a| - 1]) || Separator(b[0])
    ensures WellSpaced(a + b)
  {
    var ab := a + b;
    forall i | 0 <= i < |ab| - 1 ensures Apart(ab[i], ab[i + 1]) {
      if i + 1 < |a| {
        assert Apart(a[i], a[i + 1]);
      } else if i >= |a| {
        var j := i - |a|;
        assert Apart(b[j], b[j + 1]);
      }
    }
  }

  // ---- Counting placeholders -------------------------------------------------------------

  /** The largest parameter number in a token list, which is how many values a statement takes. */
  function MaxParam(ts: seq<Token>): nat {
    if ts == [] then 0 else Max(if ts[0].Param? then ts[0].k else 0, MaxParam(ts[1..]))
  }

  lemma {:induction false} MaxParamTokens(n: nat, ps: seq<Piece>)
    ensures MaxParam(Tokens(n, ps)) == if Holes(ps) == 0 then 0 else n + Holes(ps)
    decreases |ps|
  {
    if ps != [] {
      var tail := Tokens(After(n, ps[0]), ps[1..]);
      MaxParamTokens(After(n, ps[0]), ps[1..]);
      if !ps[0].Space? {
        assert Tokens(n, ps) == [TokenOf(n, ps[0])[0]] + tail;
        assert Tokens(n, ps)[1..] == tail;
      } else {
        assert Tokens(n, ps) == tail;
      }
    }
  }
}
