/** The PostgreSQL driver's scan for the largest `$N` of a statement. */
module PgParams {
  import opened Core
  import opened SqlText

  /** The largest number that follows a '$' in `s`, or 0. */
  function PgCount(s: string): nat
    decreases |s|
  {
    if s == "" then 0
    else if s[0] == '$' && |s| > 1 && IsDigit(s[1]) then
      var k := RunLength(IsDigit, s[1..]);
      Max(Numeral(0, s[1..][..k]), PgCount(s[1..][k..]))
    else PgCount(s[1..])
  }

  /** Reads the run of digits of `sql` at `p`. */
  method ScanNumber(sql: string, p: nat) returns (v: nat, q: nat)
    requires p <= |sql|
    ensures q == p + RunLength(IsDigit, sql[p..]) && v == Numeral(0, sql[p..q])
  {
    hide RunLength;
    v, q := 0, p;
    ghost var k := RunLength(IsDigit, sql[p..]);
    assert forall j :: p <= j < p + k ==> sql[j] == sql[p..][j - p];
    while q < |sql| && IsDigit(sql[q])
      invariant p <= q <= p + k
      invariant Numeral(v, sql[q..p + k]) == Numeral(0, sql[p..p + k])
    {
      assert sql[q] == sql[p..][q - p];
      assert sql[q..p + k][1..] == sql[q + 1..p + k];
      v, q := v * 10 + DigitValue(sql[q]), q + 1;
    }
  }

  method PgCountParams(sql: string) returns (max: nat)
    ensures max == PgCount(sql)
  {
    hide RunLength, Numeral, PgCount;
    max := 0;
    var p := 0;
    assert sql[0..] == sql;
    while p < |sql|
      invariant 0 <= p <= |sql| && Max(max, PgCount(sql[p..])) == PgCount(sql)
    {
      PgStep(sql, p);
      if sql[p] == '$' && p + 1 < |sql| && IsDigit(sql[p + 1]) {
        var v, q := ScanNumber(sql, p + 1);
        if v > max { max := v; }
        p := q;
      } else {
        p := p + 1;
      }
    }
    assert sql[p..] == "";
    PgEmpty();
  }

  lemma {:induction false} PgEmpty()
    ensures PgCount("") == 0
  {
  }

  /** One step of the scan: past a numeral, or past one character. */
  lemma {:induction false} PgStep(sql: string, p: nat)
    requires p < |sql|
    ensures if sql[p] == '$' && p + 1 < |sql| && IsDigit(sql[p + 1]) then
              var q := p + 1 + RunLength(IsDigit, sql[p + 1..]);
              PgCount(sql[p..]) == Max(Numeral(0, sql[p + 1..q]), PgCount(sql[q..]))
            else PgCount(sql[p..]) == PgCount(sql[p + 1..])
  {
    hide RunLength, Numeral;
    var s, q := sql[p..], p + 1 + RunLength(IsDigit, sql[p + 1..]);
    assert s[1..] == sql[p + 1..];
    assert s[1..][..q - p - 1] == sql[p + 1..q] && s[1..][q - p - 1..] == sql[q..];
  }

  lemma {:induction false} PgSkip(t: string, rest: string)
    requires forall i :: 0 <= i < |t| ==> t[i] != '$'
    ensures PgCount(t + rest) == PgCount(rest)
  {
    if t == "" {
      assert t + rest == rest;
    } else {
      PgSkip(t[1..], rest);
      assert (t + rest)[1..] == t[1..] + rest;
    }
  }

  lemma {:induction false} PgNumber(digits: string, rest: string)
    requires digits != "" && forall i :: 0 <= i < |digits| ==> IsDigit(digits[i])
    requires rest == "" || !IsDigit(rest[0])
    ensures PgCount("$" + digits + rest) == Max(Numeral(0, digits), PgCount(rest))
  {
    hide Numeral, RunLength;
    var s := "$" + digits + rest;
    assert s[1..] == digits + rest;
    RunLengthIs(IsDigit, s[1..], |digits|);
    assert s[1..][..|digits|] == digits && s[1..][|digits|..] == rest;
  }

  /** On PostgreSQL text the scan finds exactly the placeholders, since no name can hold a '$'. */
  lemma {:induction false} PgCountRender(n: nat, ps: seq<Piece>)
    requires WellSpaced(ps)
    ensures PgCount(Render(Postgres, n, ps)) == if Holes(ps) == 0 then 0 else n + Holes(ps)
    decreases |ps|
  {
    if ps != [] {
      var p, tail := ps[0], ps[1..];
      var rest := Render(Postgres, After(n, p), tail);
      WellSpacedTail(ps);
      PgCountRender(After(n, p), tail);
      RenderBoundary(Postgres, n, ps);
      if p.Hole? {
        hide PgCount, Numeral, Decimal;
        PgNumber(Decimal(n + 1), rest);
        DecimalRoundTrip(n + 1);
      } else {
        hide PgCount;
        SpellHasNoDollar(n, p);
        PgSkip(Spell(Postgres, n, p), rest);
      }
    }
  }

  lemma {:induction false} SpellHasNoDollar(n: nat, p: Piece)
    requires PieceOk(p) && !p.Hole?
    ensures forall i :: 0 <= i < |Spell(Postgres, n, p)| ==> Spell(Postgres, n, p)[i] != '$'
  {
  }

  /** How many values a prepared statement takes: each driver's own count. */
  function ParamCount(d: Dialect, sql: string): nat {
    if d.Postgres? then PgCount(sql)
    else if Lex(0, sql).Some? then MaxParam(Lex(0, sql).value) else 0
  }

  /** Both drivers count the placeholders of rendered text exactly. */
  lemma {:induction false} ParamCountRender(d: Dialect, ps: seq<Piece>)
    requires WellSpaced(ps)
    ensures ParamCount(d, Render(d, 0, ps)) == Holes(ps)
  {
    hide PgCount, Lex, Render, MaxParam;
    PgCountRender(0, ps);
    LexRender(d, 0, ps);
    MaxParamTokens(0, ps);
  }
}
