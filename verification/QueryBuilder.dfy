/** The SQL builder: a growing buffer and the routines that print each query into it. */
module QueryBuilder {
  import opened Core
  import opened Bits
  import opened SqlText
  import opened SqlFragments
  import opened Conditions
  import opened SqlGrammar
  import opened SqlStatements
  import opened Queries
  import opened TableSpec

  const INITIAL_CAPACITY: nat := 256

  /** The capacity of a buffer that has grown to hold `n` characters and a terminator. */
  function CapacityFor(n: nat): nat { DoubleUntil(INITIAL_CAPACITY, n + 1) }

  lemma {:induction false} CapacityGrows(m: nat, n: nat)
    requires m <= n
    ensures CapacityFor(m) <= CapacityFor(n)
    ensures DoubleUntil(CapacityFor(m), n + 1) == CapacityFor(n)
  {
    DoubleUntilMonotone(INITIAL_CAPACITY, m + 1, n + 1);
  }

  /** A character buffer that doubles when it is full; an allocation above `limit` fails. */
  class Buf {
    var data: array<char>
    var len: nat
    const limit: nat
    ghost var text: string // what has been printed

    ghost predicate Valid()
      reads this, data
    {
      && len < data.Length <= limit && data[len] == '\0'
      && data.Length == CapacityFor(len)
      && text == data[..len]
    }

    constructor (limit: nat)
      requires limit >= INITIAL_CAPACITY
      ensures Valid() && text == "" && fresh(data) && this.limit == limit
    {
      this.limit := limit;
      data := new char[INITIAL_CAPACITY](_ => '\0');
      len := 0;
      text := "";
    }

    /** Makes room for `extra` more characters, keeping the text. */
    method Grow(extra: nat) returns (ok: bool)
      requires Valid()
      modifies this`data
      ensures ok == (CapacityFor(len + extra) <= limit)
      ensures fresh(data) || data == old(data)
      ensures !ok ==> data == old(data)
      ensures ok ==> data.Length == CapacityFor(len + extra) && data[..len] == text
    {
      hide DoubleUntil;
      CapacityGrows(len, len + extra);
      if len + extra + 1 <= data.Length {
        assert DoubleUntil(data.Length, len + extra + 1) == data.Length by { DoubleDone(data.Length, len + extra + 1); }
        return true;
      }
      var capacity := data.Length;
      while capacity < len + extra + 1
        invariant data == old(data) && capacity > 0
        invariant DoubleUntil(capacity, len + extra + 1) == CapacityFor(len + extra)
      {
        DoubleStep(capacity, len + extra + 1);
        capacity := 2 * capacity;
      }
      DoubleDone(capacity, len + extra + 1);
      if capacity > limit { return false; }
      var bigger := new char[capacity](_ => '\0');
      forall i | 0 <= i < len { bigger[i] := data[i]; }
      data := bigger;
      return true;
    }

    /** Appends a string and its terminator. */
    method Append(s: string) returns (ok: bool)
      requires Valid()
      modifies this, data
      ensures Valid() && (fresh(data) || data == old(data))
      ensures ok == (CapacityFor(|old(text)| + |s|) <= limit)
      ensures text == if ok then old(text) + s else old(text)
    {
      ok := Grow(|s|);
      if ok {
        hide DoubleUntil;
        forall i | 0 <= i < |s| { data[len + i] := s[i]; }
        data[len + |s|] := '\0';
        len := len + |s|;
        assert data[..old(len)] == text;
        text := text + s;
      }
    }

    /** Appends several strings, stopping at the first that does not fit. */
    method AppendAll(parts: seq<string>) returns (ok: bool)
      requires Valid()
      modifies this, data
      ensures Valid() && (fresh(data) || data == old(data))
      ensures ok == (CapacityFor(|old(text)| + |Concat(parts)|) <= limit)
      ensures ok ==> text == old(text) + Concat(parts)
    {
      hide DoubleUntil, CapacityFor, Concat;
      ghost var was, whole := text, text + Concat(parts);
      assert parts[0..] == parts;
      for i := 0 to |parts|
        invariant Valid() && (fresh(data) || data == old(data))
        invariant text + Concat(parts[i..]) == whole
      {
        ConcatPeel(text, parts, i, whole);
        ok := Append(parts[i]);
        if !ok { return; }
      }
      ConcatNone();
      assert parts[|parts|..] == [] && text + "" == text;
      ok := true;
    }
  }

  lemma {:induction false} ConcatPeel(text: string, parts: seq<string>, i: nat, whole: string)
    requires i < |parts| && text + Concat(parts[i..]) == whole
    ensures (text + parts[i]) + Concat(parts[i + 1..]) == whole
    ensures CapacityFor(|text| + |parts[i]|) <= CapacityFor(|whole|)
  {
    ConcatStep(parts[i..]);
    assert parts[i..][1..] == parts[i + 1..];
    hide *;
    var a, z := parts[i], Concat(parts[i + 1..]);
    assert text + (a + z) == (text + a) + z;
    CapacityGrows(|text| + |a|, |whole|);
  }

  lemma {:induction false} DoubleDone(r: nat, n: nat)
    requires r > 0 && r >= n
    ensures DoubleUntil(r, n) == r
  {
  }

  lemma {:induction false} DoubleStep(r: nat, n: nat)
    requires 0 < r < n
    ensures DoubleUntil(r, n) == DoubleUntil(2 * r, n)
  {
  }

  // ---- Printing piece by piece -----------------------------------------------------------

  /**
   * `text` has been printed, the pieces `rest` are still to come, and `whole` is what they make:
   * printing the pieces `ps` at the front of `rest` keeps it so.
   */
  lemma {:induction false} Peel(d: Dialect, text: string, n: nat, ps: seq<Piece>, rest: seq<Piece>, whole: string)
    requires text + Render(d, n, ps + rest) == whole
    ensures (text + Render(d, n, ps)) + Render(d, n + Holes(ps), rest) == whole
    ensures |text| + |Render(d, n, ps)| <= |whole|
    ensures CapacityFor(|text| + |Render(d, n, ps)|) <= CapacityFor(|whole|)
  {
    RenderJoin(d, n, ps, rest);
    hide *;
    var a, b := Render(d, n, ps), Render(d, n + Holes(ps), rest);
    assert text + (a + b) == (text + a) + b;
    CapacityGrows(|text| + |a|, |whole|);
  }

  lemma {:induction false} PlaceholderText(d: Dialect, n: nat)
    ensures Render(d, n, [Hole]) == (if d.Postgres? then "$" + Decimal(n + 1) else "?") && Holes([Hole]) == 1
  {
    hide Decimal;
    assert Render(d, n, [Hole]) == HoleText(d, n + 1) + "" == HoleText(d, n + 1);
  }

  /** `?`, or `$N` with the next number. */
  method AppendPlaceholder(b: Buf, d: Dialect, bindCount: nat) returns (ok: bool, count: nat)
    requires b.Valid()
    modifies b, b.data
    ensures b.Valid() && (fresh(b.data) || b.data == old(b.data))
    ensures count == bindCount + Holes([Hole])
    ensures ok == (CapacityFor(|old(b.text)| + |Render(d, bindCount, [Hole])|) <= b.limit)
    ensures ok ==> b.text == old(b.text) + Render(d, bindCount, [Hole])
  {
    hide DoubleUntil, CapacityFor, Decimal, Render, Holes;
    PlaceholderText(d, bindCount);
    count := bindCount + 1;
    if d.Postgres? {
      ok := b.Append("$" + Decimal(count));
    } else {
      ok := b.Append("?");
    }
  }

  lemma {:induction false} CondDef(c: Condition)
    ensures match c
            case Leaf(col, op, _) => CondPieces(c) == [Id(col), Space, Op(op), Space] + [Hole]
            case And(l, r) => CondPieces(c) == PairPieces(CondPieces(l), "AND", CondPieces(r))
            case Or(l, r) => CondPieces(c) == PairPieces(CondPieces(l), "OR", CondPieces(r))
            case All => CondPieces(c) == []
  {
    match c
    case And(l, r) => BinaryParts(CondPieces(l), "AND", CondPieces(r));
    case Or(l, r) => BinaryParts(CondPieces(l), "OR", CondPieces(r));
    case _ =>
  }

  function PairPieces(a: seq<Piece>, word: string, b: seq<Piece>): seq<Piece> {
    [Sy('(')] + (a + ([Space, Kw(word), Space] + (b + [Sy(')')])))
  }

  lemma {:induction false} BinaryParts(a: seq<Piece>, word: string, b: seq<Piece>)
    ensures Binary(a, word, b) == PairPieces(a, word, b)
  {
  }

  /** The search condition, in parentheses wherever two operands are joined. */
  method AppendCond(b: Buf, c: Condition, d: Dialect, bindCount: nat) returns (ok: bool, count: nat)
    requires b.Valid()
    modifies b, b.data
    ensures b.Valid() && (fresh(b.data) || b.data == old(b.data))
    ensures ok == (CapacityFor(|old(b.text)| + |Render(d, bindCount, CondPieces(c))|) <= b.limit)
    ensures ok ==> b.text == old(b.text) + Render(d, bindCount, CondPieces(c))
    ensures ok ==> count == bindCount + Holes(CondPieces(c))
    decreases c, 1
  {
    hide DoubleUntil, CapacityFor, Render, Holes, CondPieces, Concat, OpText;
    ghost var text := b.text;
    CondDef(c);
    ok, count := true, bindCount;
    if c.All? {
      RenderNone(d, bindCount, text);
      NoHoles([]);
    } else if c.Leaf? {
      ghost var head := [Id(c.col), Space, Op(c.op), Space];
      LeafText(d, bindCount, c.col, c.op);
      Peel(d, text, bindCount, head, [Hole], text + Render(d, bindCount, CondPieces(c)));
      HolesJoin(head, [Hole]);
      ok := b.AppendAll(["\"", c.col, "\" ", OpText(c.op), " "]);
      if ok {
        ok, count := AppendPlaceholder(b, d, bindCount);
      }
    } else {
      ok, count := AppendPair(b, c, d, bindCount);
    }
  }

  function Connective(c: Condition): string { if c.And? then "AND" else "OR" }

  /** A connective, its second operand and the closing parenthesis. */
  function RightPieces(word: string, rp: seq<Piece>): seq<Piece> {
    [Space, Kw(word), Space] + (rp + [Sy(')')])
  }

  lemma {:induction false} RightHoles(word: string, rp: seq<Piece>)
    ensures Holes(RightPieces(word, rp)) == Holes(rp)
  {
    hide Holes;
    NoHoles([Space, Kw(word), Space]);
    NoHoles([Sy(')')]);
    HolesJoin(rp, [Sy(')')]);
    HolesJoin([Space, Kw(word), Space], rp + [Sy(')')]);
  }

  lemma {:induction false} PairDef(c: Condition)
    requires c.And? || c.Or?
    ensures CondPieces(c) == [Sy('(')] + (CondPieces(c.left) + RightPieces(Connective(c), CondPieces(c.right)))
    ensures Holes(CondPieces(c)) == Holes(CondPieces(c.left)) + Holes(RightPieces(Connective(c), CondPieces(c.right)))
  {
    hide Holes;
    CondDef(c);
    var a, b := CondPieces(c.left), RightPieces(Connective(c), CondPieces(c.right));
    NoHoles([Sy('(')]);
    HolesJoin(a, b);
    HolesJoin([Sy('(')], a + b);
  }

  method AppendPair(b: Buf, c: Condition, d: Dialect, bindCount: nat) returns (ok: bool, count: nat)
    requires b.Valid() && (c.And? || c.Or?)
    modifies b, b.data
    ensures b.Valid() && (fresh(b.data) || b.data == old(b.data))
    ensures ok == (CapacityFor(|old(b.text)| + |Render(d, bindCount, CondPieces(c))|) <= b.limit)
    ensures ok ==> b.text == old(b.text) + Render(d, bindCount, CondPieces(c))
    ensures ok ==> count == bindCount + Holes(CondPieces(c))
    decreases c, 0
  {
    hide DoubleUntil, CapacityFor, Render, Holes, CondPieces, RightPieces, Connective;
    count := bindCount;
    ghost var whole := b.text + Render(d, bindCount, CondPieces(c));
    ghost var rest := RightPieces(Connective(c), CondPieces(c.right));
    PairDef(c);
    SymbolText(d, bindCount, '(');
    Peel(d, b.text, bindCount, [Sy('(')], CondPieces(c.left) + rest, whole);
    ok := b.Append("(");
    if !ok { return; }
    Peel(d, b.text, bindCount, CondPieces(c.left), rest, whole);
    ok, count := AppendCond(b, c.left, d, bindCount);
    if !ok { return; }
    ok, count := AppendRight(b, Connective(c), c.right, d, count);
  }

  method AppendRight(b: Buf, word: string, r: Condition, d: Dialect, bindCount: nat) returns (ok: bool, count: nat)
    requires b.Valid()
    modifies b, b.data
    ensures b.Valid() && (fresh(b.data) || b.data == old(b.data))
    ensures ok == (CapacityFor(|old(b.text)| + |Render(d, bindCount, RightPieces(word, CondPieces(r)))|) <= b.limit)
    ensures ok ==> b.text == old(b.text) + Render(d, bindCount, RightPieces(word, CondPieces(r)))
    ensures ok ==> count == bindCount + Holes(RightPieces(word, CondPieces(r)))
    decreases r, 2
  {
    hide DoubleUntil, CapacityFor, Render, Holes, CondPieces;
    count := bindCount;
    ghost var rp, mid := CondPieces(r), [Space, Kw(word), Space];
    ghost var whole := b.text + Render(d, bindCount, RightPieces(word, rp));
    RightHoles(word, rp);
    WordText(d, bindCount, word);
    Peel(d, b.text, bindCount, mid, rp + [Sy(')')], whole);
    hide RightPieces;
    ok := b.Append(" " + word + " ");
    if !ok { return; }
    Peel(d, b.text, bindCount, rp, [Sy(')')], whole);
    ok, count := AppendCond(b, r, d, bindCount);
    if !ok { return; }
    SymbolText(d, count, ')');
    ok := b.Append(")");
  }

  /** What is left of a separated list after its first `i` items. */
  function Rest(ps: seq<Piece>, i: nat, more: bool): seq<Piece> {
    if !more then [] else if i == 0 then ps else [Sy(',')] + ps
  }

  lemma {:induction false} RestDef(ps: seq<Piece>, i: nat)
    ensures Rest(ps, i, false) == [] && Rest(ps, 0, true) == ps
  {
  }

  lemma {:induction false} NameListStep(names: seq<string>, i: nat)
    requires i < |names|
    ensures NameList(names[i..]) == [Id(names[i])] + Rest(NameList(names[i + 1..]), i + 1, i + 1 < |names|)
  {
    assert names[i..][1..] == names[i + 1..];
  }

  /** A separator, unless it is the first item. */
  method AppendComma(b: Buf, i: nat, ghost d: Dialect, ghost n: nat, ghost ps: seq<Piece>, ghost whole: string)
      returns (ok: bool)
    requires b.Valid() && b.text + Render(d, n, Rest(ps, i, true)) == whole
    modifies b, b.data
    ensures b.Valid() && (fresh(b.data) || b.data == old(b.data))
    ensures !ok ==> CapacityFor(|whole|) > b.limit
    ensures ok ==> b.text + Render(d, n, ps) == whole
  {
    hide DoubleUntil, CapacityFor, Render, Holes;
    if i == 0 { return true; }
    SymbolText(d, n, ',');
    Peel(d, b.text, n, [Sy(',')], ps, whole);
    ok := b.Append(",");
  }

  method AppendNames(b: Buf, names: seq<string>, ghost d: Dialect, ghost n: nat) returns (ok: bool)
    requires b.Valid()
    modifies b, b.data
    ensures b.Valid() && (fresh(b.data) || b.data == old(b.data))
    ensures ok == (CapacityFor(|old(b.text)| + |Render(d, n, NameList(names))|) <= b.limit)
    ensures ok ==> b.text == old(b.text) + Render(d, n, NameList(names))
  {
    hide DoubleUntil, CapacityFor, Render, Holes, NameList, Concat, Rest;
    ghost var whole := b.text + Render(d, n, NameList(names));
    assert names[0..] == names;
    ListEnd(names);
    RestDef(NameList(names), 0);
    for i := 0 to |names|
      invariant b.Valid() && (fresh(b.data) || b.data == old(b.data))
      invariant b.text + Render(d, n, Rest(NameList(names[i..]), i, i < |names|)) == whole
    {
      ok := AppendComma(b, i, d, n, NameList(names[i..]), whole);
      if !ok { return; }
      NameListStep(names, i);
      NameText(d, n, names[i]);
      Peel(d, b.text, n, [Id(names[i])], Rest(NameList(names[i + 1..]), i + 1, i + 1 < |names|), whole);
      ok := b.AppendAll(["\"", names[i], "\""]);
      if !ok { return; }
    }
    RestDef(NameList(names[|names|..]), |names|);
    RenderNone(d, n, b.text);
    ok := true;
  }

  lemma {:induction false} ListEnd(names: seq<string>)
    ensures names == [] ==> NameList(names) == [] && SetList(names) == []
    ensures HoleList(0) == [] && Holes([]) == 0
  {
  }

  lemma {:induction false} HoleListStep(k: nat, i: nat)
    requires i < k
    ensures HoleList(k - i) == [Hole] + Rest(HoleList(k - (i + 1)), i + 1, i + 1 < k)
  {
  }

  lemma {:induction false} HoleListHoles(k: nat)
    ensures Holes(HoleList(k)) == k
  {
    if k >= 2 {
      HoleListHoles(k - 1);
      HolesJoin([Hole, Sy(',')], HoleList(k - 1));
    }
  }

  method AppendHoles(b: Buf, k: nat, d: Dialect, bindCount: nat) returns (ok: bool, count: nat)
    requires b.Valid()
    modifies b, b.data
    ensures b.Valid() && (fresh(b.data) || b.data == old(b.data))
    ensures ok == (CapacityFor(|old(b.text)| + |Render(d, bindCount, HoleList(k))|) <= b.limit)
    ensures ok ==> b.text == old(b.text) + Render(d, bindCount, HoleList(k)) && count == bindCount + k
  {
    hide DoubleUntil, CapacityFor, Render, Holes, HoleList, Rest;
    ghost var whole := b.text + Render(d, bindCount, HoleList(k));
    count := bindCount;
    ListEnd([]);
    RestDef(HoleList(k), 0);
    for i := 0 to k
      invariant b.Valid() && (fresh(b.data) || b.data == old(b.data)) && count == bindCount + i
      invariant b.text + Render(d, count, Rest(HoleList(k - i), i, i < k)) == whole
    {
      ok := AppendComma(b, i, d, count, HoleList(k - i), whole);
      if !ok { return; }
      HoleListStep(k, i);
      Peel(d, b.text, count, [Hole], Rest(HoleList(k - (i + 1)), i + 1, i + 1 < k), whole);
      OneHole();
      ok, count := AppendPlaceholder(b, d, count);
      if !ok { return; }
    }
    RestDef(HoleList(0), k);
    RenderNone(d, count, b.text);
    ok := true;
  }

  lemma {:induction false} OneHole()
    ensures Holes([Hole]) == 1
  {
  }

  /** The columns other than the key, from column `i` on. */
  function NonKeyFrom(s: Schema, i: nat): seq<string>
    requires HasKey(s) && i <= |s.cols|
  {
    NonKey(s)[if i <= s.pkIndex then i else i - 1..]
  }

  lemma {:induction false} NonKeyStep(s: Schema, i: nat)
    requires HasKey(s) && i < |s.cols|
    ensures NonKeyFrom(s, 0) == NonKey(s) && NonKeyFrom(s, |s.cols|) == []
    ensures i == s.pkIndex ==> NonKeyFrom(s, i + 1) == NonKeyFrom(s, i)
    ensures i != s.pkIndex ==> NonKeyFrom(s, i) == [s.cols[i].name] + NonKeyFrom(s, i + 1)
  {
  }

  lemma {:induction false} SetListStep(name: string, rest: seq<string>)
    ensures SetList([name] + rest) == SetItem(name) + Rest(SetList(rest), 1, rest != [])
  {
    assert ([name] + rest)[1..] == rest;
    assert SetItem(name) + [] == SetItem(name);
  }

  lemma {:induction false} SetItemText(d: Dialect, n: nat, name: string)
    ensures Render(d, n, SetItem(name)) == Concat(["\"", name, "\"=excluded.\"", name, "\""])
    ensures Holes(SetItem(name)) == 0
  {
    hide Render, Holes, Concat;
    var mid := [Op(Eq), Kw("excluded"), Sy('.')];
    ExcludedText(d, n);
    RenderNone(d, n, "");
    NoHoles([]);
    Quoted2Text(d, n, [], name, mid, name, [], "\"", "\"=excluded.\"", "\"");
    assert SetItem(name) == [] + ([Id(name)] + (mid + ([Id(name)] + [])));
  }

  method AppendSets(b: Buf, s: Schema, ghost d: Dialect, ghost n: nat) returns (ok: bool)
    requires b.Valid() && HasKey(s)
    modifies b, b.data
    ensures b.Valid() && (fresh(b.data) || b.data == old(b.data))
    ensures ok == (CapacityFor(|old(b.text)| + |Render(d, n, SetList(NonKey(s)))|) <= b.limit)
    ensures ok ==> b.text == old(b.text) + Render(d, n, SetList(NonKey(s)))
  {
    hide DoubleUntil, CapacityFor, Render, Holes, SetList, Concat, NonKey, NonKeyFrom, SetItem, Rest;
    ghost var whole := b.text + Render(d, n, SetList(NonKey(s)));
    NonKeyStep(s, 0);
    ListEnd([]);
    var first := true;
    RestDef(SetList(NonKey(s)), 0);
    for i := 0 to |s.cols|
      invariant b.Valid() && (fresh(b.data) || b.data == old(b.data))
      invariant b.text + Render(d, n,
                Rest(SetList(NonKeyFrom(s, i)), if first then 0 else 1, NonKeyFrom(s, i) != [])) == whole
    {
      NonKeyStep(s, i);
      if i == s.pkIndex { continue; }
      ghost var name, rest := s.cols[i].name, NonKeyFrom(s, i + 1);
      ok := AppendComma(b, if first then 0 else 1, d, n, SetList([name] + rest), whole);
      if !ok { return; }
      first := false;
      SetListStep(name, rest);
      SetItemText(d, n, name);
      Peel(d, b.text, n, SetItem(name), Rest(SetList(rest), 1, rest != []), whole);
      ok := b.AppendAll(["\"", s.cols[i].name, "\"=excluded.\"", s.cols[i].name, "\""]);
      if !ok { return; }
    }
    NonKeyStep(s, 0);
    RestDef(SetList([]), if first then 0 else 1);
    RenderNone(d, n, b.text);
    ok := true;
  }

  // ---- Validation ------------------------------------------------------------------------

  method SchemaHasColumn(s: Schema, col: string) returns (found: bool)
    ensures found == (col in Names(s))
  {
    for i := 0 to |s.cols|
      invariant col !in Names(s)[..i]
    {
      assert Names(s)[..i + 1] == Names(s)[..i] + [s.cols[i].name];
      if s.cols[i].name == col { return true; }
    }
    assert Names(s)[..|s.cols|] == Names(s);
    return false;
  }

  method ValidateCondColumns(c: Condition, s: Schema) returns (status: Status)
    ensures status == if ColumnsIn(c, Names(s)) then Ok else UnknownColumn
  {
    match c
    case All => return Ok;
    case Leaf(col, _, _) =>
      var found := SchemaHasColumn(s, col);
      return if found then Ok else UnknownColumn;
    case And(l, r) =>
      status := ValidateCondColumns(l, s);
      if status == Ok { status := ValidateCondColumns(r, s); }
    case Or(l, r) =>
      status := ValidateCondColumns(l, s);
      if status == Ok { status := ValidateCondColumns(r, s); }
  }

  // ---- Builders --------------------------------------------------------------------------

  /**
   * The outcome of a builder: with room for the text it is printed and its placeholders are
   * counted; without, memory runs out; and a column the schema does not have stops it.
   */
  ghost predicate Built(status: Status, known: bool, limit: nat, was: string, now: string, d: Dialect, n: nat,
      count: nat, ps: seq<Piece>) {
    var whole := was + Render(d, n, ps);
    match status
    case Ok => known && now == whole && count == n + Holes(ps) && CapacityFor(|whole|) <= limit
    case UnknownColumn => !known
    case NoMemory => CapacityFor(|whole|) > limit
    case _ => false
  }

  /** The optional WHERE clause. */
  method BuildWhere(b: Buf, s: Schema, cond: Option<Condition>, d: Dialect, bindCount: nat)
      returns (status: Status, count: nat)
    requires b.Valid()
    modifies b, b.data
    ensures b.Valid() && (fresh(b.data) || b.data == old(b.data))
    ensures Built(status, Known(Names(s), cond), b.limit, old(b.text), b.text, d, bindCount, count, WherePieces(cond))
  {
    hide DoubleUntil, CapacityFor, Render, Holes, CondPieces, ColumnsIn, WherePieces;
    count := bindCount;
    WhereDef(cond);
    if !NeedsWhere(cond) {
      RenderNone(d, bindCount, b.text);
      NoHoles([]);
      return Ok, count;
    }
    status := ValidateCondColumns(cond.value, s);
    if status != Ok { return; }
    ghost var head, ps := [Space, Kw("WHERE"), Space], CondPieces(cond.value);
    ghost var whole := b.text + Render(d, bindCount, WherePieces(cond));
    WhereWordText(d, bindCount);
    HolesJoin(head, ps);
    Peel(d, b.text, bindCount, head, ps, whole);
    var ok := b.Append(" WHERE ");
    if !ok { return NoMemory, count; }
    ok, count := AppendCond(b, cond.value, d, bindCount);
    if !ok { return NoMemory, count; }
  }

  lemma {:induction false} WhereDef(cond: Option<Condition>)
    ensures WherePieces(cond) == if NeedsWhere(cond) then [Space, Kw("WHERE"), Space] + CondPieces(cond.value) else []
  {
    assert Kws(["WHERE"]) == [Kw("WHERE"), Space];
  }

  method BuildInsert(b: Buf, s: Schema, d: Dialect, bindCount: nat) returns (status: Status, count: nat)
    requires b.Valid()
    modifies b, b.data
    ensures b.Valid() && (fresh(b.data) || b.data == old(b.data))
    ensures Built(status, true, b.limit, old(b.text), b.text, d, bindCount, count, InsertPieces(s))
  {
    hide DoubleUntil, CapacityFor, Render, Holes, NameList, InsertPieces, Concat, ValuesTail, InsertHead;
    count := bindCount;
    ghost var whole := b.text + Render(d, bindCount, InsertPieces(s));
    ghost var names, values := NameList(Names(s)), ValuesTail(|s.cols|);
    InsertDef(s);
    InsertHeadText(d, bindCount, s.name);
    Peel(d, b.text, bindCount, InsertHead(s.name), names + values, whole);
    var ok := b.AppendAll(["INSERT INTO \"", s.name, "\" ("]);
    if !ok { return NoMemory, count; }
    Peel(d, b.text, bindCount, names, values, whole);
    NameListHoles(Names(s));
    ok := AppendNames(b, Names(s), d, bindCount);
    if !ok { return NoMemory, count; }
    ok, count := AppendValues(b, |s.cols|, d, bindCount);
    return if ok then Ok else NoMemory, count;
  }

  /** From the end of the column list on: the placeholders, one per column. */
  function ValuesTail(k: nat): seq<Piece> {
    [Sy(')'), Space, Kw("VALUES"), Space, Sy('(')] + (HoleList(k) + [Sy(')')])
  }

  method AppendValues(b: Buf, k: nat, d: Dialect, bindCount: nat) returns (ok: bool, count: nat)
    requires b.Valid()
    modifies b, b.data
    ensures b.Valid() && (fresh(b.data) || b.data == old(b.data))
    ensures ok == (CapacityFor(|old(b.text)| + |Render(d, bindCount, ValuesTail(k))|) <= b.limit)
    ensures ok ==>
              b.text == old(b.text) + Render(d, bindCount, ValuesTail(k)) && count == bindCount + Holes(ValuesTail(k))
  {
    hide DoubleUntil, CapacityFor, Render, Holes, HoleList;
    count := bindCount;
    ghost var whole := b.text + Render(d, bindCount, ValuesTail(k));
    ghost var values := [Sy(')'), Space, Kw("VALUES"), Space, Sy('(')];
    ValuesHoles(k);
    HoleListHoles(k);
    ValuesText(d, bindCount);
    Peel(d, b.text, bindCount, values, HoleList(k) + [Sy(')')], whole);
    hide ValuesTail;
    ok := b.Append(") VALUES (");
    if !ok { return; }
    Peel(d, b.text, bindCount, HoleList(k), [Sy(')')], whole);
    ok, count := AppendHoles(b, k, d, bindCount);
    if !ok { return; }
    SymbolText(d, count, ')');
    ok := b.Append(")");
  }

  lemma {:induction false} ValuesHoles(k: nat)
    ensures Holes(ValuesTail(k)) == k
  {
    hide Holes;
    var values := [Sy(')'), Space, Kw("VALUES"), Space, Sy('(')];
    HoleListHoles(k);
    NoHoles(values);
    NoHoles([Sy(')')]);
    HolesJoin(HoleList(k), [Sy(')')]);
    HolesJoin(values, HoleList(k) + [Sy(')')]);
  }

  function InsertHead(name: string): seq<Piece> {
    [Kw("INSERT"), Space, Kw("INTO"), Space] + ([Id(name)] + [Space, Sy('(')])
  }

  lemma {:induction false} InsertHeadText(d: Dialect, n: nat, name: string)
    ensures Render(d, n, InsertHead(name)) == Concat(["INSERT INTO \"", name, "\" ("]) && Holes(InsertHead(name)) == 0
  {
    InsertIntoText(d, n);
    OpenColumnsText(d, n);
    QuotedText(d, n, [Kw("INSERT"), Space, Kw("INTO"), Space], name, [Space, Sy('(')], "INSERT INTO \"", "\" (");
  }

  lemma {:induction false} NameListHoles(names: seq<string>)
    ensures Holes(NameList(names)) == 0
  {
    if |names| >= 2 {
      NameListHoles(names[1..]);
      HolesJoin([Id(names[0]), Sy(',')], NameList(names[1..]));
    }
  }

  lemma {:induction false} InsertParts(s: Schema)
    ensures InsertPieces(s) == InsertHead(s.name) + (NameList(Names(s)) + ValuesTail(|s.cols|))
  {
    hide NameList, HoleList;
    assert Kws(["VALUES"]) == [Kw("VALUES"), Space];
    KwsTwo("INSERT", "INTO");
    hide Kws;
    var names, values := NameList(Names(s)), ValuesTail(|s.cols|);
    assert ColumnsPieces(s) == [Sy('(')] + (names + values);
    hide ColumnsPieces, ValuesTail;
    var pre, mid, rest := [Kw("INSERT"), Space, Kw("INTO"), Space], [Id(s.name), Space, Sy('(')], names + values;
    assert [Id(s.name), Space] + ([Sy('(')] + rest) == mid + rest;
    assert InsertHead(s.name) == pre + mid;
    assert pre + (mid + rest) == (pre + mid) + rest;
  }

  lemma {:induction false} KwsTwo(a: string, b: string)
    ensures Kws([a, b]) == [Kw(a), Space, Kw(b), Space]
  {
    assert [a, b][1..] == [b];
    assert Kws([b]) == [Kw(b), Space];
  }

  lemma {:induction false} InsertDef(s: Schema)
    ensures InsertPieces(s) == InsertHead(s.name) + (NameList(Names(s)) + ValuesTail(|s.cols|))
    ensures Holes(InsertPieces(s)) == Holes(ValuesTail(|s.cols|))
  {
    InsertParts(s);
    hide Holes, NameList, ValuesTail, InsertPieces;
    var names, values := NameList(Names(s)), ValuesTail(|s.cols|);
    NoHoles(InsertHead(s.name));
    hide InsertHead;
    NameListHoles(Names(s));
    HolesJoin(names, values);
    HolesJoin(InsertHead(s.name), names + values);
  }

  method BuildUpsert(b: Buf, s: Schema, d: Dialect, bindCount: nat) returns (status: Status, count: nat)
    requires b.Valid() && HasKey(s)
    modifies b, b.data
    ensures b.Valid() && (fresh(b.data) || b.data == old(b.data))
    ensures Built(status, true, b.limit, old(b.text), b.text, d, bindCount, count, InsertPieces(s) + ConflictPieces(s))
  {
    hide DoubleUntil, CapacityFor, Render, Holes, InsertPieces, ConflictPieces, ConflictHead, Concat, SetList, NonKey;
    ghost var whole := b.text + Render(d, bindCount, InsertPieces(s) + ConflictPieces(s));
    Peel(d, b.text, bindCount, InsertPieces(s), ConflictPieces(s), whole);
    ConflictDef(s);
    HolesJoin(InsertPieces(s), ConflictPieces(s));
    status, count := BuildInsert(b, s, d, bindCount);
    if status != Ok { return; }
    ConflictHeadText(d, count, KeyName(s));
    Peel(d, b.text, count, ConflictHead(KeyName(s)), SetList(NonKey(s)), whole);
    var ok := b.AppendAll([" ON CONFLICT(\"", KeyName(s), "\") DO UPDATE SET "]);
    if !ok { return NoMemory, count; }
    ok := AppendSets(b, s, d, count);
    return if ok then Ok else NoMemory, count;
  }

  function ConflictHead(key: string): seq<Piece> {
    [Space, Kw("ON"), Space, Kw("CONFLICT"), Sy('(')]
    + ([Id(key)] + [Sy(')'), Space, Kw("DO"), Space, Kw("UPDATE"), Space, Kw("SET"), Space])
  }

  lemma {:induction false} ConflictHeadText(d: Dialect, n: nat, key: string)
    ensures Render(d, n, ConflictHead(key)) == Concat([" ON CONFLICT(\"", key, "\") DO UPDATE SET "])
    ensures Holes(ConflictHead(key)) == 0
  {
    hide Render, Holes, Concat;
    OnConflictText(d, n);
    DoUpdateText(d, n);
    QuotedText(d, n, [Space, Kw("ON"), Space, Kw("CONFLICT"), Sy('(')], key,
               [Sy(')'), Space, Kw("DO"), Space, Kw("UPDATE"), Space, Kw("SET"), Space], " ON CONFLICT(\"",
                   "\") DO UPDATE SET ");
  }

  lemma {:induction false} SetListHoles(names: seq<string>)
    ensures Holes(SetList(names)) == 0
  {
    if names != [] {
      NoHoles(SetItem(names[0]));
      if |names| >= 2 {
        SetListHoles(names[1..]);
        HolesJoin([Sy(',')], SetList(names[1..]));
        HolesJoin(SetItem(names[0]), [Sy(',')] + SetList(names[1..]));
      }
    }
  }

  lemma {:induction false} ConflictDef(s: Schema)
    requires HasKey(s)
    ensures ConflictPieces(s) == ConflictHead(KeyName(s)) + SetList(NonKey(s)) && Holes(ConflictPieces(s)) == 0
  {
    hide Holes, SetList, NonKey;
    KwsThree();
    assert Kws(["ON"]) == [Kw("ON"), Space];
    NoHoles(ConflictHead(KeyName(s)));
    SetListHoles(NonKey(s));
    HolesJoin(ConflictHead(KeyName(s)), SetList(NonKey(s)));
  }

  lemma {:induction false} KwsThree()
    ensures Kws(["DO", "UPDATE", "SET"]) == [Kw("DO"), Space, Kw("UPDATE"), Space, Kw("SET"), Space]
  {
    assert ["DO", "UPDATE", "SET"][1..] == ["UPDATE", "SET"] && ["UPDATE", "SET"][1..] == ["SET"];
    assert Kws(["UPDATE", "SET"]) == [Kw("UPDATE"), Space] + Kws(["SET"]);
  }

  // ---- Queries with a condition ----------------------------------------------------------

  function FromHead(name: string): seq<Piece> {
    [Space, Kw("FROM"), Space] + ([Id(name)] + [])
  }

  method BuildSelect(b: Buf, s: Schema, cond: Option<Condition>, d: Dialect, bindCount: nat)
      returns (status: Status, count: nat)
    requires b.Valid()
    modifies b, b.data
    ensures b.Valid() && (fresh(b.data) || b.data == old(b.data))
    ensures Built(status, Known(Names(s), cond), b.limit, old(b.text), b.text, d, bindCount, count,
            SelectPieces(s, cond))
  {
    hide DoubleUntil, CapacityFor, Render, Holes, SelectPieces, NameList, WherePieces, FromHead, Concat, Known;
    count := bindCount;
    ghost var whole := b.text + Render(d, bindCount, SelectPieces(s, cond));
    ghost var head, names := [Kw("SELECT"), Space], NameList(Names(s));
    SelectParts(s, cond);
    SelectWordText(d, bindCount);
    Peel(d, b.text, bindCount, head, names + (FromHead(s.name) + WherePieces(cond)), whole);
    var ok := b.Append("SELECT ");
    if !ok { return NoMemory, count; }
    NameListHoles(Names(s));
    Peel(d, b.text, bindCount, names, FromHead(s.name) + WherePieces(cond), whole);
    ok := AppendNames(b, Names(s), d, bindCount);
    if !ok { return NoMemory, count; }
    FromHeadText(d, bindCount, s.name);
    HolesJoin(FromHead(s.name), WherePieces(cond));
    status, count := BuildHeaded(b, s, [" FROM \"", s.name, "\""], FromHead(s.name), cond, d, bindCount);
  }

  lemma {:induction false} FromHeadText(d: Dialect, n: nat, name: string)
    ensures Render(d, n, FromHead(name)) == Concat([" FROM \"", name, "\""]) && Holes(FromHead(name)) == 0
  {
    hide Concat;
    FromWordText(d, n);
    QuotedText(d, n, [Space, Kw("FROM"), Space], name, [], " FROM \"", "\"");
  }

  lemma {:induction false} SelectParts(s: Schema, cond: Option<Condition>)
    ensures SelectPieces(s, cond) ==
            [Kw("SELECT"), Space] + (NameList(Names(s)) + (FromHead(s.name) + WherePieces(cond)))
    ensures Holes(SelectPieces(s, cond)) == Holes(WherePieces(cond))
  {
    hide Holes, NameList, WherePieces;
    var names, from := NameList(Names(s)), FromHead(s.name);
    assert Kws(["FROM"]) == [Kw("FROM"), Space] && Kws(["SELECT"]) == [Kw("SELECT"), Space];
    assert [Space] + FromPieces(s.name, cond) == from + WherePieces(cond);
    NoHoles([Kw("SELECT"), Space]);
    NoHoles(from);
    NameListHoles(Names(s));
    HolesJoin(from, WherePieces(cond));
    HolesJoin(names, from + WherePieces(cond));
    HolesJoin([Kw("SELECT"), Space], names + (from + WherePieces(cond)));
  }

  /** A fixed head and then the WHERE clause. */
  method BuildHeaded(b: Buf, s: Schema, parts: seq<string>, ghost head: seq<Piece>, cond: Option<Condition>, d: Dialect,
      bindCount: nat)
      returns (status: Status, count: nat)
    requires b.Valid() && Render(d, bindCount, head) == Concat(parts) && Holes(head) == 0
    modifies b, b.data
    ensures b.Valid() && (fresh(b.data) || b.data == old(b.data))
    ensures Built(status, Known(Names(s), cond), b.limit, old(b.text), b.text, d, bindCount, count,
            head + WherePieces(cond))
  {
    hide DoubleUntil, CapacityFor, Render, Holes, WherePieces, Concat, Known;
    count := bindCount;
    Peel(d, b.text, bindCount, head, WherePieces(cond), b.text + Render(d, bindCount, head + WherePieces(cond)));
    HolesJoin(head, WherePieces(cond));
    var ok := b.AppendAll(parts);
    if !ok { return NoMemory, count; }
    status, count := BuildWhere(b, s, cond, d, bindCount);
  }

  method BuildCount(b: Buf, s: Schema, cond: Option<Condition>, d: Dialect, bindCount: nat)
      returns (status: Status, count: nat)
    requires b.Valid()
    modifies b, b.data
    ensures b.Valid() && (fresh(b.data) || b.data == old(b.data))
    ensures Built(status, Known(Names(s), cond), b.limit, old(b.text), b.text, d, bindCount, count,
            CountPieces(s, cond))
  {
    hide Render, Holes, WherePieces, Concat, Known, DoubleUntil;
    ghost var word := [Kw("SELECT"), Space, Kw("COUNT"), Sy('('), Sy('*'), Sy(')'), Space, Kw("FROM"), Space];
    ghost var head := word + ([Id(s.name)] + []);
    CountFromText(d, bindCount);
    RenderNone(d, bindCount, "\"");
    NoHoles([]);
    QuotedText(d, bindCount, word, s.name, [], "SELECT COUNT(*) FROM \"", "\"");
    assert Kws(["FROM"]) == [Kw("FROM"), Space] && Kws(["SELECT"]) == [Kw("SELECT"), Space];
    assert CountPieces(s, cond) == head + WherePieces(cond);
    status, count := BuildHeaded(b, s, ["SELECT COUNT(*) FROM \"", s.name, "\""], head, cond, d, bindCount);
  }

  method BuildDelete(b: Buf, s: Schema, cond: Option<Condition>, d: Dialect, bindCount: nat)
      returns (status: Status, count: nat)
    requires b.Valid()
    modifies b, b.data
    ensures b.Valid() && (fresh(b.data) || b.data == old(b.data))
    ensures Built(status, Known(Names(s), cond), b.limit, old(b.text), b.text, d, bindCount, count,
            DeletePieces(s, cond))
  {
    hide Render, Holes, WherePieces, Concat, Known, DoubleUntil;
    ghost var word := [Kw("DELETE"), Space, Kw("FROM"), Space];
    ghost var head := word + ([Id(s.name)] + []);
    DeleteFromText(d, bindCount);
    RenderNone(d, bindCount, "\"");
    NoHoles([]);
    QuotedText(d, bindCount, word, s.name, [], "DELETE FROM \"", "\"");
    KwsTwo("DELETE", "FROM");
    assert DeletePieces(s, cond) == head + WherePieces(cond);
    status, count := BuildHeaded(b, s, ["DELETE FROM \"", s.name, "\""], head, cond, d, bindCount);
  }

  method BuildSelectField(b: Buf, s: Schema, col: string, cond: Option<Condition>, d: Dialect, bindCount: nat)
      returns (status: Status, count: nat)
    requires b.Valid()
    modifies b, b.data
    ensures b.Valid() && (fresh(b.data) || b.data == old(b.data))
    ensures Built(status, col in Names(s) && Known(Names(s), cond), b.limit,
                  old(b.text), b.text, d, bindCount, count, FieldPieces(s, col, cond))
  {
    hide Render, Holes, WherePieces, Concat, Known, DoubleUntil;
    count := bindCount;
    var found := SchemaHasColumn(s, col);
    if !found { return UnknownColumn, count; }
    ghost var word, from := [Kw("SELECT"), Space], [Space, Kw("FROM"), Space];
    ghost var head := word + ([Id(col)] + (from + ([Id(s.name)] + [])));
    SelectQuoteText(d, bindCount);
    QuoteFromText(d, bindCount);
    RenderNone(d, bindCount, "\"");
    NoHoles([]);
    Quoted2Text(d, bindCount, word, col, from, s.name, [], "SELECT \"", "\" FROM \"", "\"");
    assert Kws(["FROM"]) == [Kw("FROM"), Space] && Kws(["SELECT"]) == [Kw("SELECT"), Space];
    assert FieldPieces(s, col, cond) == head + WherePieces(cond);
    status, count := BuildHeaded(b, s, ["SELECT \"", col, "\" FROM \"", s.name, "\""], head, cond, d, bindCount);
  }

  method BuildUpdateField(b: Buf, s: Schema, col: string, cond: Option<Condition>, d: Dialect, bindCount: nat)
      returns (status: Status, count: nat)
    requires b.Valid()
    modifies b, b.data
    ensures b.Valid() && (fresh(b.data) || b.data == old(b.data))
    ensures Built(status, col in Names(s) && Known(Names(s), cond), b.limit,
                  old(b.text), b.text, d, bindCount, count, UpdatePieces(s, col, cond))
  {
    hide DoubleUntil, CapacityFor, Render, Holes, UpdatePieces, UpdateHead, WherePieces, Concat, Known;
    count := bindCount;
    var found := SchemaHasColumn(s, col);
    if !found { return UnknownColumn, count; }
    ghost var whole := b.text + Render(d, bindCount, UpdatePieces(s, col, cond));
    UpdateParts(s, col, cond);
    UpdateHeadText(d, bindCount, s.name, col);
    Peel(d, b.text, bindCount, UpdateHead(s.name, col), [Hole] + WherePieces(cond), whole);
    var ok := b.AppendAll(["UPDATE \"", s.name, "\" SET \"", col, "\"="]);
    if !ok { return NoMemory, count; }
    Peel(d, b.text, bindCount, [Hole], WherePieces(cond), whole);
    ok, count := AppendPlaceholder(b, d, bindCount);
    if !ok { return NoMemory, count; }
    status, count := BuildWhere(b, s, cond, d, count);
  }

  function UpdateHead(name: string, col: string): seq<Piece> {
    [Kw("UPDATE"), Space] + ([Id(name)] + ([Space, Kw("SET"), Space] + ([Id(col)] + [Op(Eq)])))
  }

  lemma {:induction false} UpdateHeadText(d: Dialect, n: nat, name: string, col: string)
    ensures Render(d, n, UpdateHead(name, col)) == Concat(["UPDATE \"", name, "\" SET \"", col, "\"="])
    ensures Holes(UpdateHead(name, col)) == 0
  {
    hide Concat, Render, Holes;
    UpdateWordText(d, n);
    SetWordText(d, n);
    EqualsSignText(d, n);
    Quoted2Text(d, n, [Kw("UPDATE"), Space], name, [Space, Kw("SET"), Space], col, [Op(Eq)], "UPDATE \"", "\" SET \"",
        "\"=");
  }

  lemma {:induction false} UpdateParts(s: Schema, col: string, cond: Option<Condition>)
    ensures UpdatePieces(s, col, cond) == UpdateHead(s.name, col) + ([Hole] + WherePieces(cond))
    ensures Holes(UpdatePieces(s, col, cond)) == Holes([Hole]) + Holes(WherePieces(cond))
  {
    hide Holes, WherePieces;
    assert Kws(["UPDATE"]) == [Kw("UPDATE"), Space] && Kws(["SET"]) == [Kw("SET"), Space];
    assert UpdatePieces(s, col, cond) == UpdateHead(s.name, col) + ([Hole] + WherePieces(cond));
    NoHoles(UpdateHead(s.name, col));
    HolesJoin([Hole], WherePieces(cond));
    HolesJoin(UpdateHead(s.name, col), [Hole] + WherePieces(cond));
  }

  lemma {:induction false} QueryDef(s: Schema, q: Query)
    requires q.UpsertRow? ==> HasKey(s)
    ensures match q
            case InsertRow => KnownQuery(s, q) && QueryPieces(s, q) == InsertPieces(s)
            case UpsertRow => KnownQuery(s, q) && QueryPieces(s, q) == InsertPieces(s) + ConflictPieces(s)
            case SelectRows(cond) => KnownQuery(s, q) == Known(Names(s), cond)
                && QueryPieces(s, q) == SelectPieces(s, cond)
            case CountRows(cond) => KnownQuery(s, q) == Known(Names(s), cond)
                && QueryPieces(s, q) == CountPieces(s, cond)
            case DeleteRows(cond) => KnownQuery(s, q) == Known(Names(s), cond)
                && QueryPieces(s, q) == DeletePieces(s, cond)
            case UpdateField(col, cond) =>
              KnownQuery(s, q) == (col in Names(s) && Known(Names(s), cond))
                  && QueryPieces(s, q) == UpdatePieces(s, col, cond)
            case SelectField(col, cond) =>
              KnownQuery(s, q) == (col in Names(s) && Known(Names(s), cond))
                  && QueryPieces(s, q) == FieldPieces(s, col, cond)
  {
    hide InsertPieces, ConflictPieces, SelectPieces, CountPieces, DeletePieces, UpdatePieces, FieldPieces;
  }

  method BuildInto(b: Buf, d: Dialect, s: Schema, q: Query) returns (status: Status, count: nat)
    requires b.Valid() && (q.UpsertRow? ==> HasKey(s))
    modifies b, b.data
    ensures b.Valid()
    ensures Built(status, KnownQuery(s, q), b.limit, old(b.text), b.text, d, 0, count, QueryPieces(s, q))
  {
    QueryDef(s, q);
    hide Built, InsertPieces, ConflictPieces, SelectPieces, CountPieces, DeletePieces, UpdatePieces, FieldPieces, Known,
         KnownQuery, QueryPieces;
    match q {
      case InsertRow => status, count := BuildInsert(b, s, d, 0);
      case UpsertRow => status, count := BuildUpsert(b, s, d, 0);
      case SelectRows(cond) => status, count := BuildSelect(b, s, cond, d, 0);
      case CountRows(cond) => status, count := BuildCount(b, s, cond, d, 0);
      case DeleteRows(cond) => status, count := BuildDelete(b, s, cond, d, 0);
      case UpdateField(col, cond) => status, count := BuildUpdateField(b, s, col, cond, d, 0);
      case SelectField(col, cond) => status, count := BuildSelectField(b, s, col, cond, d, 0);
    }
  }

  /**
   * The entry point. With enough memory and no unknown column the result is the query's text and
   * the number of its placeholders; the two failures happen only otherwise.
   */
  method Build(d: Dialect, s: Schema, q: Query, limit: nat) returns (status: Status, sql: string, bindCount: nat)
    requires q.UpsertRow? ==> HasKey(s)
    ensures match status
            case Ok => KnownQuery(s, q) && CapacityFor(|QueryText(d, s, q)|) <= limit
                       && sql == QueryText(d, s, q) && bindCount == Holes(QueryPieces(s, q))
            case NoMemory => CapacityFor(|QueryText(d, s, q)|) > limit
            case UnknownColumn => !KnownQuery(s, q)
            case _ => false
  {
    hide DoubleUntil, Render, Holes, QueryPieces, KnownQuery;
    sql, bindCount := "", 0;
    if limit < INITIAL_CAPACITY { return NoMemory, sql, 0; }
    var b := new Buf(limit);
    status, bindCount := BuildInto(b, d, s, q);
    assert "" + Render(d, 0, QueryPieces(s, q)) == Render(d, 0, QueryPieces(s, q));
    if status == Ok {
      sql := b.data[..b.len];
    }
  }
}
