/** Binding a struct's members to a statement and reading a result row back into one. */
module RowMapping {
  import opened Core
  import opened Bits
  import opened LruSpec
  import opened Driving
  import opened RowBytes

  /** The caller's buffers cover what the schema's columns touch. */
  predicate RowFits(s: Schema, n: nat) {
    forall i :: 0 <= i < |s.cols| ==> InRow(s.cols[i], n)
  }

  predicate BitmapFits(s: Schema, bitmap: Option<seq<byte>>) {
    bitmap.Some? ==> BitmapBytes(|s.cols|) <= |bitmap.value|
  }

  /** No member is NULL whose column does not allow it. */
  predicate NullsAllowed(s: Schema, bitmap: Option<seq<byte>>)
    requires BitmapFits(s, bitmap)
  {
    forall i :: 0 <= i < |s.cols| && NullBit(bitmap, i) ==> s.cols[i].nullable
  }

  lemma {:induction false} ForbiddenNull(s: Schema, bitmap: Option<seq<byte>>)
    requires BitmapFits(s, bitmap)
    ensures NullsAllowed(s, bitmap) <==> !exists i :: 0 <= i < |s.cols| && NullBit(bitmap, i) && !s.cols[i].nullable
  {
  }

  /** The row a struct and its NULL bitmap stand for. */
  function RowValues(s: Schema, row: seq<byte>, bitmap: Option<seq<byte>>): (vals: Row)
    requires RowFits(s, |row|) && BitmapFits(s, bitmap)
    ensures |vals| == |s.cols|
    ensures forall i :: 0 <= i < |vals| ==> vals[i] == if NullBit(bitmap, i) then NullValue
            else CellValue(s.cols[i], row)
  {
    seq(|s.cols|, i requires 0 <= i < |s.cols| => if NullBit(bitmap, i) then NullValue else CellValue(s.cols[i], row))
  }

  method BoundedStrlen(b: seq<byte>, max: nat) returns (n: nat)
    requires max <= |b|
    ensures n == UpToNul(b, max)
  {
    n := 0;
    while n < max && b[n] != 0
      invariant n <= max && forall i :: 0 <= i < n ==> b[i] != 0
    {
      n := n + 1;
    }
  }

  /** What a binding of the columns from `i` on reports, with `n` placeholders to bind to. */
  function BindStatus(s: Schema, bitmap: Option<seq<byte>>, d: Dialect, n: nat, i: nat): Status
    requires BitmapFits(s, bitmap) && i <= |s.cols|
    decreases |s.cols| - i
  {
    if i == |s.cols| then Ok
    else if NullBit(bitmap, i) && !s.cols[i].nullable then NotNullViolation
    else if i >= n then BadIndex(d)
    else BindStatus(s, bitmap, d, n, i + 1)
  }

  /** With a placeholder per column, binding fails exactly on a NULL that is not allowed. */
  lemma {:induction false} BindStatusMeans(s: Schema, bitmap: Option<seq<byte>>, d: Dialect, n: nat, i: nat)
    requires BitmapFits(s, bitmap) && i <= |s.cols| <= n
    requires forall j :: 0 <= j < i && NullBit(bitmap, j) ==> s.cols[j].nullable
    ensures BindStatus(s, bitmap, d, n, i) == if NullsAllowed(s, bitmap) then Ok else NotNullViolation
    decreases |s.cols| - i
  {
    hide NullBit;
    if i < |s.cols| && !(NullBit(bitmap, i) && !s.cols[i].nullable) {
      BindStatusMeans(s, bitmap, d, n, i + 1);
    }
  }

  method BindOne(drv: Driver, id: StmtId, index: nat, col: Column, row: seq<byte>) returns (status: Status)
    requires drv.Valid() && id in drv.stmts && drv.stmts[id].cursor.None? && InRow(col, |row|)
    modifies drv`stmts
    ensures drv.Valid()
    ensures var st := old(drv.stmts)[id];
            && status == (if 1 <= index <= |st.binds| then Ok else BadIndex(drv.dialect))
            && drv.stmts == if status == Ok
                then old(drv.stmts)[id := st.(binds := st.binds[index - 1 := CellValue(col, row)])]
                            else old(drv.stmts)
  {
    hide Signed, UpToNul;
    var base := row[col.offset..];
    assert base[..Width(col)] == row[col.offset..col.offset + Width(col)];
    match col.typ
    case Int32 => status := drv.Bind(id, index, IntValue(Signed(base[..4])));
    case Int64 => status := drv.Bind(id, index, IntValue(Signed(base[..8])));
    case Real => status := drv.Bind(id, index, RealValue(base[..8]));
    case Text =>
      var b := base[..col.size];
      var n := BoundedStrlen(b, col.size);
      if n > INT_MAX { n := INT_MAX; }
      status := drv.Bind(id, index, TextValue(b[..n]));
    case Blob => status := drv.Bind(id, index, BlobValue(base[..col.size]));
  }

  lemma {:induction false} PatchNext(vals: Row, first: Row, i: nat)
    requires i < |vals| && i <= |first|
    ensures i < |first| ==> vals[..i + 1] + first[i + 1..] == (vals[..i] + first[i..])[i := vals[i]]
  {
  }

  /** Binds every column in order; a forbidden NULL stops it before the statement could run. */
  method BindRow(drv: Driver, id: StmtId, s: Schema, row: seq<byte>, bitmap: Option<seq<byte>>) returns (status: Status)
    requires drv.Valid() && id in drv.stmts && drv.stmts[id].cursor.None?
    requires RowFits(s, |row|) && BitmapFits(s, bitmap)
    modifies drv`stmts
    ensures drv.Valid()
    ensures status == BindStatus(s, bitmap, drv.dialect, |old(drv.stmts)[id].binds|, 0)
    ensures id in drv.stmts
    ensures var st := old(drv.stmts)[id];
            && drv.stmts == old(drv.stmts)[id := st.(binds := drv.stmts[id].binds)]
            && |drv.stmts[id].binds| == |st.binds|
            && (status == Ok ==>
                |s.cols| <= |st.binds| && drv.stmts[id].binds == RowValues(s, row, bitmap) + st.binds[|s.cols|..])
  {
    hide NullBit, CellValue, RowValues;
    ghost var was := drv.stmts;
    ghost var vals, first := RowValues(s, row, bitmap), was[id].binds;
    assert vals[..0] + first[0..] == first;
    for i := 0 to |s.cols|
      invariant drv.Valid() && id in drv.stmts && i <= |first|
      invariant drv.stmts == was[id := was[id].(binds := vals[..i] + first[i..])]
      invariant BindStatus(s, bitmap, drv.dialect, |first|, 0) == BindStatus(s, bitmap, drv.dialect, |first|, i)
    {
      PatchNext(vals, first, i);
      if NullBit(bitmap, i) {
        if !s.cols[i].nullable { return NotNullViolation; }
        status := drv.Bind(id, i + 1, NullValue);
        if status != Ok { return; }
      } else {
        status := BindOne(drv, id, i + 1, s.cols[i], row);
        if status != Ok { return; }
      }
    }
    assert vals[..|s.cols|] == vals;
    return Ok;
  }

  // ---- Reading ---------------------------------------------------------------------------

  function Splice(buf: seq<byte>, at: nat, b: seq<byte>): (r: seq<byte>)
    requires at + |b| <= |buf|
    ensures |r| == |buf|
    ensures forall p :: 0 <= p < |r| ==> r[p] == if at <= p < at + |b| then b[p - at] else buf[p]
  {
    buf[..at] + b + buf[at + |b|..]
  }

  /** The buffer after reading the first `i` columns of a result row. */
  function ReadUpTo(s: Schema, vals: Row, i: nat, buf: seq<byte>): (r: seq<byte>)
    requires i <= |s.cols| <= |vals| && RowFits(s, |buf|)
    ensures |r| == |buf|
  {
    if i == 0 then buf
    else
      var b := ReadUpTo(s, vals, i - 1, buf);
      if vals[i - 1] == NullValue then b else Splice(b, s.cols[i - 1].offset, CellBytes(s.cols[i - 1], vals[i - 1]))
  }

  /** The NULL bitmap after the first `i` columns: bits are set and never cleared. */
  function NullsUpTo(vals: Row, i: nat, bitmap: seq<byte>): (r: seq<byte>)
    requires i <= |vals| && BitmapBytes(i) <= |bitmap|
    ensures |r| == |bitmap|
  {
    if i == 0 then bitmap
    else
      var b := NullsUpTo(vals, i - 1, bitmap);
      if vals[i - 1] == NullValue then WithBit(b, i - 1) else b
  }

  predicate Truncates(s: Schema, vals: Row, i: nat)
    requires i < |s.cols| <= |vals|
  {
    vals[i] != NullValue && CellTruncated(s.cols[i], vals[i])
  }

  /** A warning exactly when some column lost something. */
  function ReadStatus(s: Schema, vals: Row): (status: Status)
    requires |s.cols| <= |vals|
    ensures status == Ok || status == WarnTruncated
  {
    if exists i :: 0 <= i < |s.cols| && Truncates(s, vals, i) then WarnTruncated else Ok
  }

  method ReadOne(col: Column, v: Value, out: array<byte>) returns (truncated: bool)
    requires InRow(col, out.Length)
    modifies out
    ensures truncated == CellTruncated(col, v)
    ensures out[..] == Splice(old(out[..]), col.offset, CellBytes(col, v))
  {
    hide Encode, Splice;
    match col.typ {
      case Int32 =>
        var i := AsInt(v);
        truncated := i < INT32_MIN || i > INT32_MAX;
        Store(out, col.offset, Encode(4, i));
      case Int64 =>
        Store(out, col.offset, Encode(8, AsInt(v)));
        truncated := false;
      case Real =>
        Store(out, col.offset, AsReal(v));
        truncated := false;
      case Text =>
        var text := AsBytes(v);
        if col.size == 0 {
          NoSplice(out[..], col.offset);
          return true;
        }
        StoreText(out, col.offset, text[..Min(|text|, col.size - 1)]);
        truncated := |text| > col.size - 1;
      case Blob =>
        var bytes := AsBytes(v);
        Store(out, col.offset, bytes[..Min(|bytes|, col.size)]);
        truncated := |bytes| > col.size;
    }
  }

  /** memcpy into the row. */
  method Store(out: array<byte>, at: nat, b: seq<byte>)
    requires at + |b| <= out.Length
    modifies out
    ensures out[..] == Splice(old(out[..]), at, b)
  {
    forall i | 0 <= i < |b| { out[at + i] := b[i]; }
  }

  lemma {:induction false} NoSplice(buf: seq<byte>, at: nat)
    requires at <= |buf|
    ensures Splice(buf, at, []) == buf
  {
  }

  /** The text and its terminator. */
  method StoreText(out: array<byte>, at: nat, text: seq<byte>)
    requires at + |text| + 1 <= out.Length
    modifies out
    ensures out[..] == Splice(old(out[..]), at, text + [0])
  {
    forall i | 0 <= i < |text| { out[at + i] := text[i]; }
    out[at + |text|] := 0;
  }

  /** Reads the current row of a statement into a struct and, when there is one, a NULL bitmap. */
  method ReadRow(drv: Driver, id: StmtId, s: Schema, out: array<byte>, nulls: array?<byte>) returns (status: Status)
    requires id in drv.stmts && drv.stmts[id].cursor.Some?
    requires var c := drv.stmts[id].cursor.value; c.pos < |c.rows| && |s.cols| <= |c.rows[c.pos]|
    requires RowFits(s, out.Length) && out != nulls && (nulls != null ==> BitmapBytes(|s.cols|) <= nulls.Length)
    modifies out, nulls
    ensures var c := drv.stmts[id].cursor.value;
            && status == ReadStatus(s, c.rows[c.pos])
            && out[..] == ReadUpTo(s, c.rows[c.pos], |s.cols|, old(out[..]))
            && (nulls != null ==> nulls[..] == NullsUpTo(c.rows[c.pos], |s.cols|, old(nulls[..])))
  {
    hide CellTruncated, CellBytes, WithBit, BitOr, Splice;
    ghost var vals := drv.stmts[id].cursor.value.rows[drv.stmts[id].cursor.value.pos];
    var truncated := false;
    for i := 0 to |s.cols|
      invariant truncated == exists j :: 0 <= j < i && Truncates(s, vals, j)
      invariant out[..] == ReadUpTo(s, vals, i, old(out[..]))
      invariant nulls != null ==> nulls[..] == NullsUpTo(vals, i, old(nulls[..]))
    {
      var v := drv.ColumnValue(id, i);
      if v == NullValue {
        if nulls != null { SetNullBit(nulls, i); }
      } else {
        var t := ReadOne(s.cols[i], v, out);
        if t { truncated := true; }
      }
      assert Truncates(s, vals, i) == (v != NullValue && CellTruncated(s.cols[i], v));
    }
    return if truncated then WarnTruncated else Ok;
  }

  method SetNullBit(nulls: array<byte>, i: nat)
    requires i / 8 < nulls.Length
    modifies nulls
    ensures nulls[..] == WithBit(old(nulls[..]), i)
  {
    hide BitOr, Pow2;
    ByteFits(nulls[i / 8], i % 8);
    nulls[i / 8] := BitOr(nulls[i / 8], Pow2(i % 8));
  }

  // ---- What reading leaves alone ---------------------------------------------------------

  /** Whether reading `vals` stores to byte `p` through column `j`. */
  predicate Touches(s: Schema, vals: Row, j: nat, p: nat)
    requires j < |s.cols| <= |vals|
  {
    vals[j] != NullValue && s.cols[j].offset <= p < s.cols[j].offset + |CellBytes(s.cols[j], vals[j])|
  }

  /** Bytes that belong to no column, or only to NULL columns, keep their value. */
  lemma {:induction false} ReadOutside(s: Schema, vals: Row, i: nat, buf: seq<byte>, p: nat)
    requires i <= |s.cols| <= |vals| && RowFits(s, |buf|) && p < |buf|
    requires forall j :: 0 <= j < i ==> !Touches(s, vals, j, p)
    ensures ReadUpTo(s, vals, i, buf)[p] == buf[p]
  {
    hide CellBytes;
    if i > 0 {
      ReadOutside(s, vals, i - 1, buf, p);
      assert !Touches(s, vals, i - 1, p);
    }
  }

  /** No two columns share a byte. */
  predicate DisjointColumns(s: Schema) {
    forall i, j :: 0 <= i < j < |s.cols| ==>
      s.cols[i].offset + Width(s.cols[i]) <= s.cols[j].offset || s.cols[j].offset + Width(s.cols[j]) <= s.cols[i].offset
  }

  lemma {:induction false} TouchedOnce(s: Schema, vals: Row, i: nat, j: nat, p: nat)
    requires i < |s.cols| <= |vals| && j < |s.cols| && i != j && DisjointColumns(s)
    requires s.cols[j].offset <= p < s.cols[j].offset + Width(s.cols[j])
    ensures !Touches(s, vals, i, p)
  {
    hide CellBytes;
  }

  /** With disjoint columns, what one column stores stays. */
  lemma {:induction false} ReadInside(s: Schema, vals: Row, i: nat, buf: seq<byte>, j: nat, p: nat)
    requires j < i <= |s.cols| <= |vals| && RowFits(s, |buf|) && p < |buf| && DisjointColumns(s)
    requires Touches(s, vals, j, p)
    ensures ReadUpTo(s, vals, i, buf)[p] == CellBytes(s.cols[j], vals[j])[p - s.cols[j].offset]
  {
    hide CellBytes;
    if i - 1 > j {
      ReadInside(s, vals, i - 1, buf, j, p);
      TouchedOnce(s, vals, i - 1, j, p);
    }
  }

  /** The bits of NULL columns are set, and no bit is cleared. */
  lemma {:induction false} NullBitsRead(vals: Row, i: nat, bitmap: seq<byte>, k: nat)
    requires i <= |vals| && BitmapBytes(i) <= |bitmap| && k / 8 < |bitmap|
    ensures NullBit(Some(NullsUpTo(vals, i, bitmap)), k) ==
            (NullBit(Some(bitmap), k) || (k < i && vals[k] == NullValue))
  {
    hide NullBit, WithBit;
    if i > 0 {
      NullBitsRead(vals, i - 1, bitmap, k);
      if vals[i - 1] == NullValue {
        WithBitSets(NullsUpTo(vals, i - 1, bitmap), i - 1, k);
      }
    }
  }

  /** A TEXT member that is read always ends inside its buffer. */
  lemma {:induction false} TextEnds(s: Schema, vals: Row, buf: seq<byte>, j: nat)
    requires j < |s.cols| <= |vals| && RowFits(s, |buf|) && DisjointColumns(s)
    requires s.cols[j].typ == Text && s.cols[j].size > 0 && vals[j] != NullValue
    ensures var n := Min(|AsBytes(vals[j])|, s.cols[j].size - 1);
            s.cols[j].offset + n < |buf| && ReadUpTo(s, vals, |s.cols|, buf)[s.cols[j].offset + n] == 0
  {
    var n := Min(|AsBytes(vals[j])|, s.cols[j].size - 1);
    var p := s.cols[j].offset + n;
    assert CellBytes(s.cols[j], vals[j])[n] == 0 && |CellBytes(s.cols[j], vals[j])| == n + 1;
    assert InRow(s.cols[j], |buf|);
    ReadInside(s, vals, |s.cols|, buf, j, p);
  }

  // ---- Round trip ------------------------------------------------------------------------

  /** What is read back of column `j`, from its offset on: the bytes stored and then those there were. */
  lemma {:induction false} ReadColumn(s: Schema, vals: Row, buf: seq<byte>, j: nat)
    requires j < |s.cols| <= |vals| && RowFits(s, |buf|) && DisjointColumns(s)
    ensures InRow(s.cols[j], |buf|)
    ensures var col := s.cols[j];
            var b := if vals[j] == NullValue then [] else CellBytes(col, vals[j]);
            var end := col.offset + Width(col);
            ReadUpTo(s, vals, |s.cols|, buf)[col.offset..end] == b + buf[col.offset + |b|..end]
  {
    hide CellBytes, ReadUpTo;
    var col := s.cols[j];
    var b := if vals[j] == NullValue then [] else CellBytes(col, vals[j]);
    assert InRow(col, |buf|);
    forall p | col.offset <= p < col.offset + Width(col)
      ensures ReadUpTo(s, vals, |s.cols|, buf)[p] == (b + buf[col.offset + |b|..])[p - col.offset]
    {
      if Touches(s, vals, j, p) {
        ReadInside(s, vals, |s.cols|, buf, j, p);
      } else {
        forall i | 0 <= i < |s.cols| && i != j ensures !Touches(s, vals, i, p) { TouchedOnce(s, vals, i, j, p); }
        ReadOutside(s, vals, |s.cols|, buf, p);
      }
    }
  }

  /** The member of column `j` in a struct. */
  function Member(s: Schema, buf: seq<byte>, j: nat): (m: seq<byte>)
    requires j < |s.cols| && RowFits(s, |buf|)
    ensures |m| == Width(s.cols[j])
  {
    assert InRow(s.cols[j], |buf|);
    buf[s.cols[j].offset..s.cols[j].offset + Width(s.cols[j])]
  }

  /** Every value is NULL or one the column can hold in the database. */
  predicate StorableRow(s: Schema, vals: Row) {
    |s.cols| <= |vals| && forall j :: 0 <= j < |s.cols| ==> vals[j] == NullValue || Storable(s.cols[j].typ, vals[j])
  }

  /** Column `j` is there to be read off the struct, unless it is NULL. */
  predicate CameOut(s: Schema, vals: Row, buf: seq<byte>, j: nat)
    requires j < |s.cols| <= |vals| && RowFits(s, |buf|)
  {
    vals[j] == NullValue || GivesBack(s.cols[j], Member(s, buf, j), vals[j])
  }

  lemma {:induction false} CameOutMeans(s: Schema, vals: Row, buf: seq<byte>, j: nat)
    requires StorableRow(s, vals) && RowFits(s, |buf|) && DisjointColumns(s) && j < |s.cols|
    ensures CameOut(s, vals, ReadUpTo(s, vals, |s.cols|, buf), j) <==> !Truncates(s, vals, j)
  {
    hide CellBytes, ReadUpTo, GivesBack, CellTruncated, Storable, DisjointColumns;
    ReadColumn(s, vals, buf, j);
    if vals[j] != NullValue {
      TruncatedMeans(s.cols[j], vals[j], Member(s, ReadUpTo(s, vals, |s.cols|, buf), j));
    }
  }

  /** Every value that is not NULL can be read off the struct. */
  predicate AllOut(s: Schema, vals: Row, buf: seq<byte>)
    requires |s.cols| <= |vals| && RowFits(s, |buf|)
  {
    forall j :: 0 <= j < |s.cols| ==> CameOut(s, vals, buf, j)
  }

  /** There is a warning exactly when some value that is not NULL cannot be read off the struct afterwards. */
  lemma {:induction false} ReadStatusMeans(s: Schema, vals: Row, buf: seq<byte>)
    requires StorableRow(s, vals) && RowFits(s, |buf|) && DisjointColumns(s)
    ensures ReadStatus(s, vals) == if AllOut(s, vals, ReadUpTo(s, vals, |s.cols|, buf)) then Ok else WarnTruncated
  {
    hide ReadUpTo, CameOut, Truncates, DisjointColumns;
    var back := ReadUpTo(s, vals, |s.cols|, buf);
    forall j | 0 <= j < |s.cols| ensures CameOut(s, vals, back, j) <==> !Truncates(s, vals, j) {
      CameOutMeans(s, vals, buf, j);
    }
  }

  ghost predicate ProperSchema(s: Schema) {
    DisjointColumns(s) && forall i :: 0 <= i < |s.cols| ==> ProperSize(s.cols[i])
  }

  /** A non-NULL TEXT member without a terminator in its buffer. */
  predicate Unterminated(s: Schema, row: seq<byte>, bitmap: Option<seq<byte>>, j: nat)
    requires j < |s.cols| && RowFits(s, |row|) && BitmapFits(s, bitmap)
  {
    !NullBit(bitmap, j) && s.cols[j].typ == Text && !Terminated(s.cols[j], row)
  }

  /** The bytes column `j` comes back as, from its offset on. */
  ghost function CameBack(col: Column, row: seq<byte>): seq<byte>
    requires InRow(col, |row|)
  {
    var b := row[col.offset..col.offset + Width(col)];
    if col.typ != Text then b
    else if Terminated(col, row) then b[..UpToNul(b, |b|) + 1]
    else if col.size == 0 then []
    else b[..col.size - 1] + [0]
  }

  lemma {:induction false} CameBackBytes(col: Column, row: seq<byte>)
    requires InRow(col, |row|) && ProperSize(col)
    ensures CellBytes(col, CellValue(col, row)) == CameBack(col, row)
    ensures CellValue(col, row) != NullValue
    ensures CellTruncated(col, CellValue(col, row)) == (col.typ == Text && !Terminated(col, row))
  {
    CellRoundTrip(col, row);
  }

  /**
   * Binding a struct and reading the row back: every non-NULL column comes back, NULL columns leave
   * the buffer alone and set their bits, and there is a warning exactly when a TEXT had no terminator.
   */
  lemma {:induction false} RowRoundTrip(s: Schema, row: seq<byte>, bitmap: Option<seq<byte>>, buf: seq<byte>,
      nulls: seq<byte>, j: nat)
    requires ProperSchema(s) && RowFits(s, |row|) && BitmapFits(s, bitmap) && RowFits(s, |buf|)
    requires BitmapBytes(|s.cols|) <= |nulls| && j < |s.cols|
    ensures InRow(s.cols[j], |buf|) && InRow(s.cols[j], |row|)
    ensures var vals, col := RowValues(s, row, bitmap), s.cols[j];
            var back, end := ReadUpTo(s, vals, |s.cols|, buf), col.offset + Width(col);
            var b := if NullBit(bitmap, j) then [] else CameBack(col, row);
            |b| <= Width(col) && back[col.offset..end] == b + buf[col.offset + |b|..end]
    ensures NullBit(Some(NullsUpTo(RowValues(s, row, bitmap), |s.cols|, nulls)), j) ==
            (NullBit(Some(nulls), j) || NullBit(bitmap, j))
    ensures ReadStatus(s, RowValues(s, row, bitmap)) ==
            if exists i :: 0 <= i < |s.cols| && Unterminated(s, row, bitmap, i) then WarnTruncated else Ok
  {
    hide NullBit, CellBytes, CellValue, CellTruncated, CameBack, Terminated, ReadUpTo, NullsUpTo, DisjointColumns;
    var vals := RowValues(s, row, bitmap);
    assert InRow(s.cols[j], |buf|) && InRow(s.cols[j], |row|);
    forall i | 0 <= i < |s.cols| ensures Truncates(s, vals, i) == Unterminated(s, row, bitmap, i) {
      assert InRow(s.cols[i], |row|);
      CameBackBytes(s.cols[i], row);
    }
    CameBackBytes(s.cols[j], row);
    ReadColumn(s, vals, buf, j);
    NullBitsRead(vals, |s.cols|, nulls, j);
  }

  // ---- Reading through a temporary row ---------------------------------------------------

  function Zeros(n: nat): (z: seq<byte>)
    ensures |z| == n && forall i :: 0 <= i < n ==> z[i] == 0
  {
    seq(n, _ => 0)
  }

  /** Where the last column ends, going by the declared sizes. */
  function RowEnd(s: Schema, i: nat): (n: nat)
    requires i <= |s.cols|
    ensures forall j :: 0 <= j < i ==> s.cols[j].offset + s.cols[j].size <= n
  {
    if i == 0 then 0 else Max(RowEnd(s, i - 1), s.cols[i - 1].offset + s.cols[i - 1].size)
  }

  /** It is the end of some column. */
  lemma {:induction false} RowEndReached(s: Schema) returns (j: nat)
    requires s.cols != []
    ensures j < |s.cols| && s.cols[j].offset + s.cols[j].size == RowEnd(s, |s.cols|)
  {
    j := RowEndWithin(s, |s.cols|);
  }

  lemma {:induction false} RowEndWithin(s: Schema, i: nat) returns (j: nat)
    requires 0 < i <= |s.cols|
    ensures j < i && s.cols[j].offset + s.cols[j].size == RowEnd(s, i)
  {
    j := i - 1;
    if i > 1 && RowEnd(s, i) == RowEnd(s, i - 1) {
      j := RowEndWithin(s, i - 1);
    }
  }

  /** The declared sizes cover what is stored; registration checks this for integers only. */
  predicate SizesCover(s: Schema) {
    forall i :: 0 <= i < |s.cols| ==> Width(s.cols[i]) <= s.cols[i].size
  }

  function OrBytes(a: seq<byte>, b: seq<byte>): (r: seq<byte>)
    requires |b| <= |a|
    ensures |r| == |a|
  {
    seq(|a|, i requires 0 <= i < |a| => if i < |b| then OrByte(a[i], b[i]) else a[i])
  }

  function OrByte(a: byte, b: byte): byte {
    PowEight();
    OrFits(a, b, 8);
    BitOr(a, b)
  }

  lemma {:induction false} OrBytesBit(a: seq<byte>, b: seq<byte>, k: nat)
    requires |b| <= |a| && k / 8 < |b|
    ensures NullBit(Some(OrBytes(a, b)), k) == (NullBit(Some(a), k) || NullBit(Some(b), k))
  {
    hide BitAnd, BitOr, ShiftRight, BitAt;
    ShiftReadsBit(OrBytes(a, b)[k / 8], k % 8);
    ShiftReadsBit(a[k / 8], k % 8);
    ShiftReadsBit(b[k / 8], k % 8);
    OrBits(a[k / 8], b[k / 8], k % 8);
  }

  lemma {:induction false} ZeroBit(n: nat, k: nat)
    requires k / 8 < n
    ensures !NullBit(Some(Zeros(n)), k)
  {
    hide BitAnd, ShiftRight;
    ShiftReadsBit(0, k % 8);
    BitAtZero(k % 8);
  }

  /** The caller's buffers after a single-row read: the row is copied whole, the NULL bits are added. */
  function CopiedRow(s: Schema, vals: Row, out: seq<byte>): (r: seq<byte>)
    requires |s.cols| <= |vals| && SizesCover(s) && RowEnd(s, |s.cols|) <= |out|
    ensures |r| == |out|
  {
    ReadUpTo(s, vals, |s.cols|, Zeros(RowEnd(s, |s.cols|))) + out[RowEnd(s, |s.cols|)..]
  }

  function CopiedNulls(s: Schema, vals: Row, nulls: seq<byte>): (r: seq<byte>)
    requires |s.cols| <= |vals| && BitmapBytes(|s.cols|) <= |nulls|
    ensures |r| == |nulls|
  {
    OrBytes(nulls, NullsUpTo(vals, |s.cols|, Zeros(BitmapBytes(|s.cols|))))
  }

  /** Adding the temporary bitmap is the same as reading into the caller's. */
  lemma {:induction false} CopiedNullBit(s: Schema, vals: Row, nulls: seq<byte>, k: nat)
    requires |s.cols| <= |vals| && BitmapBytes(|s.cols|) <= |nulls| && k < |s.cols|
    ensures NullBit(Some(CopiedNulls(s, vals, nulls)), k) == NullBit(Some(NullsUpTo(vals, |s.cols|, nulls)), k)
  {
    hide NullBit, NullsUpTo;
    var n := BitmapBytes(|s.cols|);
    OrBytesBit(nulls, NullsUpTo(vals, |s.cols|, Zeros(n)), k);
    NullBitsRead(vals, |s.cols|, Zeros(n), k);
    NullBitsRead(vals, |s.cols|, nulls, k);
    ZeroBit(n, k);
  }

  method RowSize(s: Schema) returns (n: nat)
    ensures n == RowEnd(s, |s.cols|)
  {
    n := 0;
    for i := 0 to |s.cols|
      invariant n == RowEnd(s, i)
    {
      var end := s.cols[i].offset + s.cols[i].size;
      if end > n { n := end; }
    }
  }

  method OrInto(nulls: array<byte>, tmp: array<byte>)
    requires tmp.Length <= nulls.Length && nulls != tmp
    modifies nulls
    ensures nulls[..] == OrBytes(old(nulls[..]), tmp[..])
  {
    hide OrByte;
    for i := 0 to tmp.Length
      invariant forall j :: 0 <= j < nulls.Length ==> nulls[j] == if j < i then OrByte(old(nulls[j]), tmp[j])
                else old(nulls[j])
    {
      nulls[i] := OrByte(nulls[i], tmp[i]);
    }
  }

  /** A single-row read does overwrite the members of NULL columns: they come back as zeros. */
  lemma {:induction false} NullMemberZeroed(s: Schema, vals: Row, out: seq<byte>, j: nat)
    requires j < |s.cols| <= |vals| && SizesCover(s) && RowEnd(s, |s.cols|) <= |out| && DisjointColumns(s)
    requires vals[j] == NullValue
    ensures var a, z := s.cols[j].offset, s.cols[j].offset + Width(s.cols[j]);
            z <= |out| && CopiedRow(s, vals, out)[a..z] == Zeros(Width(s.cols[j]))
    ensures var a, z := s.cols[j].offset, s.cols[j].offset + Width(s.cols[j]);
            CopiedRow(s, vals, out)[a..z] == out[a..z] <==> out[a..z] == Zeros(Width(s.cols[j]))
  {
    var n := RowEnd(s, |s.cols|);
    var a, z := s.cols[j].offset, s.cols[j].offset + Width(s.cols[j]);
    hide ReadUpTo, RowEnd;
    ReadColumn(s, vals, Zeros(n), j);
    assert CopiedRow(s, vals, out)[a..z] == ReadUpTo(s, vals, |s.cols|, Zeros(n))[a..z];
    assert [] + Zeros(n)[a..z] == Zeros(z - a);
  }
}
