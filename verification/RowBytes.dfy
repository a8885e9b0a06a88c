/** A row as the bytes of a C struct: how each column type is laid out, and the NULL bitmap. */
module RowBytes {
  import opened Core
  import opened Bits

  // ---- Integers: little-endian two's complement ------------------------------------------

  function Pow256(k: nat): (p: nat)
    ensures p > 0
  {
    if k == 0 then 1 else 256 * Pow256(k - 1)
  }

  /** The low `k` bytes of `v`. */
  function Encode(k: nat, v: int): (b: seq<byte>)
    ensures |b| == k
  {
    if k == 0 then [] else [v % 256] + Encode(k - 1, v / 256)
  }

  function Unsigned(b: seq<byte>): (u: nat)
    ensures u < Pow256(|b|)
  {
    if b == [] then 0 else b[0] + 256 * Unsigned(b[1..])
  }

  function Signed(b: seq<byte>): int {
    var u := Unsigned(b);
    if 2 * u >= Pow256(|b|) then u - Pow256(|b|) else u
  }

  lemma {:induction false} EncodeUnsigned(b: seq<byte>, m: int)
    ensures Encode(|b|, Unsigned(b) + m * Pow256(|b|)) == b
  {
    if b != [] {
      var rest, p := b[1..], Pow256(|b| - 1);
      EncodeUnsigned(rest, m);
      var v := Unsigned(b) + m * Pow256(|b|);
      var w := Unsigned(rest) + m * p;
      assert m * (256 * p) == 256 * (m * p) by { Regroup(m, p); }
      assert v == b[0] + 256 * w;
      DivMod(v, b[0], w);
      hide Encode;
      assert Encode(|b|, v) == [v % 256] + Encode(|b| - 1, v / 256) by { EncodeStep(|b|, v); }
      assert b == [b[0]] + rest;
    }
  }

  lemma {:induction false} Regroup(m: int, p: int)
    ensures m * (256 * p) == 256 * (m * p)
  {
  }

  lemma {:induction false} EncodeStep(k: nat, v: int)
    requires k > 0
    ensures Encode(k, v) == [v % 256] + Encode(k - 1, v / 256)
  {
  }

  lemma {:induction false} DivMod(v: int, r: int, w: int)
    requires v == r + 256 * w && 0 <= r < 256
    ensures v % 256 == r && v / 256 == w
  {
  }

  /** Storing a loaded integer gives back its bytes. */
  lemma {:induction false} EncodeSigned(b: seq<byte>)
    ensures Encode(|b|, Signed(b)) == b
  {
    EncodeUnsigned(b, 0);
    EncodeUnsigned(b, -1);
  }

  /** Loading a stored integer gives back the integer modulo 256^k. */
  lemma {:induction false} UnsignedEncode(k: nat, v: int) returns (m: int)
    ensures Unsigned(Encode(k, v)) == v + m * Pow256(k)
  {
    if k == 0 {
      m := -v;
    } else {
      m := UnsignedEncode(k - 1, v / 256);
      var p := Pow256(k - 1);
      assert Encode(k, v)[1..] == Encode(k - 1, v / 256);
      assert m * (256 * p) == 256 * (m * p) by { Regroup(m, p); }
    }
  }

  /** A stored integer that fits is loaded as itself. */
  lemma {:induction false} SignedEncode(k: nat, v: int)
    requires k > 0 && 0 <= 2 * v + Pow256(k) < 2 * Pow256(k)
    ensures Signed(Encode(k, v)) == v
  {
    var m := UnsignedEncode(k, v);
    var p := Pow256(k);
    hide Encode, Unsigned, Pow256;
    Multiple(v, m, p);
  }

  lemma {:induction false} Multiple(v: int, m: int, p: int)
    requires p > 0 && -p <= 2 * v < p && 0 <= v + m * p < p
    ensures (v >= 0 && m == 0) || (v < 0 && m == 1)
  {
    assert m >= 2 ==> m * p >= 2 * p;
    assert m <= -1 ==> m * p <= -p;
  }

  // ---- NULL bitmap -----------------------------------------------------------------------

  function BitmapBytes(n: nat): nat { (n + 7) / 8 }

  /** The fewest bytes with a bit for each of `n` columns. */
  lemma {:induction false} BitmapBytesLeast(n: nat, k: nat)
    ensures n <= 8 * k <==> BitmapBytes(n) <= k
  {
  }

  /** A missing bitmap marks nothing. */
  predicate NullBit(bitmap: Option<seq<byte>>, i: nat)
    requires bitmap.Some? ==> i / 8 < |bitmap.value|
  {
    bitmap.Some? && BitAnd(ShiftRight(bitmap.value[i / 8], i % 8), 1) != 0
  }

  lemma {:induction false} ByteFits(a: byte, k: nat)
    requires k < 8
    ensures 0 <= BitOr(a, Pow2(k)) < 256
  {
    assert Pow2(8) == 256 by { PowEight(); }
    Pow2Monotone(k, 7);
    assert Pow2(7) == 128 by { PowEight(); }
    OrFits(a, Pow2(k), 8);
  }

  lemma {:induction false} PowEight()
    ensures Pow2(7) == 128 && Pow2(8) == 256
  {
    Pow2Add(4, 4);
    Pow2Add(4, 3);
    assert Pow2(4) == 2 * Pow2(3) && Pow2(3) == 2 * Pow2(2) && Pow2(2) == 4;
  }

  function WithBit(bitmap: seq<byte>, i: nat): (r: seq<byte>)
    requires i / 8 < |bitmap|
    ensures |r| == |bitmap|
  {
    ByteFits(bitmap[i / 8], i % 8);
    bitmap[i / 8 := BitOr(bitmap[i / 8], Pow2(i % 8))]
  }

  /** Setting a bit sets that one and no other. */
  lemma {:induction false} WithBitSets(bitmap: seq<byte>, i: nat, j: nat)
    requires i / 8 < |bitmap| && j / 8 < |bitmap|
    ensures NullBit(Some(WithBit(bitmap, i)), j) == (i == j || NullBit(Some(bitmap), j))
  {
    hide BitAnd, BitOr, ShiftRight, Pow2, BitAt;
    var r := WithBit(bitmap, i);
    ShiftReadsBit(r[j / 8], j % 8);
    ShiftReadsBit(bitmap[j / 8], j % 8);
    OrSetsOneBit(bitmap[i / 8], i % 8, j % 8);
    assert i == 8 * (i / 8) + i % 8 && j == 8 * (j / 8) + j % 8;
  }

  // ---- One column ------------------------------------------------------------------------

  const INT_MAX: nat := 0x7fff_ffff
  const INT32_MIN: int := -0x8000_0000
  const INT32_MAX: int := 0x7fff_ffff

  /** How many bytes of the struct a column's accesses touch. */
  function Width(col: Column): nat {
    match col.typ
    case Int32 => 4
    case Int64 => 8
    case Real => 8
    case Text => col.size
    case Blob => col.size
  }

  predicate InRow(col: Column, n: nat) { col.offset + Width(col) <= n }

  /** The bytes before the first NUL, at most `max` of them. */
  function UpToNul(b: seq<byte>, max: nat): (n: nat)
    requires max <= |b|
    ensures n <= max && (forall i :: 0 <= i < n ==> b[i] != 0) && (n < max ==> b[n] == 0)
  {
    if max == 0 || b[0] == 0 then 0
    else
      var n := UpToNul(b[1..], max - 1);
      assert forall i :: 1 <= i < n + 1 ==> b[i] == b[1..][i - 1];
      n + 1
  }

  /** The value a column of a struct holds. */
  function CellValue(col: Column, row: seq<byte>): Value
    requires InRow(col, |row|)
  {
    var b := row[col.offset..col.offset + Width(col)];
    match col.typ
    case Int32 => IntValue(Signed(b))
    case Int64 => IntValue(Signed(b))
    case Real => RealValue(b)
    case Text => TextValue(b[..Min(UpToNul(b, |b|), INT_MAX)])
    case Blob => BlobValue(b)
  }

  function AsInt(v: Value): int { if v.IntValue? then v.i else 0 }
  function AsReal(v: Value): (b: seq<byte>)
    ensures |b| == 8
  {
    if v.RealValue? && |v.bits| == 8 then v.bits else Encode(8, 0)
  }

  function AsBytes(v: Value): seq<byte> { if v.TextValue? then v.text else if v.BlobValue? then v.bytes else [] }

  /** The bytes that reading value `v` stores at the column's offset. */
  function CellBytes(col: Column, v: Value): (b: seq<byte>)
    ensures |b| <= Width(col)
  {
    match col.typ
    case Int32 => Encode(4, AsInt(v))
    case Int64 => Encode(8, AsInt(v))
    case Real => AsReal(v)
    case Text => if col.size == 0 then [] else AsBytes(v)[..Min(|AsBytes(v)|, col.size - 1)] + [0]
    case Blob => AsBytes(v)[..Min(|AsBytes(v)|, col.size)]
  }

  /** Whether that loses something. */
  predicate CellTruncated(col: Column, v: Value) {
    match col.typ
    case Int32 => !(INT32_MIN <= AsInt(v) <= INT32_MAX)
    case Int64 => false
    case Real => false
    case Text => |AsBytes(v)| + 1 > col.size
    case Blob => |AsBytes(v)| > col.size
  }

  /** Whether a TEXT member's buffer holds a terminator. */
  predicate Terminated(col: Column, row: seq<byte>)
    requires InRow(col, |row|)
  {
    var b := row[col.offset..col.offset + Width(col)];
    UpToNul(b, |b|) < |b|
  }

  /** Registration checks the integer sizes; the others are the caller's to declare right. */
  predicate ProperSize(col: Column) {
    match col.typ
    case Int32 => col.size == 4
    case Int64 => col.size == 8
    case Real => col.size == 8
    case _ => col.size <= INT_MAX
  }

  lemma {:induction false} SignedRange(b: seq<byte>)
    requires |b| == 4
    ensures INT32_MIN <= Signed(b) <= INT32_MAX
  {
    Pow256Values();
  }

  /**
   * One column's round trip. Integers, reals and blobs come back byte for byte; a terminated TEXT comes
   * back up to and with its terminator; an unterminated one loses its last byte to a terminator, with a warning.
   */
  lemma {:induction false} CellRoundTrip(col: Column, row: seq<byte>)
    requires InRow(col, |row|) && ProperSize(col)
    ensures var b := row[col.offset..col.offset + Width(col)];
            var v := CellValue(col, row);
            && v != NullValue
            && (col.typ != Text ==> CellBytes(col, v) == b && !CellTruncated(col, v))
            && (col.typ == Text && Terminated(col, row) ==>
                  CellBytes(col, v) == b[..UpToNul(b, |b|) + 1] && !CellTruncated(col, v))
            && (col.typ == Text && !Terminated(col, row) ==>
                  CellTruncated(col, v) && CellBytes(col, v) == if col.size == 0 then [] else b[..col.size - 1] + [0])
  {
    var b := row[col.offset..col.offset + Width(col)];
    hide UpToNul, Encode, Signed;
    if col.typ == Text {
      TextRoundTrip(col, b);
    } else {
      EncodeSigned(b);
      if col.typ == Int32 { SignedRange(b); }
    }
  }

  /** The TEXT that is bound: the bytes before the first NUL, as many as the member and a C int allow. */
  lemma {:induction false} TextBound(col: Column, row: seq<byte>)
    requires col.typ == Text && InRow(col, |row|)
    ensures var b, v := row[col.offset..col.offset + col.size], CellValue(col, row);
            && v.TextValue? && v.text <= b && |v.text| <= INT_MAX && 0 !in v.text
            && (|v.text| < |b| && |v.text| < INT_MAX ==> b[|v.text|] == 0)
  {
    hide UpToNul;
  }

  lemma {:induction false} TextRoundTrip(col: Column, b: seq<byte>)
    requires col.typ == Text && |b| == col.size <= INT_MAX
    ensures var n := UpToNul(b, |b|);
            var v := TextValue(b[..Min(n, INT_MAX)]);
            && (n < |b| ==> CellBytes(col, v) == b[..n + 1] && !CellTruncated(col, v))
            && (n == |b| ==> CellTruncated(col, v) && CellBytes(col, v) == if col.size == 0 then []
                else b[..col.size - 1] + [0])
  {
    hide UpToNul, Encode, Signed;
    var n := UpToNul(b, |b|);
    if n < |b| {
      assert b[..n + 1] == b[..n] + [0] && b[..n][..n] == b[..n];
    } else if col.size > 0 {
      assert b[..n][..col.size - 1] == b[..col.size - 1];
    }
  }

  // ---- Truncation ------------------------------------------------------------------------

  const INT64_MIN: int := -0x8000_0000_0000_0000
  const INT64_MAX: int := 0x7fff_ffff_ffff_ffff

  /** A value that a column of that type can hold in the database: integers have 64 bits, reals eight bytes. */
  predicate Storable(t: SqlType, v: Value) {
    match t
    case Int32 => v.IntValue? && INT64_MIN <= v.i <= INT64_MAX
    case Int64 => v.IntValue? && INT64_MIN <= v.i <= INT64_MAX
    case Real => v.RealValue? && |v.bits| == 8
    case Text => v.TextValue?
    case Blob => v.BlobValue?
  }

  /** The bytes of a struct member give the value back: what a C program reads off them is `v`. */
  predicate GivesBack(col: Column, member: seq<byte>, v: Value) {
    match v
    case NullValue => false
    case IntValue(i) => |member| == Width(col) && Signed(member) == i
    case RealValue(bits) => member == bits
    case TextValue(text) => text + [0] <= member
    case BlobValue(bytes) => bytes <= member
  }

  lemma {:induction false} Pow256Values()
    ensures Pow256(4) == 0x1_0000_0000 && Pow256(8) == 0x1_0000_0000_0000_0000
  {
    assert Pow256(2) == 256 * Pow256(1) == 65536;
    assert Pow256(4) == 256 * Pow256(3) && Pow256(3) == 256 * Pow256(2);
    assert Pow256(6) == 256 * Pow256(5) && Pow256(5) == 256 * Pow256(4);
    assert Pow256(8) == 256 * Pow256(7) && Pow256(7) == 256 * Pow256(6);
  }

  lemma {:induction false} IntGivesBack(col: Column, v: Value)
    requires (col.typ == Int32 || col.typ == Int64) && Storable(col.typ, v)
    ensures GivesBack(col, CellBytes(col, v), v) <==> !CellTruncated(col, v)
  {
    Pow256Values();
    var k := Width(col);
    hide Encode, Signed, Pow256;
    if 0 <= 2 * v.i + Pow256(k) < 2 * Pow256(k) {
      SignedEncode(k, v.i);
    } else {
      SignedRange(Encode(4, v.i));
    }
  }

  /**
   * A column is reported truncated exactly when the bytes stored do not give its value back, whatever its
   * member held before.
   */
  lemma {:induction false} TruncatedMeans(col: Column, v: Value, member: seq<byte>)
    requires Storable(col.typ, v) && |member| == Width(col) && CellBytes(col, v) <= member
    ensures CellTruncated(col, v) <==> !GivesBack(col, member, v)
  {
    hide Encode, Signed;
    if v.IntValue? || v.RealValue? {
      assert member == CellBytes(col, v);
    }
    if v.IntValue? {
      IntGivesBack(col, v);
    }
    if v.TextValue? && |v.text| < col.size {
      assert CellBytes(col, v) == v.text + [0];
    } else if v.BlobValue? && |v.bytes| <= col.size {
      assert CellBytes(col, v) == v.bytes;
    }
  }
}
