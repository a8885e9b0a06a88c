/** A batch of structs as the single writes it stands for. */
module Batches {
  import opened Core
  import opened SqlStatements
  import opened Queries
  import opened SqlEngine
  import opened TableSpec
  import opened RowBytes
  import opened RowMapping
  import opened ApiSpec
  import opened TxSpec
  import opened Runs
  import opened RunMeaning

  // ---- Arrays of structs -----------------------------------------------------------------

  function Flat(parts: seq<seq<byte>>): seq<byte> {
    if parts == [] then [] else parts[0] + Flat(parts[1..])
  }

  predicate Uniform(parts: seq<seq<byte>>, n: nat) {
    forall i :: 0 <= i < |parts| ==> |parts[i]| == n
  }

  /** Part `i` of an array lies `i` strides in. */
  lemma {:induction false} FlatAt(parts: seq<seq<byte>>, n: nat, i: nat)
    requires Uniform(parts, n) && i < |parts|
    ensures i * n + n <= |Flat(parts)| && parts[i] <= Flat(parts)[i * n..]
    decreases |parts|
  {
    if i > 0 {
      FlatAt(parts[1..], n, i - 1);
      assert (i - 1) * n == i * n - n;
      assert Flat(parts)[i * n..] == Flat(parts[1..])[(i - 1) * n..];
    }
  }

  /** Structs of `stride` bytes each, with a NULL bitmap each or none at all. */
  ghost predicate Laid(s: Schema, structs: seq<seq<byte>>, stride: nat, maps: Option<seq<seq<byte>>>) {
    && structs != [] && stride > 0 && Uniform(structs, stride) && RowFits(s, stride)
    && (maps.Some? ==> |maps.value| == |structs| && Uniform(maps.value, BitmapBytes(|s.cols|)))
  }

  function FlatMaps(maps: Option<seq<seq<byte>>>): Option<seq<byte>> {
    if maps.None? then None else Some(Flat(maps.value))
  }

  /** The batch call on the array they make. */
  function Batched(s: Schema, structs: seq<seq<byte>>, stride: nat, maps: Option<seq<seq<byte>>>, up: bool): Call {
    WriteMany(s.name, Flat(structs), |structs|, stride, FlatMaps(maps), up)
  }

  /** The single writes of the structs, in order. */
  function Singles(s: Schema, structs: seq<seq<byte>>, maps: Option<seq<seq<byte>>>): (calls: seq<Call>)
    requires maps.Some? ==> |maps.value| == |structs|
    ensures |calls| == |structs|
  {
    seq(|structs|, i requires 0 <= i < |structs| =>
          Write(s.name, structs[i], if maps.None? then None else Some(maps.value[i])))
  }

  // ---- One row of a batch ----------------------------------------------------------------

  ghost predicate PrefixMap(a: Option<seq<byte>>, b: Option<seq<byte>>) {
    a.Some? == b.Some? && (a.Some? ==> a.value <= b.value)
  }

  /** The call writes what row `b` of a batch begins with. */
  ghost predicate Stands(s: Schema, c: Call, b: RowInput) {
    && c.Write? && c.name == s.name && RowFits(s, |c.row|) && RowFits(s, |b.row|) && c.row <= b.row
    && BitmapFits(s, c.bitmap) && BitmapFits(s, b.bitmap) && PrefixMap(c.bitmap, b.bitmap)
  }

  lemma {:induction false} SameValue(s: Schema, c: Call, b: RowInput, i: nat)
    requires Stands(s, c, b) && i < |s.cols|
    ensures NullBit(c.bitmap, i) == NullBit(b.bitmap, i)
    ensures InRow(s.cols[i], |c.row|) && InRow(s.cols[i], |b.row|)
    ensures CellValue(s.cols[i], c.row) == CellValue(s.cols[i], b.row)
  {
    var col := s.cols[i];
    assert InRow(col, |c.row|) && InRow(col, |b.row|);
    assert c.row[col.offset..col.offset + Width(col)] == b.row[col.offset..col.offset + Width(col)];
  }

  /** What lies behind the struct and its bitmap does not matter. */
  lemma {:induction false} SameRow(s: Schema, c: Call, b: RowInput)
    requires Stands(s, c, b)
    ensures RowValues(s, c.row, c.bitmap) == RowValues(s, b.row, b.bitmap)
    ensures NullsAllowed(s, c.bitmap) == NullsAllowed(s, b.bitmap)
  {
    hide NullBit, CellValue;
    forall i | 0 <= i < |s.cols|
      ensures NullBit(c.bitmap, i) == NullBit(b.bitmap, i)
      ensures RowValues(s, c.row, c.bitmap)[i] == RowValues(s, b.row, b.bitmap)[i]
    {
      SameValue(s, c, b, i);
    }
  }

  /** The statement of the schema's writes, and that it can be prepared. */
  ghost predicate Preparable(d: Dialect, s: Schema, sql: string) {
    (s.pkIndex >= 0 ==> HasKey(s)) && sql == QueryText(d, s, WriteQuery(s)) && !(d.Sqlite? && ParseText(sql).None?)
  }

  lemma {:induction false} OneWrite(x: Setting, w: TxState, s: Schema, c: Call, b: RowInput, sql: string)
    requires Registered(x, s) && WorldOk(w) && Stands(s, c, b) && Preparable(x.d, s, sql)
    ensures Proper(x.schemas, c)
    ensures var one := StoreSpec(x.cmp, w.tables, sql, s, b.row, b.bitmap);
            Does(x, w, c) == (w.(tables := one.1), Just(one.0)) && Does(x, w, c).1.status == one.0
  {
    SameRow(s, c, b);
    hide RowValues, NullsAllowed, ExecuteText, ParseText, QueryText, FindSchema, SchemasOk, TablesOk;
  }

  // ---- The whole batch -------------------------------------------------------------------

  ghost predicate StandsAll(s: Schema, calls: seq<Call>, batch: seq<RowInput>) {
    |calls| == |batch| && forall i :: 0 <= i < |calls| ==> Stands(s, calls[i], batch[i])
  }

  ghost predicate AllOk(rs: seq<Result>) {
    forall i :: 0 <= i < |rs| ==> rs[i].status == Ok
  }

  /** The calls up to the first that fails, or all of them. */
  ghost predicate RunsTo(x: Setting, memory: nat, w: TxState, calls: seq<Call>, k: nat, status: Status, end: TxState)
    requires SchemasOk(x.schemas) && WorldOk(w) && AllProper(x, memory, calls)
  {
    && k <= |calls| && AllProper(x, memory, calls[..k])
    && var (mid, rs) := RunSpec(x, memory, w, calls[..k]);
       && end == mid && WorldOk(mid) && AllOk(rs)
       && (k == |calls| ==> status == Ok)
       && (k < |calls| ==> Proper(x.schemas, calls[k]) && Does(x, mid, calls[k]).1.status == status != Ok)
  }

  lemma {:induction false} RunsNone(x: Setting, memory: nat, w: TxState, calls: seq<Call>, status: Status)
    requires SchemasOk(x.schemas) && WorldOk(w) && AllProper(x, memory, calls)
    requires if calls == [] then status == Ok
             else Proper(x.schemas, calls[0]) && Does(x, w, calls[0]).1.status == status != Ok
    ensures RunsTo(x, memory, w, calls, 0, status, w)
  {
    hide Does, Proper, Fed, SchemasOk, WorldOk;
    assert calls[..0] == [];
    RunStep(x, memory, w, []);
  }

  lemma {:induction false} RunsNext(x: Setting, memory: nat, w: TxState, calls: seq<Call>, j: nat, status: Status,
      end: TxState)
    requires SchemasOk(x.schemas) && WorldOk(w) && AllProper(x, memory, calls) && calls != []
    requires AllProper(x, memory, calls[1..]) && Proper(x.schemas, calls[0]) && WorldOk(Does(x, w, calls[0]).0)
    requires Does(x, w, calls[0]).1.status == Ok
    requires RunsTo(x, memory, Does(x, w, calls[0]).0, calls[1..], j, status, end)
    ensures RunsTo(x, memory, w, calls, j + 1, status, end)
  {
    hide Does, Proper, Fed, SchemasOk, WorldOk, AllProper, RunSpec;
    var head := calls[..j + 1];
    assert calls == head + calls[j + 1..];
    ProperSplit(x, memory, head, calls[j + 1..]);
    assert head[0] == calls[0] && head[1..] == calls[1..][..j];
    RunStep(x, memory, w, head);
  }

  /** The first row of a batch and the rest. */
  lemma {:induction false} BatchParts(x: Setting, w: TxState, s: Schema, calls: seq<Call>, batch: seq<RowInput>,
      sql: string)
    requires Registered(x, s) && WorldOk(w) && StandsAll(s, calls, batch) && BatchFits(s, batch)
    ensures TablesOk(w.tables) && SchemasOk(x.schemas) && |calls| == |batch|
    ensures calls == [] ==> StoreAll(x.cmp, w.tables, sql, s, batch) == (Ok, w.tables)
    ensures w == TxState(w.stack, w.tables)
    ensures calls != [] ==>
              && Stands(s, calls[0], batch[0]) && StandsAll(s, calls[1..], batch[1..]) && BatchFits(s, batch[1..])
              && RowFits(s, |batch[0].row|) && BitmapFits(s, batch[0].bitmap)
              && var one := StoreSpec(x.cmp, w.tables, sql, s, batch[0].row, batch[0].bitmap);
                 && TablesOk(one.1) && (one.0 != Ok ==> one.1 == w.tables)
                 && StoreAll(x.cmp, w.tables, sql, s, batch) ==
                    if one.0 != Ok then one else StoreAll(x.cmp, one.1, sql, s, batch[1..])
  {
    hide StoreSpec, Stands, TablesOk, FindSchema;
  }

  lemma {:induction false} StoreAllRuns(x: Setting, memory: nat, w: TxState, s: Schema, calls: seq<Call>,
      batch: seq<RowInput>, sql: string) returns (k: nat)
    requires Registered(x, s) && WorldOk(w) && AllProper(x, memory, calls) && StandsAll(s, calls, batch)
    requires Preparable(x.d, s, sql) && BatchFits(s, batch)
    ensures var all := StoreAll(x.cmp, w.tables, sql, s, batch);
            RunsTo(x, memory, w, calls, k, all.0, TxState(w.stack, all.1))
    decreases |calls|
  {
    hide *;
    BatchParts(x, w, s, calls, batch, sql);
    RunStep(x, memory, w, calls);
    k := 0;
    if calls == [] {
      RunsNone(x, memory, w, calls, Ok);
    } else {
      var next := Does(x, w, calls[0]).0;
      OneWrite(x, w, s, calls[0], batch[0], sql);
      var one := StoreSpec(x.cmp, w.tables, sql, s, batch[0].row, batch[0].bitmap);
      if one.0 == Ok {
        var j := StoreAllRuns(x, memory, next, s, calls[1..], batch[1..], sql);
        k := j + 1;
        RunsNext(x, memory, w, calls, j, StoreAll(x.cmp, one.1, sql, s, batch[1..]).0,
            TxState(w.stack, StoreAll(x.cmp, one.1, sql, s, batch[1..]).1));
      } else {
        RunsNone(x, memory, w, calls, one.0);
      }
    }
  }

  // ---- The batch call --------------------------------------------------------------------

  /** The rows the batch call takes out of the array are the structs, each with its own bitmap. */
  lemma {:induction false} RowStands(s: Schema, structs: seq<seq<byte>>, stride: nat, maps: Option<seq<seq<byte>>>,
      i: nat)
    requires Laid(s, structs, stride, maps) && i < |structs|
    ensures Covers(s, Flat(structs), stride, FlatMaps(maps), i)
    ensures Stands(s, Singles(s, structs, maps)[i], RowAt(s, Flat(structs), stride, FlatMaps(maps), i))
  {
    hide Flat;
    FlatAt(structs, stride, i);
    if maps.Some? {
      FlatAt(maps.value, BitmapBytes(|s.cols|), i);
    }
  }

  lemma {:induction false} BatchStands(s: Schema, structs: seq<seq<byte>>, stride: nat, maps: Option<seq<seq<byte>>>)
    requires Laid(s, structs, stride, maps)
    ensures forall i :: 0 <= i < |structs| ==> Covers(s, Flat(structs), stride, FlatMaps(maps), i)
    ensures StandsAll(s, Singles(s, structs, maps), Batch(s, Flat(structs), stride, FlatMaps(maps), |structs|))
  {
    hide Covers, Stands, Flat, RowAt;
    forall i | 0 <= i < |structs|
      ensures Covers(s, Flat(structs), stride, FlatMaps(maps), i)
      ensures Stands(s, Singles(s, structs, maps)[i], RowAt(s, Flat(structs), stride, FlatMaps(maps), i))
    {
      RowStands(s, structs, stride, maps, i);
    }
  }

  /** The single writes are proper calls with memory enough, if the batch call is. */
  lemma {:induction false} SinglesProper(x: Setting, memory: nat, s: Schema, structs: seq<seq<byte>>, stride: nat,
      maps: Option<seq<seq<byte>>>, up: bool)
    requires Registered(x, s) && Laid(s, structs, stride, maps)
    requires Fed(x, memory, Batched(s, structs, stride, maps, up))
    ensures Proper(x.schemas, Batched(s, structs, stride, maps, up))
    ensures AllProper(x, memory, Singles(s, structs, maps))
  {
    BatchStands(s, structs, stride, maps);
    hide WriteStarved, Flat, SchemasOk, FindSchema;
  }

  /** A batch call is its specification on the rows it takes out of the array. */
  lemma {:induction false} BatchedDoes(x: Setting, w: TxState, s: Schema, structs: seq<seq<byte>>, stride: nat,
      maps: Option<seq<seq<byte>>>, up: bool)
    requires Registered(x, s) && WorldOk(w) && Laid(s, structs, stride, maps)
    requires Proper(x.schemas, Batched(s, structs, stride, maps, up))
    ensures forall i :: 0 <= i < |structs| ==> Covers(s, Flat(structs), stride, FlatMaps(maps), i)
    ensures PlainSchema(s) && TablesOk(w.tables)
    ensures var batch := Batch(s, Flat(structs), stride, FlatMaps(maps), |structs|);
            var r := BatchSpec(x.d, x.cmp, w.tables, s, batch, w.stack != [], up);
            Does(x, w, Batched(s, structs, stride, maps, up)) == (TxState(w.stack, r.1), Just(r.0))
  {
    BatchStands(s, structs, stride, maps);
    hide BatchSpec, Batch, Covers, Flat, FindSchema, TablesOk;
  }

  /** A write whose statement cannot be prepared fails, the first one like any other. */
  lemma {:induction false} FirstRefused(x: Setting, memory: nat, w: TxState, s: Schema, calls: seq<Call>,
      batch: seq<RowInput>)
    requires Registered(x, s) && WorldOk(w) && AllProper(x, memory, calls) && StandsAll(s, calls, batch) && calls != []
    requires PlainSchema(s) && x.d.Sqlite? && ParseText(QueryText(x.d, s, WriteQuery(s))).None?
    ensures RunsTo(x, memory, w, calls, 0, DriverError, w)
  {
    hide ParseText, QueryText, FindSchema, StoreSpec, RunsTo, Fed, TablesOk;
    assert Stands(s, calls[0], batch[0]) && Proper(x.schemas, calls[0]);
    RunsNone(x, memory, w, calls, DriverError);
  }

  /**
   * A batch is its structs written one by one up to the first that fails. If none fails it leaves the world
   * that the single writes leave; if one does, it has that write's status, and it leaves the world of the writes before
   * it inside a transaction and the world there was outside one.
   */
  lemma {:induction false} WriteManyIsWrites(x: Setting, memory: nat, w: TxState, s: Schema, structs: seq<seq<byte>>,
      stride: nat, maps: Option<seq<seq<byte>>>, up: bool) returns (k: nat, status: Status, mid: TxState)
    requires Registered(x, s) && WorldOk(w) && Laid(s, structs, stride, maps)
    requires Fed(x, memory, Batched(s, structs, stride, maps, up))
    ensures Proper(x.schemas, Batched(s, structs, stride, maps, up))
    ensures AllProper(x, memory, Singles(s, structs, maps))
    ensures RunsTo(x, memory, w, Singles(s, structs, maps), k, status, mid)
    ensures Does(x, w, Batched(s, structs, stride, maps, up)) ==
            if w.stack == [] && !up then (w, Just(DriverError))
            else (if status == Ok || w.stack != [] then mid else w, Just(status))
  {
    SinglesProper(x, memory, s, structs, stride, maps, up);
    BatchedDoes(x, w, s, structs, stride, maps, up);
    BatchStands(s, structs, stride, maps);
    var calls, batch := Singles(s, structs, maps), Batch(s, Flat(structs), stride, FlatMaps(maps), |structs|);
    var sql := QueryText(x.d, s, WriteQuery(s));
    hide Does, RunsTo, StandsAll, Singles, Batch, Flat, Proper, Fed, AllProper, ParseText, QueryText, StoreAll,
         SchemasOk, FindSchema, WorldOk;
    if x.d.Sqlite? && ParseText(sql).None? {
      k, status, mid := 0, DriverError, w;
      FirstRefused(x, memory, w, s, calls, batch);
    } else {
      k := StoreAllRuns(x, memory, w, s, calls, batch, sql);
      var all := StoreAll(x.cmp, w.tables, sql, s, batch);
      status, mid := all.0, TxState(w.stack, all.1);
    }
  }
}
