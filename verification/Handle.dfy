/**
 * The public calls: each builds a query, takes a statement from the cache or prepares one, binds, steps and
 * lets go.
 */
module Handles {
  import opened Core
  import opened LruSpec
  import opened Driving
  import opened StmtCaching
  import opened Ledger
  import opened SqlText
  import opened SqlStatements
  import opened SqlEngine
  import opened Conditions
  import opened Queries
  import opened QueryBuilder
  import opened TableSpec
  import opened PgParams
  import opened RowBytes
  import opened RowMapping
  import opened ApiSpec
  import opened TxSpec
  import opened QueryParsing

  class Handle {
    const drv: Driver
    const cache: StmtCache
    const memory: nat              // the largest buffer the query builder can get
    var schemas: seq<Schema>
    var depth: nat
    var spNames: seq<string>
    ghost var scans: map<StmtId, Scan> // the open iterators, by the statement each holds

    /** The invariant, while a call holds the statements `held` and runs those in `busy`. */
    ghost predicate Sound(busy: set<StmtId>, held: set<StmtId>)
      reads this, drv, cache, cache.buckets, cache.order, cache.nodes
    {
      && drv.Valid() && cache.Valid() && scans.Keys !! held
      && Balanced(cache.contents, scans.Keys + held, drv.finalized, drv.nextId)
      && Alive(drv.stmts.Keys, drv.finalized, drv.nextId)
      && Shelved(drv.dialect, cache.contents, drv.stmts, busy) && Scanning(drv.dialect, scans, drv.stmts)
    }

    constructor (drv: Driver, cache: StmtCache, memory: nat)
      requires drv.Valid() && drv.stmts == map[] && drv.finalized == [] && drv.nextId == 0 && drv.frames == []
      requires cache.Valid() && cache.contents == []
      ensures this.drv == drv && this.cache == cache && this.memory == memory
      ensures Valid() && schemas == [] && depth == 0 && scans == map[]
    {
      this.drv, this.cache, this.memory := drv, cache, memory;
      schemas, depth, spNames, scans := [], 0, seq(MAX_TX_DEPTH, _ => ""), map[];
    }

    ghost predicate InUse(id: StmtId, owned: bool, sql: string)
      reads this, drv, cache, cache.buckets, cache.order, cache.nodes
    {
      && IdleFor(drv.dialect, drv.stmts, id, sql) && (!owned ==> id in Stmts(cache.contents)) && id !in scans
      && Sound({id}, if owned then {id} else {})
    }

    /** A cached statement of that text, or a new one; a new one is cached unless the cache is off. */
    method GetOrPrepare(sql: string, allocOk: bool) returns (status: Status, id: StmtId, owned: bool)
      requires Sound({}, {})
      modifies cache, cache.buckets, cache.nodes, drv`stmts, drv`nextId, drv`finalized
      ensures cache.capacity == old(cache.capacity) && cache.buckets == old(cache.buckets)
      ensures fresh(cache.nodes - old(cache.nodes))
      ensures status == DriverError <==> drv.dialect.Sqlite? && ParseText(sql).None?
      ensures status == Ok || status == DriverError || (status == NoMemory && !allocOk)
      ensures status == Ok ==> InUse(id, owned, sql)
      ensures status == Ok ==> cache.contents == Acquire(cache.capacity, old(cache.contents), sql, old(drv.nextId))
      ensures status == DriverError ==> cache.contents == old(cache.contents)
      ensures status == NoMemory ==>
              cache.contents == LruSpec.Put(cache.capacity, old(cache.contents), sql, old(drv.nextId), false).entries
      ensures status != Ok ==> Sound({}, {})
    {
      hide StmtCache.Valid, Stmts, LruSpec.Put, LruSpec.Get, ToSet, ParseText, ParamCount, Balanced, Alive, Shelved,
           Scanning;
      owned := false;
      assert scans.Keys + {} == scans.Keys;
      ShelvedGet(drv.dialect, cache.contents, drv.stmts, sql);
      BalancedGet(cache.contents, scans.Keys, drv.finalized, drv.nextId, sql);
      MissKeeps(cache.contents, sql);
      var hit;
      status, hit := cache.Get(sql);
      if status == Ok {
        id := hit.value;
        BalancedOwned(cache.contents, scans.Keys, drv.finalized, drv.nextId, drv.stmts.Keys);
        ShelvedMore(drv.dialect, cache.contents, drv.stmts, {id});
        return;
      }
      BalancedPrepare(cache.contents, scans.Keys, drv.finalized, drv.nextId, drv.stmts.Keys);
      ghost var was := drv.stmts;
      status, id := drv.Prepare(sql);
      if status != Ok { return; }
      ShelvedPrepare(drv.dialect, cache.contents, was, id, drv.stmts[id]);
      ScanningKeeps(drv.dialect, scans, was, drv.stmts);
      assert drv.stmts.Keys == was.Keys + {id};
      if cache.capacity == 0 {
        owned := true;
        ShelvedMore(drv.dialect, cache.contents, drv.stmts, {id});
        return;
      }
      status := CachePrepared(sql, id, allocOk);
    }

    /** Hands a prepared statement over to the cache and takes it out again. */
    method CachePrepared(sql: string, id: StmtId, allocOk: bool) returns (status: Status)
      requires Sound({}, {id}) && IdleFor(drv.dialect, drv.stmts, id, sql) && id !in Stmts(cache.contents)
      requires LruSpec.Get(cache.contents, sql).0.None? && cache.capacity > 0
      modifies cache, cache.buckets, cache.nodes, drv`stmts, drv`finalized
      ensures cache.capacity == old(cache.capacity) && cache.buckets == old(cache.buckets)
      ensures fresh(cache.nodes - old(cache.nodes))
      ensures status == if allocOk then Ok else NoMemory
      ensures status == Ok ==>
              InUse(id, false, sql) && cache.contents ==
              LruSpec.Put(cache.capacity, old(cache.contents), sql, id, true).entries
      ensures status != Ok ==>
              Sound({}, {}) && cache.contents ==
              LruSpec.Put(cache.capacity, old(cache.contents), sql, id, false).entries
    {
      hide StmtCache.Valid, Stmts, LruSpec.Put, LruSpec.Get, ToSet, IdleFor, Balanced, Alive, Shelved, Scanning, Owned;
      ghost var held, live := scans.Keys + {id}, drv.stmts.Keys;
      BalancedOwned(cache.contents, held, drv.finalized, drv.nextId, live);
      BalancedPut(cache.capacity, cache.contents, held, drv.finalized, drv.nextId, live, sql, id, allocOk);
      assert Distinct(Stmts(cache.contents)) by { OwnedDistinct(cache.contents, live); }
      ShelvedPut(drv.dialect, cache.capacity, cache.contents, drv.stmts, sql, id, allocOk);
      if allocOk { cache.ContentsWellFormed(); PutThenGet(cache.capacity, cache.contents, sql, id); }
      assert held - {id} == scans.Keys + {} == scans.Keys;
      ghost var was := drv.stmts;
      status := cache.Put(sql, id, drv, allocOk);
      BalancedOwned(cache.contents, scans.Keys, drv.finalized, drv.nextId, drv.stmts.Keys);
      ScanningKeeps(drv.dialect, scans, was, drv.stmts);
      if status != Ok { return; }
      var again;
      status, again := cache.Get(sql);
      if status != Ok { return Internal; }
      ShelvedMore(drv.dialect, cache.contents, drv.stmts, {id});
    }

    /** Ends the use of a statement: an owned one is finalized, a cached one reset. */
    method Release(id: StmtId, owned: bool, ghost was: map<StmtId, StmtState>)
      requires drv.Valid() && cache.Valid() && scans.Keys !! (if owned then {id} else {})
      requires Balanced(cache.contents, scans.Keys + if owned then {id} else {}, drv.finalized, drv.nextId)
      requires Alive(was.Keys, drv.finalized, drv.nextId) && Shelved(drv.dialect, cache.contents, was, {id})
      requires Scanning(drv.dialect, scans, was) && id !in scans
      requires id in was && id in drv.stmts && drv.stmts == was[id := drv.stmts[id]]
      requires SameShape(was[id], drv.stmts[id])
      modifies drv`stmts, drv`finalized
      ensures Sound({}, {})
    {
      hide StmtCache.Valid, Stmts, ToSet, Balanced, Alive, Shelved, Scanning, Owned;
      assert drv.stmts.Keys == was.Keys;
      if owned {
        ghost var held := scans.Keys + {id};
        BalancedOwned(cache.contents, held, drv.finalized, drv.nextId, was.Keys);
        BalancedFinalize(cache.contents, held, drv.finalized, drv.nextId, was.Keys, id);
        drv.Finalize(id);
        assert held - {id} == scans.Keys + {} && drv.stmts.Keys == was.Keys - {id};
        ShelvedWithout(drv.dialect, cache.contents, was, drv.stmts, id);
        ScanningKeeps(drv.dialect, scans, was, drv.stmts);
      } else {
        drv.Reset(id);
        ShelvedAfter(drv.dialect, cache.contents, was, drv.stmts, id);
        ScanningKeeps(drv.dialect, scans, was, drv.stmts);
        assert drv.stmts.Keys == was.Keys;
      }
    }

    /** Builds a query on a schema and gets a statement for it. */
    method Open(s: Schema, q: Query, allocOk: bool) returns (status: Status, id: StmtId, owned: bool)
      requires Sound({}, {}) && (q.UpsertRow? ==> HasKey(s)) && PlainSchema(s)
      modifies cache, cache.buckets, cache.nodes, drv`stmts, drv`nextId, drv`finalized
      ensures cache.capacity == old(cache.capacity) && cache.buckets == old(cache.buckets)
      ensures fresh(cache.nodes - old(cache.nodes))
      ensures status == Ok ==>
              InUse(id, owned, QueryText(drv.dialect, s, q)) && KnownQuery(s, q)
              && |drv.stmts[id].binds| == QueryValues(s, q)
      ensures status != Ok ==> Sound({}, {})
      ensures OpenStatus(status, drv.dialect, s, q, memory, allocOk)
    {
      hide StmtCache.Valid, Stmts, ToSet, Balanced, Alive, Shelved, Scanning, Owned, QueryText, CapacityFor, KnownQuery,
           QueryPieces, Holes;
      id, owned := 0, false;
      var sql, k;
      status, sql, k := Build(drv.dialect, s, q, memory);
      if status != Ok { return; }
      KnownIsPlain(s, q);
      QueryParams(drv.dialect, s, q);
      status, id, owned := GetOrPrepare(sql, allocOk);
    }

    // ---- Writing -------------------------------------------------------------------------

    /** Between calls: nothing is held or running, schemas have usable names, and the savepoints are in step. */
    ghost predicate Valid()
      reads this, drv, cache, cache.buckets, cache.order, cache.nodes
    {
      Sound({}, {}) && SchemasOk(schemas) && InStep(drv.frames, depth, spNames)
    }

    lemma {:induction false} WorldIsOk()
      requires Valid()
      ensures TablesOk(drv.tables) && SchemasOk(schemas)
    {
    }

    method Lookup(name: string) returns (s: Option<Schema>)
      ensures s == FindSchema(schemas, name)
    {
      s := None;
      var i := |schemas|;
      while i > 0
        invariant 0 <= i <= |schemas| && s == FindSchema(schemas[i..], name)
      {
        i := i - 1;
        assert schemas[i..][1..] == schemas[i + 1..];
        if schemas[i].name == name { s := Some(schemas[i]); }
      }
    }

    /** Binds a struct to an open statement and runs it once. */
    method WriteOne(id: StmtId, s: Schema, row: seq<byte>, bitmap: Option<seq<byte>>) returns (status: Status)
      requires drv.Valid() && id in drv.stmts && drv.stmts[id].cursor.None? && |drv.stmts[id].binds| == |s.cols|
      requires RowFits(s, |row|) && BitmapFits(s, bitmap)
      modifies drv`stmts, drv`tables, drv`changes
      ensures drv.Valid() && id in drv.stmts && drv.stmts == old(drv.stmts)[id := drv.stmts[id]]
      ensures SameShape(old(drv.stmts)[id], drv.stmts[id])
      ensures (status, drv.tables) == StoreSpec(drv.cmp, old(drv.tables), old(drv.stmts)[id].sql, s, row, bitmap)
    {
      hide ExecuteText, RowValues, BindStatus, NullsAllowed;
      BindStatusMeans(s, bitmap, drv.dialect, |s.cols|, 0);
      status := BindRow(drv, id, s, row, bitmap);
      if status != Ok { return; }
      assert RowValues(s, row, bitmap) + [] == RowValues(s, row, bitmap);
      var hasRow;
      status, hasRow := drv.Step(id);
    }

    method Write(name: string, row: seq<byte>, bitmap: Option<seq<byte>>, allocOk: bool) returns (status: Status)
      requires Valid()
      requires StructFits(schemas, name, row, bitmap)
      modifies cache, cache.buckets, cache.nodes, drv
      ensures Valid() && cache.capacity == old(cache.capacity) && drv.frames == old(drv.frames)
      ensures cache.buckets == old(cache.buckets) && fresh(cache.nodes - old(cache.nodes))
      ensures if status == NoMemory then drv.tables == old(drv.tables)
              && WriteStarved(drv.dialect, schemas, name, memory, allocOk)
              else (status, drv.tables) == WriteSpec(drv.dialect, drv.cmp, old(drv.tables), schemas, name, row, bitmap)
    {
      hide StmtCache.Valid, Stmts, ToSet, Balanced, Alive, Shelved, Scanning, Owned, QueryText, CapacityFor, StoreSpec,
           ParseText;
      var found := Lookup(name);
      if found.None? { return UnknownStruct; }
      var s := found.value;
      var id, owned;
      status, id, owned := Open(s, WriteQuery(s), allocOk);
      if status != Ok { return; }
      ghost var was := drv.stmts;
      status := WriteOne(id, s, row, bitmap);
      Release(id, owned, was);
    }

    // ---- Queries -------------------------------------------------------------------------

    /** Binds a query's values, a field first and the condition's leaves after it. */
    method BindQuery(id: StmtId, ghost s: Schema, q: Query, v: Value) returns (status: Status)
      requires drv.Valid() && id in drv.stmts && drv.stmts[id].cursor.None? && !q.InsertRow? && !q.UpsertRow?
      requires |drv.stmts[id].binds| == QueryValues(s, q)
      modifies drv`stmts
      ensures drv.Valid() && status == Ok
      ensures drv.stmts == old(drv.stmts)[id := old(drv.stmts)[id].(binds := QueryBinds(q, [], v))]
    {
      hide Leaves, Patch;
      var idx := 1;
      ghost var st := drv.stmts[id];
      if q.UpdateField? {
        status := drv.Bind(id, 1, v);
        idx := 2;
      }
      var cond := QueryCond(q);
      status := Ok;
      if NeedsWhere(cond) {
        PatchAll(drv.stmts[id].binds, idx - 1, Leaves(cond.value));
        status, idx := BindCondValues(drv, id, cond.value, idx);
      }
      assert drv.stmts[id].binds == QueryBinds(q, [], v);
    }

    /** What `Release` needs: the statement has only been bound and run since it was `was[id]`. */
    ghost predicate Running(id: StmtId, owned: bool, was: map<StmtId, StmtState>)
      reads this, drv, cache, cache.buckets, cache.order, cache.nodes
    {
      && drv.Valid() && cache.Valid() && scans.Keys !! (if owned then {id} else {})
      && Balanced(cache.contents, scans.Keys + if owned then {id} else {}, drv.finalized, drv.nextId)
      && Alive(was.Keys, drv.finalized, drv.nextId) && Shelved(drv.dialect, cache.contents, was, {id})
      && Scanning(drv.dialect, scans, was) && id !in scans
      && id in was && id in drv.stmts && drv.stmts == was[id := drv.stmts[id]] && SameShape(was[id], drv.stmts[id])
    }

    /** Binds an open query and steps to its first row. */
    method Start(id: StmtId, owned: bool, s: Schema, q: Query, v: Value)
        returns (status: Status, hasRow: bool, ghost was: map<StmtId, StmtState>)
      requires !q.InsertRow? && !q.UpsertRow? && KnownQuery(s, q)
      requires InUse(id, owned, QueryText(drv.dialect, s, q)) && |drv.stmts[id].binds| == QueryValues(s, q)
      modifies drv`stmts, drv`tables, drv`changes
      ensures Running(id, owned, was)
      ensures var r := QueryReply(drv.dialect, drv.cmp, old(drv.tables), s, q, v);
              && status == r.status && drv.tables == r.tables
              && (status == Ok ==>
                  hasRow == (r.rows != []) && drv.changes == r.changes
                  && drv.stmts[id].cursor == Some(Cursor(r.rows, 0)))
    {
      hide StmtCache.Valid, Stmts, ToSet, Balanced, Alive, Shelved, Scanning, QueryText, ExecuteText, KnownQuery,
           ParamCount, ParseText, QueryBinds, QueryValues;
      was := drv.stmts;
      hasRow := false;
      BindsCount(s, q, seq(|s.cols|, _ => NullValue), v);
      BindsNoRow(q, seq(|s.cols|, _ => NullValue), v);
      status := BindQuery(id, s, q, v);
      status, hasRow := drv.Step(id);
    }

    /** Opens a query, binds it and steps once; nothing is held unless this succeeds. */
    method LaunchOn(s: Schema, q: Query, v: Value, allocOk: bool)
        returns (status: Status, id: StmtId, owned: bool, hasRow: bool, ghost was: map<StmtId, StmtState>)
      requires Sound({}, {}) && PlainSchema(s) && !q.InsertRow? && !q.UpsertRow?
      modifies cache, cache.buckets, cache.nodes, drv`stmts, drv`nextId, drv`finalized, drv`tables, drv`changes
      ensures cache.capacity == old(cache.capacity) && cache.buckets == old(cache.buckets)
      ensures fresh(cache.nodes - old(cache.nodes))
      ensures status != Ok ==> Sound({}, {}) && drv.tables == old(drv.tables)
      ensures status == NoMemory ==> Starved(drv.dialect, s, q, memory, allocOk)
      ensures var r := QueryReply(drv.dialect, drv.cmp, old(drv.tables), s, q, v);
              && (status != NoMemory ==> status == r.status && drv.tables == r.tables)
              && (status == Ok ==> Running(id, owned, was) && hasRow == (r.rows != []))
              && (status == Ok ==> drv.changes == r.changes && drv.stmts[id].cursor == Some(Cursor(r.rows, 0)))
    {
      hide StmtCache.Valid, Stmts, ToSet, Balanced, Alive, Shelved, Scanning, Owned, QueryText, ParseText, KnownQuery,
           QueryReply, Starved, OpenStatus, QueryValues;
      hasRow, was := false, map[];
      status, id, owned := Open(s, q, allocOk);
      if status != Ok {
        OpenRefused(drv.dialect, drv.cmp, drv.tables, s, q, v, status, memory, allocOk);
        return;
      }
      status, hasRow, was := Start(id, owned, s, q, v);
      if status != Ok { Release(id, owned, was); }
    }

    /** Finds the schema and launches the query on it. */
    method Launch(name: string, q: Query, v: Value, allocOk: bool)
        returns (status: Status, s: Schema, id: StmtId, owned: bool, hasRow: bool, ghost was: map<StmtId, StmtState>)
      requires Valid() && !q.InsertRow? && !q.UpsertRow?
      modifies cache, cache.buckets, cache.nodes, drv`stmts, drv`nextId, drv`finalized, drv`tables, drv`changes
      ensures cache.capacity == old(cache.capacity) && cache.buckets == old(cache.buckets)
      ensures fresh(cache.nodes - old(cache.nodes))
      ensures status != Ok ==> Sound({}, {}) && drv.tables == old(drv.tables)
      ensures status == NoMemory ==> CallStarved(drv.dialect, schemas, name, q, memory, allocOk)
      ensures var r := CallReply(drv.dialect, drv.cmp, old(drv.tables), schemas, name, q, v);
              && (status != NoMemory ==> status == r.status && drv.tables == r.tables)
              && (status == Ok ==> FindSchema(schemas, name) == Some(s) && Running(id, owned, was))
              && (status == Ok ==>
                  hasRow == (r.rows != []) && drv.changes == r.changes
                  && drv.stmts[id].cursor == Some(Cursor(r.rows, 0)))
    {
      hide Handle.Sound, Handle.Running, QueryReply, Starved;
      id, owned, hasRow, was := 0, false, false, map[];
      s := Schema("", [], -1);
      var found := Lookup(name);
      if found.None? { return UnknownStruct, s, id, owned, hasRow, was; }
      s := found.value;
      status, id, owned, hasRow, was := LaunchOn(s, q, v, allocOk);
    }

    method Delete(name: string, cond: Option<Condition>, allocOk: bool) returns (status: Status, deleted: nat)
      requires Valid()
      modifies cache, cache.buckets, cache.nodes, drv
      ensures Valid() && cache.capacity == old(cache.capacity) && drv.frames == old(drv.frames)
      ensures cache.buckets == old(cache.buckets) && fresh(cache.nodes - old(cache.nodes))
      ensures cond.None? ==> status == InvalidArg && drv.tables == old(drv.tables) && deleted == 0
      ensures cond.Some? ==>
                var r := CallReply(drv.dialect, drv.cmp, old(drv.tables), schemas, name, DeleteRows(cond), NullValue);
                if status == NoMemory then drv.tables == old(drv.tables)
                    && CallStarved(drv.dialect, schemas, name, DeleteRows(cond), memory, allocOk)
                else status == r.status && drv.tables == r.tables && deleted == r.changes
    {
      hide StmtCache.Valid, Stmts, ToSet, Balanced, Alive, Shelved, Scanning, Owned, CallStarved, QueryReply;
      deleted := 0;
      if cond.None? { return InvalidArg, 0; }
      var s, id, owned, hasRow;
      ghost var was;
      status, s, id, owned, hasRow, was := Launch(name, DeleteRows(cond), NullValue, allocOk);
      if status != Ok { return; }
      deleted := drv.changes;
      Release(id, owned, was);
    }

    /** The number of rows a condition selects; no condition counts them all. */
    method Count(name: string, cond: Option<Condition>, allocOk: bool) returns (status: Status, total: nat)
      requires Valid()
      modifies cache, cache.buckets, cache.nodes, drv
      ensures Valid() && cache.capacity == old(cache.capacity) && drv.frames == old(drv.frames)
      ensures drv.tables == old(drv.tables)
      ensures cache.buckets == old(cache.buckets) && fresh(cache.nodes - old(cache.nodes))
      ensures var r := CallReply(drv.dialect, drv.cmp, old(drv.tables), schemas, name, CountRows(cond), NullValue);
              if status == NoMemory then CallStarved(drv.dialect, schemas, name, CountRows(cond), memory, allocOk)
              else status == r.status && if status == Ok then r.rows == [[IntValue(total)]] else total == 0
    {
      hide StmtCache.Valid, Stmts, ToSet, Balanced, Alive, Shelved, Scanning, Owned, CallStarved, CallReply, FindSchema;
      total := 0;
      ReadCall(drv.dialect, drv.cmp, drv.tables, schemas, name, CountRows(cond));
      var s, id, owned, hasRow;
      ghost var was;
      status, s, id, owned, hasRow, was := Launch(name, CountRows(cond), NullValue, allocOk);
      if status != Ok { return; }
      if hasRow {
        var v := drv.ColumnValue(id, 0);
        total := Max(v.i, 0);
        assert drv.stmts[id].cursor.value.rows[0] == [v];
      }
      Release(id, owned, was);
    }

    // ---- Reading -------------------------------------------------------------------------

    /** The single-row path: the first row goes to a temporary until it is known to be the only one. */
    method ReadSingle(id: StmtId, s: Schema, out: array<byte>, nulls: array?<byte>, tmpOk: bool, nullsOk: bool)
        returns (status: Status)
      requires drv.Valid() && id in drv.stmts && drv.stmts[id].cursor.Some?
      requires var c := drv.stmts[id].cursor.value; c.pos == 0 && c.rows != [] && Shaped(|s.cols|, c.rows)
      requires out != nulls && RowFits(s, out.Length) && SizesCover(s) && RowEnd(s, |s.cols|) <= out.Length
      requires nulls != null ==> BitmapBytes(|s.cols|) <= nulls.Length
      modifies out, nulls, drv`stmts, drv`tables, drv`changes
      ensures drv.Valid() && id in drv.stmts && drv.stmts == old(drv.stmts)[id := drv.stmts[id]]
      ensures SameShape(old(drv.stmts)[id], drv.stmts[id]) && drv.tables == old(drv.tables)
      ensures if tmpOk then (status, BuffersOf(out, nulls)) ==
              Deliver(s, old(drv.stmts)[id].cursor.value.rows, false, nullsOk, old(BuffersOf(out, nulls)))
              else status == NoMemory && BuffersOf(out, nulls) == old(BuffersOf(out, nulls))
    {
      hide ReadUpTo, NullsUpTo, ReadStatus, OrBytes, RowEnd;
      ghost var rows := drv.stmts[id].cursor.value.rows;
      if !tmpOk { return NoMemory; }
      var size := RowSize(s);
      var tmp := new byte[size](_ => 0);
      var tmpNulls: array?<byte> := null;
      if nulls != null && nullsOk {
        tmpNulls := new byte[BitmapBytes(|s.cols|)](_ => 0);
        assert tmpNulls[..] == Zeros(BitmapBytes(|s.cols|));
      }
      assert tmp[..] == Zeros(size);
      var readStatus := ReadRow(drv, id, s, tmp, tmpNulls);
      var hasRow;
      status, hasRow := drv.Step(id);
      if status != Ok || hasRow { return if hasRow then MultipleRows else status; }
      CopyOut(tmp, tmpNulls, out, nulls);
      status := readStatus;
    }

    /** Delivers the rows of a statement that has been stepped once. */
    method Fetch(id: StmtId, s: Schema, hasRow: bool, out: array<byte>, nulls: array?<byte>, allowMulti: bool,
        tmpOk: bool, nullsOk: bool) returns (status: Status)
      requires drv.Valid() && id in drv.stmts && drv.stmts[id].cursor.Some?
      requires var c := drv.stmts[id].cursor.value; c.pos == 0 && hasRow == (c.rows != []) && Shaped(|s.cols|, c.rows)
      requires out != nulls && RowFits(s, out.Length) && SizesCover(s) && RowEnd(s, |s.cols|) <= out.Length
      requires nulls != null ==> BitmapBytes(|s.cols|) <= nulls.Length
      modifies out, nulls, drv`stmts, drv`tables, drv`changes
      ensures drv.Valid() && id in drv.stmts && drv.stmts == old(drv.stmts)[id := drv.stmts[id]]
      ensures SameShape(old(drv.stmts)[id], drv.stmts[id]) && drv.tables == old(drv.tables)
      ensures if status == NoMemory then !tmpOk && BuffersOf(out, nulls) == old(BuffersOf(out, nulls))
              else (status, BuffersOf(out, nulls)) ==
                   Deliver(s, old(drv.stmts)[id].cursor.value.rows, allowMulti, nullsOk, old(BuffersOf(out, nulls)))
    {
      hide ReadUpTo, NullsUpTo, ReadStatus, CopiedRow, CopiedNulls, RowEnd;
      if !hasRow { return NotFound; }
      if allowMulti {
        status := ReadRow(drv, id, s, out, nulls);
      } else {
        status := ReadSingle(id, s, out, nulls, tmpOk, nullsOk);
      }
    }

    method Read(name: string, cond: Option<Condition>, out: array<byte>, nulls: array?<byte>, allowMulti: bool,
        allocOk: bool, tmpOk: bool, nullsOk: bool)
        returns (status: Status)
      requires Valid() && out != nulls && BuffersFit(schemas, name, BuffersOf(out, nulls))
      modifies cache, cache.buckets, cache.nodes, drv, out, nulls
      ensures Valid() && cache.capacity == old(cache.capacity) && drv.frames == old(drv.frames)
      ensures drv.tables == old(drv.tables)
      ensures cache.buckets == old(cache.buckets) && fresh(cache.nodes - old(cache.nodes))
      ensures if status == NoMemory then
                BuffersOf(out, nulls) == old(BuffersOf(out, nulls)) &&
                (!tmpOk || CallStarved(drv.dialect, schemas, name, SelectRows(cond), memory, allocOk))
              else (status, BuffersOf(out, nulls)) ==
                   ReadSpec(drv.dialect, drv.cmp, old(drv.tables), schemas, name, cond, allowMulti, nullsOk,
                       old(BuffersOf(out, nulls)))
    {
      hide Handle.Sound, Handle.Running, CallStarved, CallReply, FindSchema, Deliver, RowEnd, RowFits, SizesCover;
      WorldIsOk();
      ReadCall(drv.dialect, drv.cmp, drv.tables, schemas, name, SelectRows(cond));
      var s, id, owned, hasRow;
      ghost var was;
      status, s, id, owned, hasRow, was := Launch(name, SelectRows(cond), NullValue, allocOk);
      if status != Ok { return; }
      status := FetchAndRelease(id, owned, was, s, hasRow, out, nulls, allowMulti, tmpOk, nullsOk);
    }

    method FetchAndRelease(id: StmtId, owned: bool, ghost was: map<StmtId, StmtState>, s: Schema, hasRow: bool,
        out: array<byte>, nulls: array?<byte>, allowMulti: bool, tmpOk: bool, nullsOk: bool) returns (status: Status)
      requires Running(id, owned, was) && drv.stmts[id].cursor.Some?
      requires var c := drv.stmts[id].cursor.value; c.pos == 0 && hasRow == (c.rows != []) && Shaped(|s.cols|, c.rows)
      requires out != nulls && RowFits(s, out.Length) && SizesCover(s) && RowEnd(s, |s.cols|) <= out.Length
      requires nulls != null ==> BitmapBytes(|s.cols|) <= nulls.Length
      modifies out, nulls, drv`stmts, drv`tables, drv`changes, drv`finalized
      ensures Sound({}, {}) && drv.tables == old(drv.tables)
      ensures if status == NoMemory then !tmpOk && BuffersOf(out, nulls) == old(BuffersOf(out, nulls))
              else (status, BuffersOf(out, nulls)) ==
                   Deliver(s, old(drv.stmts)[id].cursor.value.rows, allowMulti, nullsOk, old(BuffersOf(out, nulls)))
    {
      hide StmtCache.Valid, Balanced, Alive, Shelved, Scanning, Deliver, RowEnd, RowFits, SizesCover, TablesOk;
      status := Fetch(id, s, hasRow, out, nulls, allowMulti, tmpOk, nullsOk);
      Release(id, owned, was);
    }

    // ---- Statements outside the cache ----------------------------------------------------

    /** Builds a query and prepares a statement that the caller holds. */
    method OpenFresh(s: Schema, q: Query) returns (status: Status, id: StmtId)
      requires Sound({}, {}) && (q.UpsertRow? ==> HasKey(s)) && PlainSchema(s)
      modifies drv`stmts, drv`nextId
      ensures status == Ok ==>
              InUse(id, true, QueryText(drv.dialect, s, q)) && KnownQuery(s, q)
              && |drv.stmts[id].binds| == QueryValues(s, q)
      ensures status != Ok ==> Sound({}, {})
      ensures OpenStatus(status, drv.dialect, s, q, memory, true)
    {
      hide StmtCache.Valid, Stmts, ToSet, Balanced, Alive, Shelved, Scanning, QueryText, CapacityFor, KnownQuery,
           QueryPieces, Holes, ParseText, ParamCount, QueryValues;
      id := 0;
      var sql, k;
      status, sql, k := Build(drv.dialect, s, q, memory);
      if status != Ok { return; }
      KnownIsPlain(s, q);
      QueryParams(drv.dialect, s, q);
      assert scans.Keys + {} == scans.Keys;
      BalancedPrepare(cache.contents, scans.Keys, drv.finalized, drv.nextId, drv.stmts.Keys);
      ghost var was := drv.stmts;
      status, id := drv.Prepare(sql);
      if status != Ok { return; }
      ShelvedPrepare(drv.dialect, cache.contents, was, id, drv.stmts[id]);
      ScanningKeeps(drv.dialect, scans, was, drv.stmts);
      ShelvedMore(drv.dialect, cache.contents, drv.stmts, {id});
      assert drv.stmts.Keys == was.Keys + {id};
    }

    /** Runs a field query on a statement of its own up to its first row; nothing is held unless this succeeds. */
    method Probe(s: Schema, q: Query)
        returns (status: Status, id: StmtId, hasRow: bool, ghost was: map<StmtId, StmtState>)
      requires Sound({}, {}) && PlainSchema(s) && q.SelectField?
      modifies drv
      ensures drv.frames == old(drv.frames) && drv.tables == old(drv.tables)
      ensures status != Ok ==> Sound({}, {})
      ensures var r := QueryReply(drv.dialect, drv.cmp, old(drv.tables), s, q, NullValue);
              && (status == NoMemory ==> Starved(drv.dialect, s, q, memory, true))
              && (status != NoMemory ==> status == r.status)
              && (status == Ok ==> Running(id, true, was) && hasRow == (r.rows != []))
              && (status == Ok ==> Shaped(1, r.rows) && drv.stmts[id].cursor == Some(Cursor(r.rows, 0)))
    {
      hide StmtCache.Valid, Stmts, ToSet, Balanced, Alive, Shelved, Scanning, QueryText, KnownQuery, ParseText,
           QueryReply, QueryValues, Starved, OpenStatus;
      hasRow, was := false, map[];
      ReadReply(drv.dialect, drv.cmp, drv.tables, s, q, NullValue);
      status, id := OpenFresh(s, q);
      if status != Ok {
        OpenRefused(drv.dialect, drv.cmp, drv.tables, s, q, NullValue, status, memory, true);
        return;
      }
      status, hasRow, was := Start(id, true, s, q, NullValue);
      if status != Ok { Release(id, true, was); }
    }

    /** How many rows match: 0, 1, or 2 for more. */
    method CountMatching(s: Schema, col: string, key: Condition) returns (status: Status, n: nat)
      requires Sound({}, {}) && PlainSchema(s)
      modifies drv
      ensures Sound({}, {}) && drv.frames == old(drv.frames) && drv.tables == old(drv.tables)
      ensures var q := SelectField(col, Some(key));
              var r := QueryReply(drv.dialect, drv.cmp, old(drv.tables), s, q, NullValue);
              if status == NoMemory then Starved(drv.dialect, s, q, memory, true)
              else status == r.status && (status == Ok ==> n == Min(|r.rows|, 2))
    {
      hide StmtCache.Valid, Stmts, ToSet, Balanced, Alive, Shelved, Scanning, QueryReply, Starved;
      n := 0;
      var id, hasRow;
      ghost var was;
      status, id, hasRow, was := Probe(s, SelectField(col, Some(key)));
      if status != Ok { return; }
      if hasRow {
        n := 1;
        status, hasRow := drv.Step(id);
        if hasRow { n := 2; }
      }
      Release(id, true, was);
    }

    // ---- BLOB fields ---------------------------------------------------------------------

    method CheckField(name: string, col: string) returns (status: Status, s: Schema)
      ensures status == FieldStatus(FindSchema(schemas, name), col)
      ensures status == Ok ==> FindSchema(schemas, name) == Some(s)
    {
      s := Schema("", [], -1);
      var found := Lookup(name);
      if found.None? { return UnknownStruct, s; }
      s := found.value;
      var i := FindColIndex(s, col);
      if i < 0 { return UnknownColumn, s; }
      if s.cols[i].typ != Blob { return InvalidArg, s; }
      return Ok, s;
    }

    /** Sets the field to `bytes` in the one row that matches. */
    method UpdateOne(s: Schema, key: Condition, col: string, bytes: seq<byte>, allocOk: bool) returns (status: Status)
      requires Sound({}, {}) && PlainSchema(s)
      modifies cache, cache.buckets, cache.nodes, drv
      ensures Sound({}, {}) && cache.capacity == old(cache.capacity) && drv.frames == old(drv.frames)
      ensures cache.buckets == old(cache.buckets) && fresh(cache.nodes - old(cache.nodes))
      ensures var q := UpdateField(col, Some(key));
              var r := QueryReply(drv.dialect, drv.cmp, old(drv.tables), s, q, BlobValue(bytes));
              if status == NoMemory then drv.tables == old(drv.tables) && Starved(drv.dialect, s, q, memory, allocOk)
              else status == r.status && drv.tables == r.tables
    {
      hide StmtCache.Valid, Stmts, ToSet, Balanced, Alive, Shelved, Scanning, QueryReply, Starved;
      var id, owned, hasRow;
      ghost var was;
      status, id, owned, hasRow, was := LaunchOn(s, UpdateField(col, Some(key)), BlobValue(bytes), allocOk);
      if status == Ok { Release(id, owned, was); }
    }

    method WriteBlobField(name: string, key: Condition, col: string, bytes: seq<byte>, allocOk: bool)
        returns (status: Status)
      requires Valid()
      modifies cache, cache.buckets, cache.nodes, drv
      ensures Valid() && cache.capacity == old(cache.capacity) && drv.frames == old(drv.frames)
      ensures cache.buckets == old(cache.buckets) && fresh(cache.nodes - old(cache.nodes))
      ensures if status == NoMemory then
                drv.tables == old(drv.tables) &&
                (CallStarved(drv.dialect, schemas, name, SelectField(col, Some(key)), memory, true)
                 || CallStarved(drv.dialect, schemas, name, UpdateField(col, Some(key)), memory, allocOk))
              else (status, drv.tables) == WriteBlobSpec(drv.dialect, drv.cmp, old(drv.tables), schemas, name, key, col,
                  bytes)
    {
      hide StmtCache.Valid, Stmts, ToSet, Balanced, Alive, Shelved, Scanning, QueryReply, FieldStatus, Starved;
      var s, n;
      status, s := CheckField(name, col);
      if status != Ok { return; }
      status, n := CountMatching(s, col, key);
      if status != Ok { return; }
      if n == 0 { return NotFound; }
      if n >= 2 { return MultipleRows; }
      status := UpdateOne(s, key, col, bytes, allocOk);
    }

    method ReadBlobField(name: string, key: Condition, col: string, tmpOk: bool)
        returns (status: Status, bytes: Option<seq<byte>>)
      requires Valid()
      modifies drv
      ensures Valid() && drv.frames == old(drv.frames) && drv.tables == old(drv.tables)
      ensures if status == NoMemory then
                bytes == None && (!tmpOk || CallStarved(drv.dialect, schemas, name, SelectField(col, Some(key)), memory,
                    true))
              else (status, bytes) == ReadBlobSpec(drv.dialect, drv.cmp, old(drv.tables), schemas, name, key, col)
    {
      hide StmtCache.Valid, Stmts, ToSet, Balanced, Alive, Shelved, Scanning, QueryReply, FieldStatus, Starved;
      bytes := None;
      var s, id, hasRow;
      status, s := CheckField(name, col);
      if status != Ok { return; }
      ghost var was;
      status, id, hasRow, was := Probe(s, SelectField(col, Some(key)));
      if status != Ok { return; }
      status, bytes := FetchBlob(id, hasRow, tmpOk);
      Release(id, true, was);
    }

    /** Copies the field of the first row and publishes it only if there is no second. */
    method FetchBlob(id: StmtId, hasRow: bool, tmpOk: bool) returns (status: Status, bytes: Option<seq<byte>>)
      requires drv.Valid() && id in drv.stmts && drv.stmts[id].cursor.Some?
      requires var c := drv.stmts[id].cursor.value; c.pos == 0 && hasRow == (c.rows != []) && Shaped(1, c.rows)
      modifies drv`stmts, drv`tables, drv`changes
      ensures drv.Valid() && id in drv.stmts && drv.stmts == old(drv.stmts)[id := drv.stmts[id]]
      ensures SameShape(old(drv.stmts)[id], drv.stmts[id]) && drv.tables == old(drv.tables)
      ensures var rows := old(drv.stmts)[id].cursor.value.rows;
              (status, bytes) == if rows == [] then (NotFound, None)
                                 else if !tmpOk then (NoMemory, None)
                                 else if |rows| > 1 then (MultipleRows, None)
                                 else (Ok, Some(AsBytes(rows[0][0])))
    {
      if !hasRow { return NotFound, None; }
      var v := drv.ColumnValue(id, 0);
      if !tmpOk { return NoMemory, None; }
      var copy, more := AsBytes(v), false;
      status, more := drv.Step(id);
      if more { return MultipleRows, None; }
      return Ok, Some(copy);
    }

    // ---- Transactions --------------------------------------------------------------------

    /** The transaction state as a stack of snapshots. */
    ghost function Tx(): TxState
      reads this, drv
    {
      StateOf(drv.frames, drv.tables)
    }

    /** BEGIN at the outermost level, a savepoint named after its level inside. */
    method BeginTx(up: bool) returns (status: Status)
      requires Valid()
      modifies this`depth, this`spNames, drv`frames
      ensures Valid() && depth == old(depth) + if status == Ok then 1 else 0
      ensures status == if old(depth) >= MAX_TX_DEPTH then NestedTx else if up then Ok else DriverError
      ensures if status == Ok then Enabled(old(Tx()), Began) && Tx() == Next(old(Tx()), Began) else Tx() == old(Tx())
    {
      hide StmtCache.Valid, Stmts, ToSet, Balanced, Alive, Shelved, Scanning, SpName, StateOf, Next, Enabled, TablesOk,
           SchemasOk, InnermostNamed;
      if depth >= MAX_TX_DEPTH { return NestedTx; }
      status, spNames := OpenLevel(drv, spNames, depth, up);
      if status != Ok { return; }
      depth := depth + 1;
    }

    method CommitTx(up: bool) returns (status: Status)
      requires Valid()
      modifies this`depth, drv`frames
      ensures Valid() && depth == old(depth) - if status == Ok then 1 else 0
      ensures status == if old(depth) == 0 then NoActiveTx else if up then Ok else DriverError
      ensures if status == Ok then Enabled(old(Tx()), Committed) && Tx() == Next(old(Tx()), Committed)
              else Tx() == old(Tx())
    {
      hide StmtCache.Valid, Stmts, ToSet, Balanced, Alive, Shelved, Scanning, SpName, StateOf, Next, Enabled, TablesOk,
           SchemasOk, InnermostNamed;
      if depth == 0 { return NoActiveTx; }
      Popped(drv.frames, depth, spNames, drv.tables);
      if depth == 1 {
        status := drv.Commit(up);
      } else {
        InnermostIsLast(drv.frames, depth, spNames);
        status := drv.Release(spNames[depth - 1], up);
      }
      if status != Ok { return; }
      depth := depth - 1;
    }

    /**
     * ROLLBACK at the outermost level. Inside, the savepoint is rewound and then released; when only the
     * release fails the tables are already back but the level stays open.
     */
    method RollbackTx(up: bool, releaseUp: bool) returns (status: Status)
      requires Valid()
      modifies this`depth, drv`frames, drv`tables
      ensures Valid() && depth == old(depth) - if status == Ok then 1 else 0
      ensures status == if old(depth) == 0 then NoActiveTx else if up && (old(depth) == 1 || releaseUp) then Ok
              else DriverError
      ensures if status == Ok then Enabled(old(Tx()), RolledBack) && Tx() == Next(old(Tx()), RolledBack)
              else Tx() == if old(depth) >= 2 && up then old(Tx()).(tables := old(Tx()).stack[old(depth) - 1])
                  else old(Tx())
    {
      hide StmtCache.Valid, Stmts, ToSet, Balanced, Alive, Shelved, Scanning, SpName, StateOf, Next, Enabled, TablesOk,
           SchemasOk, InnermostNamed;
      if depth == 0 { return NoActiveTx; }
      Popped(drv.frames, depth, spNames, drv.tables);
      if depth == 1 {
        status := drv.Rollback(up);
      } else {
        status := UnwindSavepoint(drv, spNames, depth, up, releaseUp);
      }
      if status != Ok { return; }
      depth := depth - 1;
    }

    // ---- Batches -------------------------------------------------------------------------

    /** Binds, runs and resets one statement for each row until one fails. */
    method WriteRows(id: StmtId, s: Schema, rows: seq<byte>, stride: nat, maps: Option<seq<byte>>, count: nat)
        returns (status: Status)
      requires drv.Valid() && id in drv.stmts && drv.stmts[id].cursor.None? && |drv.stmts[id].binds| == |s.cols|
      requires forall i :: 0 <= i < count ==> Covers(s, rows, stride, maps, i)
      modifies drv`stmts, drv`tables, drv`changes
      ensures drv.Valid() && id in drv.stmts && drv.stmts == old(drv.stmts)[id := drv.stmts[id]]
      ensures SameShape(old(drv.stmts)[id], drv.stmts[id])
      ensures (status, drv.tables) ==
              StoreAll(drv.cmp, old(drv.tables), old(drv.stmts)[id].sql, s, Batch(s, rows, stride, maps, count))
    {
      hide StoreSpec, StoreAll, Covers, TablesOk, BatchFits, RowFits, BitmapFits, RowAt;
      ghost var was := drv.stmts;
      ghost var batch, sql := Batch(s, rows, stride, maps, count), was[id].sql;
      ghost var all := StoreAll(drv.cmp, drv.tables, sql, s, batch);
      BatchEnds(drv.cmp, drv.tables, sql, s, batch);
      for i := 0 to count
        invariant drv.Valid() && id in drv.stmts && drv.stmts == was[id := drv.stmts[id]]
        invariant SameShape(was[id], drv.stmts[id])
        invariant drv.stmts[id].cursor.None? && BatchFits(s, batch[i..])
        invariant StoreAll(drv.cmp, drv.tables, sql, s, batch[i..]) == all
      {
        var r := RowAt(s, rows, stride, maps, i);
        StoreAllStep(drv.cmp, drv.tables, sql, s, batch, i);
        status := WriteOne(id, s, r.row, r.bitmap);
        if status != Ok { return; }
        drv.Reset(id);
      }
      BatchEnds(drv.cmp, drv.tables, sql, s, batch);
      status := Ok;
    }

    /**
     * Runs the batch, in a transaction of its own unless one is active; its commit and rollback are taken
     * to succeed.
     */
    method WriteBatch(id: StmtId, s: Schema, rows: seq<byte>, stride: nat, maps: Option<seq<byte>>, count: nat,
        up: bool) returns (status: Status)
      requires drv.Valid() && id in drv.stmts && drv.stmts[id].cursor.None? && |drv.stmts[id].binds| == |s.cols|
      requires (forall i :: 0 <= i < count ==> Covers(s, rows, stride, maps, i)) && depth == |drv.frames|
      modifies drv`stmts, drv`tables, drv`changes, drv`frames
      ensures drv.Valid() && id in drv.stmts && drv.stmts == old(drv.stmts)[id := drv.stmts[id]]
      ensures SameShape(old(drv.stmts)[id], drv.stmts[id]) && drv.frames == old(drv.frames)
      ensures var all := StoreAll(drv.cmp, old(drv.tables), old(drv.stmts)[id].sql, s,
              Batch(s, rows, stride, maps, count));
              (status, drv.tables) == if depth == 0 && !up then (DriverError, old(drv.tables))
                                      else if depth == 0 && all.0 != Ok then (all.0, old(drv.tables)) else all
    {
      hide StoreAll, Covers, TablesOk, Batch;
      var implicitTx := depth == 0;
      if implicitTx {
        var begun := drv.Begin(up);
        if begun != Ok { return begun; }
      }
      status := WriteRows(id, s, rows, stride, maps, count);
      if implicitTx {
        if status == Ok {
          var _ := drv.Commit(true);
        } else {
          var _ := drv.Rollback(true);
        }
      }
    }

    method WriteMany(name: string, rows: seq<byte>, count: nat, stride: nat, maps: Option<seq<byte>>, up: bool,
        allocOk: bool) returns (status: Status)
      requires Valid() && ArrayFits(schemas, name, rows, count, stride, maps)
      modifies cache, cache.buckets, cache.nodes, drv
      ensures Valid() && cache.capacity == old(cache.capacity) && drv.frames == old(drv.frames)
      ensures cache.buckets == old(cache.buckets) && fresh(cache.nodes - old(cache.nodes))
      ensures if status == NoMemory then drv.tables == old(drv.tables)
              && WriteStarved(drv.dialect, schemas, name, memory, allocOk)
              else (status, drv.tables) ==
                   WriteManySpec(drv.dialect, drv.cmp, old(drv.tables), schemas, name, rows, count, stride, maps,
                       depth > 0, up)
    {
      hide StmtCache.Valid, Stmts, ToSet, Balanced, Alive, Shelved, Scanning, Owned, QueryText, CapacityFor, StoreAll,
           ParseText, Covers, Batch, TablesOk, KnownQuery;
      if count == 0 || stride == 0 { return InvalidArg; }
      var found := Lookup(name);
      if found.None? { return UnknownStruct; }
      var s := found.value;
      var id, owned;
      status, id, owned := Open(s, WriteQuery(s), allocOk);
      WriteKnown(s);
      if status != Ok { return; }
      ghost var was := drv.stmts;
      status := WriteBatch(id, s, rows, stride, maps, count, up);
      Release(id, owned, was);
    }

    // ---- Iterators -----------------------------------------------------------------------

    /** Opens an iterator over the rows a condition selects; its statement is not cached. */
    method ReadMany(name: string, cond: Option<Condition>, iterOk: bool) returns (status: Status, id: StmtId)
      requires Valid()
      modifies drv`stmts, drv`nextId, drv`finalized, this`scans
      ensures Valid()
      ensures status != Ok ==> scans == old(scans)
      ensures status == Ok ==> id !in old(scans) && FindSchema(schemas, name).Some?
      ensures status == Ok ==> scans == old(scans)[id := Scan(FindSchema(schemas, name).value, cond)]
      ensures status == Ok ==> id in drv.stmts && drv.stmts[id].cursor.None?
      ensures status == NoMemory ==> !iterOk || CallStarved(drv.dialect, schemas, name, SelectRows(cond), memory, true)
      ensures var found := FindSchema(schemas, name);
              status != NoMemory ==> status == if found.None? then UnknownStruct
                                               else if !KnownQuery(found.value, SelectRows(cond)) then UnknownColumn
                                               else if drv.dialect.Sqlite? && !NoNestedAll(cond) then DriverError
                                                   else Ok
    {
      hide StmtCache.Valid, Stmts, ToSet, Balanced, Alive, Shelved, Scanning, QueryText, KnownQuery, QueryValues,
           Starved, ParseText, CapacityFor, QueryBinds, PlainQuery, NoNestedAll;
      id := 0;
      var found := Lookup(name);
      if found.None? { return UnknownStruct, id; }
      var s, q := found.value, SelectRows(cond);
      ScanParses(drv.dialect, s, cond);
      status, id := OpenFresh(s, q);
      if status == NoMemory { OpenStarved(drv.dialect, s, q, status, memory, true); }
      if status != Ok { return; }
      ghost var was := drv.stmts;
      BindsCount(s, q, seq(|s.cols|, _ => NullValue), NullValue);
      BindsNoRow(q, seq(|s.cols|, _ => NullValue), NullValue);
      status := BindQuery(id, s, q, NullValue);
      if iterOk {
        KnownIsPlain(s, q);
        Hold(id, Scan(s, cond), was);
      } else {
        Release(id, true, was);
        status := NoMemory;
      }
    }

    /** Leaves a bound statement with an iterator. */
    ghost method Hold(id: StmtId, scan: Scan, was: map<StmtId, StmtState>)
      requires Running(id, true, was)
      requires drv.stmts[id].sql == QueryText(drv.dialect, scan.schema, SelectRows(scan.cond))
      requires drv.stmts[id].binds == QueryBinds(SelectRows(scan.cond), [], NullValue) && drv.stmts[id].cursor.None?
      requires PlainQuery(scan.schema, SelectRows(scan.cond))
      modifies this`scans
      ensures Sound({}, {}) && id !in old(scans) && scans == old(scans)[id := scan]
    {
      hide StmtCache.Valid, Stmts, ToSet, Balanced, Alive, Shelved, Scanning, QueryText, QueryBinds, Scans;
      BalancedOwned(cache.contents, scans.Keys + {id}, drv.finalized, drv.nextId, was.Keys);
      ShelvedWithout(drv.dialect, cache.contents, was, drv.stmts, id);
      ScanningKeeps(drv.dialect, scans, was, drv.stmts);
      NewScan(drv.dialect, scan.schema, scan.cond, drv.stmts[id]);
      ScanningMore(drv.dialect, scans, drv.stmts, id, scan);
      scans := scans[id := scan];
      assert scans.Keys + {} == old(scans).Keys + {id} && drv.stmts.Keys == was.Keys;
    }

    /** An iterator's statement has its text and its values. */
    lemma {:induction false} ScanText(id: StmtId)
      requires Valid() && id in scans
      ensures id in drv.stmts
      ensures drv.stmts[id].sql == QueryText(drv.dialect, scans[id].schema, SelectRows(scans[id].cond))
      ensures drv.stmts[id].binds == WhereLeaves(scans[id].cond)
    {
      hide StmtCache.Valid, QueryText, Balanced, Alive, Shelved;
    }

    /** Closes an iterator. */
    method StmtFree(id: StmtId)
      requires Valid() && id in scans
      modifies drv`stmts, drv`finalized, this`scans
      ensures Valid() && scans == old(scans) - {id} && drv.finalized == old(drv.finalized) + [id]
    {
      hide StmtCache.Valid, Stmts, ToSet, Balanced, Alive, Shelved, Scanning, Owned;
      ghost var was, live := drv.stmts, drv.stmts.Keys;
      assert scans.Keys + {} == scans.Keys;
      BalancedOwned(cache.contents, scans.Keys, drv.finalized, drv.nextId, live);
      BalancedFinalize(cache.contents, scans.Keys, drv.finalized, drv.nextId, live, id);
      ScanningFewer(drv.dialect, scans, drv.stmts, id);
      drv.Finalize(id);
      ShelvedMore(drv.dialect, cache.contents, was, {id});
      ShelvedWithout(drv.dialect, cache.contents, was, drv.stmts, id);
      scans := scans - {id};
      assert scans.Keys + {} == old(scans).Keys - {id} && drv.stmts.Keys == live - {id};
    }

    /** Steps an iterator's statement; the other statements and the tables stay as they are. */
    method StepScan(id: StmtId, s: Schema) returns (status: Status, hasRow: bool)
      requires Valid() && id in scans && scans[id].schema == s
      modifies drv`stmts, drv`tables, drv`changes
      ensures Valid() && drv.tables == old(drv.tables) && id in old(drv.stmts)
      ensures var (stepped, cursor) := Advance(drv.dialect, drv.cmp, old(drv.tables), old(drv.stmts)[id]);
              && status == stepped && drv.stmts == old(drv.stmts)[id := old(drv.stmts)[id].(cursor := cursor)]
              && (status == Ok ==>
                  cursor.Some? && Shaped(|s.cols|, cursor.value.rows)
                  && hasRow == (cursor.value.pos < |cursor.value.rows|))
    {
      hide StmtCache.Valid, Stmts, ToSet, Balanced, Alive, Shelved, Scanning, Owned, QueryText, ExecuteText, PlainQuery;
      ghost var was := drv.stmts;
      ScanningAt(drv.dialect, scans, was, id);
      ScanShape(drv.dialect, drv.cmp, drv.tables, s, scans[id].cond);
      assert scans.Keys + {} == scans.Keys;
      BalancedOwned(cache.contents, scans.Keys, drv.finalized, drv.nextId, was.Keys);
      ShelvedMore(drv.dialect, cache.contents, was, {id});
      status, hasRow := drv.Step(id);
      ShelvedWithout(drv.dialect, cache.contents, was, drv.stmts, id);
      ScanningStep(drv.dialect, scans, was, drv.stmts, id);
      assert drv.stmts.Keys == was.Keys;
    }

    /** Moves an iterator to its next row and reads it. */
    method StmtNext(id: StmtId, s: Schema, out: array<byte>, nulls: array?<byte>) returns (status: Status)
      requires Valid() && id in scans && scans[id].schema == s
      requires out != nulls && RowFits(s, out.Length) && BitmapFits(s, BuffersOf(out, nulls).nulls)
      modifies drv`stmts, drv`tables, drv`changes, out, nulls
      ensures Valid() && drv.tables == old(drv.tables) && id in old(drv.stmts)
      ensures var (stepped, cursor) := Advance(drv.dialect, drv.cmp, old(drv.tables), old(drv.stmts)[id]);
              && (stepped == Ok ==> cursor.Some? && Shaped(|s.cols|, cursor.value.rows))
              && drv.stmts == old(drv.stmts)[id := old(drv.stmts)[id].(cursor := cursor)]
              && (status, BuffersOf(out, nulls)) == NextSpec(s, stepped, cursor, old(BuffersOf(out, nulls)))
    {
      hide Handle.Sound, ReadUpTo, NullsUpTo, ReadStatus, RowFits, Advance;
      var hasRow;
      status, hasRow := StepScan(id, s);
      if status != Ok { return; }
      if !hasRow { return NotFound; }
      status := ReadRow(drv, id, s, out, nulls);
    }

    // ---- Configuration and closing -------------------------------------------------------

    /** Changes the cache size; the statements that no longer fit are finalized, and no result changes. */
    method SetConfig(newCapacity: nat, allocOk: bool) returns (status: Status)
      requires Valid() && 2 * newCapacity <= SIZE_MAX_PLUS_ONE / 2
      modifies cache, cache.buckets, cache.nodes, drv`stmts, drv`finalized
      ensures Valid() && cache.capacity == if status == Ok then newCapacity else old(cache.capacity)
      ensures (cache.buckets == old(cache.buckets) || fresh(cache.buckets)) && cache.nodes <= old(cache.nodes)
      ensures cache.contents == Truncate(newCapacity, old(cache.contents))
      ensures drv.finalized == old(drv.finalized) + Surplus(newCapacity, old(cache.contents))
      ensures status == Ok || (status == NoMemory && !allocOk)
    {
      hide StmtCache.Valid, Stmts, ToSet, Balanced, Alive, Shelved, Scanning, Owned, Truncate, Surplus, BucketCount;
      if newCapacity == cache.capacity {
        cache.ContentsWellFormed();
        NothingToDrop(newCapacity, cache.contents);
        return Ok;
      }
      ghost var was, live, contents := drv.stmts, drv.stmts.Keys, cache.contents;
      assert scans.Keys + {} == scans.Keys;
      BalancedOwned(contents, scans.Keys, drv.finalized, drv.nextId, live);
      ResizeConserves(newCapacity, contents);
      BalancedDrop(contents, Truncate(newCapacity, contents), scans.Keys, drv.finalized, Surplus(newCapacity, contents),
          drv.nextId, live);
      status := cache.Rebuild(newCapacity, drv, allocOk);
      AfterDrop(contents, was, newCapacity);
    }

    /** What is left after shrinking is still in order. */
    lemma {:induction false} AfterDrop(contents: seq<Cached>, was: map<StmtId, StmtState>, n: nat)
      requires cache.contents == Truncate(n, contents) && drv.stmts == was - ToSet(Surplus(n, contents))
      requires Balanced(cache.contents, scans.Keys, drv.finalized, drv.nextId)
      requires Alive(was.Keys - ToSet(Surplus(n, contents)), drv.finalized, drv.nextId)
      requires Shelved(drv.dialect, contents, was, {}) && Scanning(drv.dialect, scans, was)
      ensures Alive(drv.stmts.Keys, drv.finalized, drv.nextId)
      ensures Shelved(drv.dialect, cache.contents, drv.stmts, {}) && Scanning(drv.dialect, scans, drv.stmts)
    {
      hide StmtCache.Valid, Balanced, Alive, Shelved, Scanning, Surplus, ToSet;
      assert drv.stmts.Keys == was.Keys - ToSet(Surplus(n, contents));
      BalancedOwned(cache.contents, scans.Keys, drv.finalized, drv.nextId, drv.stmts.Keys);
      ShelvedDrop(drv.dialect, contents, cache.contents, was, ToSet(Surplus(n, contents)));
      ScanningKeeps(drv.dialect, scans, was, drv.stmts);
    }

    method AbandonTx(up: bool)
      requires Valid()
      modifies this`depth, drv`frames, drv`tables
      ensures Sound({}, {}) && depth == 0
      ensures drv.frames == if up then [] else old(drv.frames)
      ensures drv.tables == if up && old(depth) > 0 then old(drv.frames)[0].saved else old(drv.tables)
    {
      hide StmtCache.Valid, Balanced, Alive, Shelved, Scanning, TablesOk;
      if depth > 0 {
        var _ := drv.Rollback(up);
        depth := 0;
      }
    }

    /** Rolls back what is open, if the backend carries that out, and finalizes every cached statement. */
    method Close(up: bool)
      requires Valid()
      modifies this`depth, cache, drv`frames, drv`tables, drv`stmts, drv`finalized
      ensures depth == 0 && drv.frames == if up then [] else old(drv.frames)
      ensures drv.tables == if up && old(depth) > 0 then old(drv.frames)[0].saved else old(drv.tables)
      ensures Balanced([], scans.Keys, drv.finalized, drv.nextId) && drv.stmts.Keys == scans.Keys
      ensures scans == map[] ==> drv.stmts == map[] && multiset(drv.finalized) == multiset(Ids(drv.nextId))
    {
      hide StmtCache.Valid, Alive, Shelved, Scanning, Owned, Ids, TablesOk;
      AbandonTx(up);
      ghost var contents, finalized, live := cache.contents, drv.finalized, drv.stmts.Keys;
      assert scans.Keys + {} == scans.Keys;
      BalancedOwned(contents, scans.Keys, finalized, drv.nextId, live);
      cache.Destroy(drv);
      BalancedDrop(contents, [], scans.Keys, finalized, Stmts(contents), drv.nextId, live);
      BalancedOwned([], scans.Keys, drv.finalized, drv.nextId, live - ToSet(Stmts(contents)));
      assert drv.stmts.Keys == live - ToSet(Stmts(contents)) == scans.Keys;
    }
  }

  lemma {:induction false} NewScan(d: Dialect, s: Schema, cond: Option<Condition>, st: StmtState)
    requires st.sql == QueryText(d, s, SelectRows(cond)) && st.binds == QueryBinds(SelectRows(cond), [], NullValue)
    requires st.cursor.None?
    requires PlainQuery(s, SelectRows(cond))
    ensures Scans(d, Scan(s, cond), st)
  {
    hide QueryText;
  }

  lemma {:induction false} OpenStarved(d: Dialect, s: Schema, q: Query, status: Status, memory: nat, allocOk: bool)
    requires (q.UpsertRow? ==> HasKey(s)) && OpenStatus(status, d, s, q, memory, allocOk) && status == NoMemory
    ensures Starved(d, s, q, memory, allocOk)
  {
    hide QueryText;
  }

  /** The text of a scan parses exactly when its condition has no match-all below a connective. */
  lemma {:induction false} ScanParses(d: Dialect, s: Schema, cond: Option<Condition>)
    requires PlainSchema(s)
    ensures KnownQuery(s, SelectRows(cond)) ==> ParseText(QueryText(d, s, SelectRows(cond))).None? == !NoNestedAll(cond)
  {
    if KnownQuery(s, SelectRows(cond)) {
      KnownIsPlain(s, SelectRows(cond));
      QueryRoundTrip(d, s, SelectRows(cond));
    }
  }

  lemma {:induction false} WriteKnown(s: Schema)
    requires PlainSchema(s)
    ensures KnownQuery(s, WriteQuery(s)) && QueryValues(s, WriteQuery(s)) == |s.cols|
  {
  }

  lemma {:induction false} BatchEnds(cmp: Comparator, tables: Tables, sql: string, s: Schema, batch: seq<RowInput>)
    requires TablesOk(tables) && BatchFits(s, batch)
    ensures batch[0..] == batch && batch[|batch|..] == [] && BatchFits(s, [])
    ensures StoreAll(cmp, tables, sql, s, []) == (Ok, tables)
  {
  }

  /** BEGIN, or a savepoint under the name of the next level, which is noted before the driver is asked. */
  method OpenLevel(drv: Driver, names: seq<string>, depth: nat, up: bool) returns (status: Status, noted: seq<string>)
    requires drv.Valid() && InStep(drv.frames, depth, names) && depth < MAX_TX_DEPTH
    modifies drv`frames
    ensures drv.Valid() && status == if up then Ok else DriverError
    ensures InStep(drv.frames, if status == Ok then depth + 1 else depth, noted)
    ensures Enabled(StateOf(old(drv.frames), drv.tables), Began)
    ensures StateOf(drv.frames, drv.tables) ==
            if status == Ok then Next(StateOf(old(drv.frames), drv.tables), Began)
                else StateOf(old(drv.frames), drv.tables)
  {
    hide SpName, StateOf, Next, Enabled, TablesOk;
    noted := names;
    if depth == 0 {
      Pushed(drv.frames, 0, names, BEGIN_FRAME, drv.tables);
      assert [] + [Frame(BEGIN_FRAME, drv.tables)] == [Frame(BEGIN_FRAME, drv.tables)];
      status := drv.Begin(up);
    } else {
      var level := depth + 1;
      Named(drv.frames, depth, names, SpName(level));
      noted := names[level - 1 := SpName(level)];
      Pushed(drv.frames, depth, noted, SpName(level), drv.tables);
      status := drv.Savepoint(noted[level - 1], up);
    }
  }

  /** ROLLBACK TO rewinds the innermost savepoint and RELEASE drops it. */
  method UnwindSavepoint(drv: Driver, spNames: seq<string>, depth: nat, up: bool, releaseUp: bool)
      returns (status: Status)
    requires drv.Valid() && InStep(drv.frames, depth, spNames) && depth >= 2
    modifies drv`frames, drv`tables
    ensures drv.Valid() && status == if up && releaseUp then Ok else DriverError
    ensures drv.frames == if status == Ok then old(drv.frames)[..depth - 1] else old(drv.frames)
    ensures drv.tables == if up then old(drv.frames)[depth - 1].saved else old(drv.tables)
  {
    hide SpName, TablesOk, InnermostNamed;
    var name := spNames[depth - 1];
    InnermostIsLast(drv.frames, depth, spNames);
    Popped(drv.frames, depth, spNames, drv.tables);
    status := drv.RollbackTo(name, up);
    if status == Ok {
      status := drv.Release(name, releaseUp);
    }
  }

  lemma {:induction false} IndexFirst(names: seq<string>, name: string)
    requires name in names
    ensures forall j :: 0 <= j < IndexOf(names, name) ==> names[j] != name
  {
    if names[0] != name {
      IndexFirst(names[1..], name);
      assert forall j :: 1 <= j < |names| ==> names[j] == names[1..][j - 1];
    }
  }

  method FindColIndex(s: Schema, col: string) returns (i: int)
    ensures i == if col in Names(s) then IndexOf(Names(s), col) else -1
  {
    hide IndexOf;
    i := 0;
    while i < |s.cols|
      invariant 0 <= i <= |s.cols| && forall j :: 0 <= j < i ==> Names(s)[j] != col
    {
      if s.cols[i].name == col {
        IndexFirst(Names(s), col);
        assert Names(s)[i] == col;
        return;
      }
      i := i + 1;
    }
    i := -1;
  }

  /** The caller's buffers with their contents. */
  method Allocate(b: Buffers) returns (out: array<byte>, nulls: array?<byte>)
    ensures fresh(out) && (nulls != null ==> fresh(nulls)) && out != nulls && BuffersOf(out, nulls) == b
  {
    out := new byte[|b.row|](i requires 0 <= i < |b.row| => b.row[i]);
    nulls := null;
    if b.nulls.Some? {
      var bits := b.nulls.value;
      nulls := new byte[|bits|](i requires 0 <= i < |bits| => bits[i]);
      assert nulls[..] == bits;
    }
    assert out[..] == b.row;
  }

  lemma {:induction false} BuffersAre(out: array<byte>, nulls: array?<byte>)
    ensures BuffersOf(out, nulls) == Buffers(out[..], if nulls == null then None else Some(nulls[..]))
  {
  }

  /** memcpy of the row and OR of the bitmap. */
  method CopyOut(tmp: array<byte>, tmpNulls: array?<byte>, out: array<byte>, nulls: array?<byte>)
    requires tmp.Length <= out.Length && out != tmp && out != nulls && out != tmpNulls
    requires nulls != null && tmpNulls != null ==> tmpNulls.Length <= nulls.Length && nulls != tmp && nulls != tmpNulls
    requires nulls != null ==> nulls != tmp
    modifies out, nulls
    ensures out[..] == tmp[..] + old(out[..])[tmp.Length..]
    ensures nulls != null ==> nulls[..] == if tmpNulls == null then old(nulls[..])
            else OrBytes(old(nulls[..]), tmpNulls[..])
  {
    forall i | 0 <= i < tmp.Length { out[i] := tmp[i]; }
    assert out[..] == tmp[..] + old(out[..])[tmp.Length..];
    if nulls != null && tmpNulls != null { OrInto(nulls, tmpNulls); }
  }

  ghost function BuffersOf(out: array<byte>, nulls: array?<byte>): Buffers
    reads out, nulls
  {
    Buffers(out[..], if nulls == null then None else Some(nulls[..]))
  }

  // ---- Binding conditions ----------------------------------------------------------------

  /** The values `vs` in place of those from position `at` on. */
  function Patch(binds: seq<Value>, at: nat, vs: seq<Value>): (r: seq<Value>)
    requires at + |vs| <= |binds|
    ensures |r| == |binds|
  {
    binds[..at] + vs + binds[at + |vs|..]
  }

  lemma {:induction false} PatchTwice(binds: seq<Value>, at: nat, a: seq<Value>, b: seq<Value>)
    requires at + |a| + |b| <= |binds|
    ensures Patch(Patch(binds, at, a), at + |a|, b) == Patch(binds, at, a + b)
  {
  }

  lemma {:induction false} PatchOne(binds: seq<Value>, at: nat, v: Value)
    requires at < |binds|
    ensures Patch(binds, at, [v]) == binds[at := v]
  {
  }

  lemma {:induction false} PatchNone(binds: seq<Value>, at: nat)
    requires at <= |binds|
    ensures Patch(binds, at, []) == binds
  {
  }

  lemma {:induction false} PatchAll(binds: seq<Value>, at: nat, vs: seq<Value>)
    requires at + |vs| == |binds|
    ensures Patch(binds, at, vs) == binds[..at] + vs
  {
  }

  lemma {:induction false} BindsNoRow(q: Query, row: Row, v: Value)
    requires !q.InsertRow? && !q.UpsertRow?
    ensures QueryBinds(q, row, v) == QueryBinds(q, [], v)
  {
  }

  /** Visits the leaves from left to right, binding each to the next placeholder. */
  method BindCondValues(drv: Driver, id: StmtId, c: Condition, idx: nat) returns (status: Status, next: nat)
    requires drv.Valid() && id in drv.stmts && drv.stmts[id].cursor.None? && 1 <= idx <= |drv.stmts[id].binds| + 1
    modifies drv`stmts
    ensures drv.Valid() && id in drv.stmts
    ensures var st := old(drv.stmts)[id];
            && drv.stmts == old(drv.stmts)[id := st.(binds := drv.stmts[id].binds)]
                && |drv.stmts[id].binds| == |st.binds|
            && status == (if idx - 1 + |Leaves(c)| <= |st.binds| then Ok else BadIndex(drv.dialect))
            && (status == Ok ==>
                next == idx + |Leaves(c)| && drv.stmts[id].binds == Patch(st.binds, idx - 1, Leaves(c)))
    decreases c, 1
  {
    hide Patch;
    next := idx;
    ghost var st := drv.stmts[id];
    match c {
      case All =>
        PatchNone(st.binds, idx - 1);
        return Ok, next;
      case Leaf(_, _, v) =>
        if idx <= |st.binds| { PatchOne(st.binds, idx - 1, v); }
        status := drv.Bind(id, idx, v);
        next := idx + 1;
      case _ =>
        status, next := BindPair(drv, id, c, idx);
    }
  }

  method BindPair(drv: Driver, id: StmtId, c: Condition, idx: nat) returns (status: Status, next: nat)
    requires drv.Valid() && id in drv.stmts && drv.stmts[id].cursor.None? && 1 <= idx <= |drv.stmts[id].binds| + 1
    requires c.And? || c.Or?
    modifies drv`stmts
    ensures drv.Valid() && id in drv.stmts
    ensures var st, vs := old(drv.stmts)[id], Leaves(c.left) + Leaves(c.right);
            && drv.stmts == old(drv.stmts)[id := st.(binds := drv.stmts[id].binds)]
                && |drv.stmts[id].binds| == |st.binds|
            && status == (if idx - 1 + |vs| <= |st.binds| then Ok else BadIndex(drv.dialect))
            && (status == Ok ==> next == idx + |vs| && drv.stmts[id].binds == Patch(st.binds, idx - 1, vs))
    decreases c, 0
  {
    hide Patch, Leaves;
    ghost var st := drv.stmts[id];
    status, next := BindCondValues(drv, id, c.left, idx);
    if status != Ok { return; }
    status, next := BindCondValues(drv, id, c.right, next);
    if status == Ok { PatchTwice(st.binds, idx - 1, Leaves(c.left), Leaves(c.right)); }
  }
}
