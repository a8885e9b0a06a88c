/**
 * Whole runs of the library. What a run answers and does to the tables is a function of the
 * tables, the schemas and the calls; the cache, its size and its contents do not come into it.
 */
module Runs {
  import opened Core
  import opened Driving
  import opened StmtCaching
  import opened SqlEngine
  import opened Conditions
  import opened Queries
  import opened ApiSpec
  import opened TxSpec
  import opened Handles

  /** A public call; `up` says whether the backend carries out its transaction requests. */
  datatype Call =
    | Write(name: string, row: seq<byte>, bitmap: Option<seq<byte>>)
    | WriteMany(name: string, rows: seq<byte>, count: nat, stride: nat, maps: Option<seq<byte>>, up: bool)
    | Read(name: string, cond: Option<Condition>, allowMulti: bool, into: Buffers)
    | Delete(name: string, cond: Option<Condition>)
    | Count(name: string, cond: Option<Condition>)
    | WriteBlob(name: string, key: Condition, col: string, bytes: seq<byte>)
    | ReadBlob(name: string, key: Condition, col: string)
    | Begin(up: bool)
    | Commit(up: bool)
    | Rollback(up: bool, releaseUp: bool)
    | Resize(capacity: nat)

  /** A status with the number, buffers or bytes the call delivers. */
  datatype Result = Result(status: Status, n: nat, buffers: Buffers, bytes: Option<seq<byte>>)

  const NO_BUFFERS: Buffers := Buffers([], None)

  function Just(status: Status): Result { Result(status, 0, NO_BUFFERS, None) }

  /** What stays fixed during a run. */
  datatype Setting = Setting(d: Dialect, cmp: Comparator, schemas: seq<Schema>)

  /** What the C caller must see to: buffers that reach far enough, and capacities the hash table can take. */
  ghost predicate Proper(schemas: seq<Schema>, c: Call) {
    match c
    case Write(name, row, bitmap) => StructFits(schemas, name, row, bitmap)
    case WriteMany(name, rows, count, stride, maps, _) => ArrayFits(schemas, name, rows, count, stride, maps)
    case Read(name, _, _, into) => BuffersFit(schemas, name, into)
    case Resize(capacity) => 2 * capacity <= SIZE_MAX_PLUS_ONE / 2
    case _ => true
  }

  /** The statements of the call fit in the memory there is. */
  ghost predicate Fed(x: Setting, memory: nat, c: Call)
    requires SchemasOk(x.schemas)
  {
    match c
    case Write(name, _, _) => !WriteStarved(x.d, x.schemas, name, memory, true)
    case WriteMany(name, _, _, _, _, _) => !WriteStarved(x.d, x.schemas, name, memory, true)
    case Read(name, cond, _, _) => !CallStarved(x.d, x.schemas, name, SelectRows(cond), memory, true)
    case Delete(name, cond) => !CallStarved(x.d, x.schemas, name, DeleteRows(cond), memory, true)
    case Count(name, cond) => !CallStarved(x.d, x.schemas, name, CountRows(cond), memory, true)
    case WriteBlob(name, key, col, _) =>
      !CallStarved(x.d, x.schemas, name, SelectField(col, Some(key)), memory, true)
      && !CallStarved(x.d, x.schemas, name, UpdateField(col, Some(key)), memory, true)
    case ReadBlob(name, key, col) => !CallStarved(x.d, x.schemas, name, SelectField(col, Some(key)), memory, true)
    case _ => true
  }

  // ---- The specification of one call -----------------------------------------------------

  ghost predicate WorldOk(w: TxState) {
    TablesOk(w.tables) && |w.stack| <= MAX_TX_DEPTH && forall i :: 0 <= i < |w.stack| ==> TablesOk(w.stack[i])
  }

  ghost function CountResult(r: Reply): Result {
    Result(r.status, if r.status == Ok && |r.rows| == 1 && |r.rows[0]| == 1 && r.rows[0][0].IntValue?
        then Max(r.rows[0][0].i, 0) else 0, NO_BUFFERS, None)
  }

  ghost function TxCall(w: TxState, c: Call): (TxState, Result)
    requires c.Begin? || c.Commit? || c.Rollback?
  {
    match c
    case Begin(up) =>
      if |w.stack| >= MAX_TX_DEPTH then (w, Just(NestedTx)) else if up then (Next(w, Began), Just(Ok))
          else (w, Just(DriverError))
    case Commit(up) =>
      if w.stack == [] then (w, Just(NoActiveTx)) else if up then (Next(w, Committed), Just(Ok))
          else (w, Just(DriverError))
    case Rollback(up, releaseUp) =>
      var n := |w.stack|;
      if n == 0 then (w, Just(NoActiveTx))
      else if up && (n == 1 || releaseUp) then (Next(w, RolledBack), Just(Ok))
      else (if up && n >= 2 then w.(tables := w.stack[n - 1]) else w, Just(DriverError))
  }

  /** What a call does, as if its statement had been prepared for it alone. */
  ghost function Does(x: Setting, w: TxState, c: Call): (TxState, Result)
    requires SchemasOk(x.schemas) && WorldOk(w) && Proper(x.schemas, c)
  {
    match c
    case Write(name, row, bitmap) =>
      var (status, tables) := WriteSpec(x.d, x.cmp, w.tables, x.schemas, name, row, bitmap);
      (w.(tables := tables), Just(status))
    case WriteMany(name, rows, count, stride, maps, up) =>
      var (status, tables) := WriteManySpec(x.d, x.cmp, w.tables, x.schemas, name, rows, count, stride, maps,
          w.stack != [], up);
      (w.(tables := tables), Just(status))
    case Read(name, cond, allowMulti, into) =>
      var (status, buffers) := ReadSpec(x.d, x.cmp, w.tables, x.schemas, name, cond, allowMulti, true, into);
      (w, Result(status, 0, buffers, None))
    case Delete(name, cond) =>
      if cond.None? then (w, Just(InvalidArg))
      else
        var r := CallReply(x.d, x.cmp, w.tables, x.schemas, name, DeleteRows(cond), NullValue);
        (w.(tables := r.tables), Result(r.status, r.changes, NO_BUFFERS, None))
    case Count(name, cond) =>
      (w, CountResult(CallReply(x.d, x.cmp, w.tables, x.schemas, name, CountRows(cond), NullValue)))
    case WriteBlob(name, key, col, bytes) =>
      var (status, tables) := WriteBlobSpec(x.d, x.cmp, w.tables, x.schemas, name, key, col, bytes);
      (w.(tables := tables), Just(status))
    case ReadBlob(name, key, col) =>
      var (status, bytes) := ReadBlobSpec(x.d, x.cmp, w.tables, x.schemas, name, key, col);
      (w, Result(status, 0, NO_BUFFERS, bytes))
    case Resize(_) => (w, Just(Ok))
    case _ => TxCall(w, c)
  }

  // ---- One call at a time ----------------------------------------------------------------

  /** The case of each kind of call, so that its proof sees no other. */
  lemma {:induction false} WriteCase(x: Setting, w: TxState, c: Call, memory: nat)
    requires SchemasOk(x.schemas) && WorldOk(w) && Proper(x.schemas, c) && Fed(x, memory, c) && c.Write?
    ensures StructFits(x.schemas, c.name, c.row, c.bitmap) && !WriteStarved(x.d, x.schemas, c.name, memory, true)
    ensures var r := WriteSpec(x.d, x.cmp, w.tables, x.schemas, c.name, c.row, c.bitmap);
            Does(x, w, c) == (w.(tables := r.1), Just(r.0))
  {
    hide WriteSpec, WriteStarved, SchemasOk;
  }

  lemma {:induction false} WriteManyCase(x: Setting, w: TxState, c: Call, memory: nat)
    requires SchemasOk(x.schemas) && WorldOk(w) && Proper(x.schemas, c) && Fed(x, memory, c) && c.WriteMany?
    ensures ArrayFits(x.schemas, c.name, c.rows, c.count, c.stride, c.maps)
    ensures !WriteStarved(x.d, x.schemas, c.name, memory, true)
    ensures var r := WriteManySpec(x.d, x.cmp, w.tables, x.schemas, c.name, c.rows, c.count, c.stride, c.maps,
            w.stack != [], c.up);
            Does(x, w, c) == (w.(tables := r.1), Just(r.0))
  {
    hide WriteManySpec, WriteStarved, SchemasOk, ArrayFits;
  }

  lemma {:induction false} ReadCase(x: Setting, w: TxState, c: Call, memory: nat)
    requires SchemasOk(x.schemas) && WorldOk(w) && Proper(x.schemas, c) && Fed(x, memory, c) && c.Read?
    ensures BuffersFit(x.schemas, c.name, c.into)
    ensures !CallStarved(x.d, x.schemas, c.name, SelectRows(c.cond), memory, true)
    ensures var r := ReadSpec(x.d, x.cmp, w.tables, x.schemas, c.name, c.cond, c.allowMulti, true, c.into);
            Does(x, w, c) == (w, Result(r.0, 0, r.1, None))
  {
    hide ReadSpec, CallStarved, SchemasOk, BuffersFit;
  }

  lemma {:induction false} DeleteCase(x: Setting, w: TxState, c: Call, memory: nat)
    requires SchemasOk(x.schemas) && WorldOk(w) && Proper(x.schemas, c) && Fed(x, memory, c) && c.Delete?
    ensures !CallStarved(x.d, x.schemas, c.name, DeleteRows(c.cond), memory, true)
    ensures var r := CallReply(x.d, x.cmp, w.tables, x.schemas, c.name, DeleteRows(c.cond), NullValue);
            Does(x, w, c) == if c.cond.None? then (w, Just(InvalidArg))
                else (w.(tables := r.tables), Result(r.status, r.changes, NO_BUFFERS, None))
  {
    hide CallReply, CallStarved, SchemasOk;
  }

  lemma {:induction false} CountCase(x: Setting, w: TxState, c: Call, memory: nat, n: nat)
    requires SchemasOk(x.schemas) && WorldOk(w) && Proper(x.schemas, c) && Fed(x, memory, c) && c.Count?
    ensures !CallStarved(x.d, x.schemas, c.name, CountRows(c.cond), memory, true)
    ensures var r := CallReply(x.d, x.cmp, w.tables, x.schemas, c.name, CountRows(c.cond), NullValue);
            (if r.status == Ok then r.rows == [[IntValue(n)]] else n == 0) ==>
                Does(x, w, c) == (w, Result(r.status, n, NO_BUFFERS, None))
  {
    hide CallReply, CallStarved, SchemasOk;
  }

  lemma {:induction false} WriteBlobCase(x: Setting, w: TxState, c: Call, memory: nat)
    requires SchemasOk(x.schemas) && WorldOk(w) && Proper(x.schemas, c) && Fed(x, memory, c) && c.WriteBlob?
    ensures !CallStarved(x.d, x.schemas, c.name, SelectField(c.col, Some(c.key)), memory, true)
    ensures !CallStarved(x.d, x.schemas, c.name, UpdateField(c.col, Some(c.key)), memory, true)
    ensures var r := WriteBlobSpec(x.d, x.cmp, w.tables, x.schemas, c.name, c.key, c.col, c.bytes);
            Does(x, w, c) == (w.(tables := r.1), Just(r.0))
  {
    hide WriteBlobSpec, CallStarved, SchemasOk;
  }

  lemma {:induction false} ReadBlobCase(x: Setting, w: TxState, c: Call, memory: nat)
    requires SchemasOk(x.schemas) && WorldOk(w) && Proper(x.schemas, c) && Fed(x, memory, c) && c.ReadBlob?
    ensures !CallStarved(x.d, x.schemas, c.name, SelectField(c.col, Some(c.key)), memory, true)
    ensures var r := ReadBlobSpec(x.d, x.cmp, w.tables, x.schemas, c.name, c.key, c.col);
            Does(x, w, c) == (w, Result(r.0, 0, NO_BUFFERS, r.1))
  {
    hide ReadBlobSpec, CallStarved, SchemasOk;
  }

  lemma {:induction false} OtherCase(x: Setting, w: TxState, c: Call)
    requires SchemasOk(x.schemas) && WorldOk(w) && Proper(x.schemas, c)
    ensures c.Begin? || c.Commit? || c.Rollback? ==> Does(x, w, c) == TxCall(w, c)
    ensures c.Resize? ==> 2 * c.capacity <= SIZE_MAX_PLUS_ONE / 2 && Does(x, w, c) == (w, Just(Ok))
  {
    hide SchemasOk, TxCall;
  }

  // ---- The implementation ----------------------------------------------------------------

  ghost function SettingOf(h: Handle): Setting
    reads h
  {
    Setting(h.drv.dialect, h.drv.cmp, h.schemas)
  }

  lemma {:induction false} TablesStep(frames: seq<Frame>, was: Tables, now: Tables)
    ensures StateOf(frames, now) == StateOf(frames, was).(tables := now)
    ensures StateOf(frames, was).tables == was && (StateOf(frames, was).stack != [] <==> |frames| > 0)
  {
  }

  lemma {:induction false} HandleWorldOk(h: Handle)
    requires h.Valid()
    ensures WorldOk(h.Tx()) && SchemasOk(h.schemas)
  {
    hide StmtCache.Valid;
  }

  /** What the views of a valid handle show. */
  lemma {:induction false} Views(h: Handle)
    requires h.Valid()
    ensures h.Tx() == StateOf(h.drv.frames, h.drv.tables)
    ensures SettingOf(h) == Setting(h.drv.dialect, h.drv.cmp, h.schemas)
    ensures h.depth == |h.drv.frames| && SchemasOk(h.schemas)
  {
    hide Handle.Sound, SchemasOk;
  }

  lemma {:induction false} JustIs(status: Status)
    ensures Just(status) == Result(status, 0, NO_BUFFERS, None)
  {
  }

  method RunWrite(h: Handle, c: Call) returns (r: Result)
    requires h.Valid() && Proper(h.schemas, c) && Fed(SettingOf(h), h.memory, c)
    requires c.Write? || c.WriteMany?
    modifies h.cache, h.cache.buckets, h.cache.nodes, h.drv
    ensures h.Valid() && h.cache.buckets == old(h.cache.buckets) && fresh(h.cache.nodes - old(h.cache.nodes))
    ensures (h.Tx(), r) == Does(SettingOf(h), old(h.Tx()), c)
  {
    hide *;
    HandleWorldOk(h);
    ghost var was, w, x := h.drv.tables, h.Tx(), SettingOf(h);
    Views(h);
    TablesStep(h.drv.frames, was, was);
    var status;
    if c.Write? {
      WriteCase(x, w, c, h.memory);
      status := h.Write(c.name, c.row, c.bitmap, true);
    } else {
      WriteManyCase(x, w, c, h.memory);
      status := h.WriteMany(c.name, c.rows, c.count, c.stride, c.maps, c.up, true);
    }
    r := Just(status);
    Views(h);
    TablesStep(h.drv.frames, was, h.drv.tables);
  }

  method RunChange(h: Handle, c: Call) returns (r: Result)
    requires h.Valid() && Proper(h.schemas, c) && Fed(SettingOf(h), h.memory, c)
    requires c.WriteBlob? || c.Delete?
    modifies h.cache, h.cache.buckets, h.cache.nodes, h.drv
    ensures h.Valid() && h.cache.buckets == old(h.cache.buckets) && fresh(h.cache.nodes - old(h.cache.nodes))
    ensures (h.Tx(), r) == Does(SettingOf(h), old(h.Tx()), c)
  {
    hide *;
    HandleWorldOk(h);
    ghost var was, w, x := h.drv.tables, h.Tx(), SettingOf(h);
    Views(h);
    TablesStep(h.drv.frames, was, was);
    var status, n := Ok, 0;
    if c.Delete? {
      DeleteCase(x, w, c, h.memory);
      status, n := h.Delete(c.name, c.cond, true);
    } else {
      WriteBlobCase(x, w, c, h.memory);
      status := h.WriteBlobField(c.name, c.key, c.col, c.bytes, true);
    }
    JustIs(status);
    r := Result(status, n, NO_BUFFERS, None);
    Views(h);
    TablesStep(h.drv.frames, was, h.drv.tables);
  }

  method RunQuery(h: Handle, c: Call) returns (r: Result)
    requires h.Valid() && Proper(h.schemas, c) && Fed(SettingOf(h), h.memory, c)
    requires c.Count? || c.ReadBlob?
    modifies h.cache, h.cache.buckets, h.cache.nodes, h.drv
    ensures h.Valid() && h.cache.buckets == old(h.cache.buckets) && fresh(h.cache.nodes - old(h.cache.nodes))
    ensures (h.Tx(), r) == Does(SettingOf(h), old(h.Tx()), c)
  {
    hide *;
    HandleWorldOk(h);
    ghost var was, w, x := h.drv.tables, h.Tx(), SettingOf(h);
    Views(h);
    TablesStep(h.drv.frames, was, was);
    var status, n, bytes := Ok, 0, None;
    if c.Count? {
      CountCase(x, w, c, h.memory, 0);
      status, n := h.Count(c.name, c.cond, true);
      CountCase(x, w, c, h.memory, n);
    } else {
      ReadBlobCase(x, w, c, h.memory);
      status, bytes := h.ReadBlobField(c.name, c.key, c.col, true);
    }
    r := Result(status, n, NO_BUFFERS, bytes);
    Views(h);
    TablesStep(h.drv.frames, was, h.drv.tables);
  }

  method RunRead(h: Handle, c: Call) returns (r: Result)
    requires h.Valid() && Proper(h.schemas, c) && Fed(SettingOf(h), h.memory, c)
    requires c.Read?
    modifies h.cache, h.cache.buckets, h.cache.nodes, h.drv
    ensures h.Valid() && h.cache.buckets == old(h.cache.buckets) && fresh(h.cache.nodes - old(h.cache.nodes))
    ensures (h.Tx(), r) == Does(SettingOf(h), old(h.Tx()), c)
  {
    hide *;
    HandleWorldOk(h);
    ghost var was, w, x := h.drv.tables, h.Tx(), SettingOf(h);
    Views(h);
    TablesStep(h.drv.frames, was, was);
    ReadCase(x, w, c, h.memory);
    var out, nulls := Allocate(c.into);
    var status := h.Read(c.name, c.cond, out, nulls, c.allowMulti, true, true, true);
    BuffersAre(out, nulls);
    r := Result(status, 0, Buffers(out[..], if nulls == null then None else Some(nulls[..])), None);
    Views(h);
    TablesStep(h.drv.frames, was, h.drv.tables);
  }

  method RunTx(h: Handle, c: Call) returns (r: Result)
    requires h.Valid() && (c.Begin? || c.Commit? || c.Rollback?)
    modifies h`depth, h`spNames, h.drv`frames, h.drv`tables
    ensures h.Valid() && (h.Tx(), r) == TxCall(old(h.Tx()), c)
  {
    assert h.depth == |h.drv.frames| == |h.Tx().stack|;
    hide Handle.Sound, SchemasOk, Next, InStep;
    var status;
    if c.Begin? {
      status := h.BeginTx(c.up);
    } else if c.Commit? {
      status := h.CommitTx(c.up);
    } else {
      status := h.RollbackTx(c.up, c.releaseUp);
    }
    r := Just(status);
  }

  method RunCall(h: Handle, c: Call) returns (r: Result)
    requires h.Valid() && Proper(h.schemas, c) && Fed(SettingOf(h), h.memory, c)
    modifies h`depth, h`spNames, h.cache, h.cache.buckets, h.cache.nodes, h.drv
    ensures h.Valid() && (h.cache.buckets == old(h.cache.buckets) || fresh(h.cache.buckets))
    ensures fresh(h.cache.nodes - old(h.cache.nodes))
    ensures (h.Tx(), r) == Does(SettingOf(h), old(h.Tx()), c)
  {
    hide *;
    HandleWorldOk(h);
    Views(h);
    OtherCase(SettingOf(h), h.Tx(), c);
    match c {
      case Write(_, _, _) => r := RunWrite(h, c);
      case WriteMany(_, _, _, _, _, _) => r := RunWrite(h, c);
      case Read(_, _, _, _) => r := RunRead(h, c);
      case Delete(_, _) => r := RunChange(h, c);
      case Count(_, _) => r := RunQuery(h, c);
      case WriteBlob(_, _, _, _) => r := RunChange(h, c);
      case ReadBlob(_, _, _) => r := RunQuery(h, c);
      case Resize(capacity) =>
        var status := h.SetConfig(capacity, true);
        r := Just(status);
      case _ => r := RunTx(h, c);
    }
    Views(h);
  }

  // ---- Runs ------------------------------------------------------------------------------

  lemma {:induction false} DoesKeepsWorld(x: Setting, w: TxState, c: Call)
    requires SchemasOk(x.schemas) && WorldOk(w) && Proper(x.schemas, c)
    ensures WorldOk(Does(x, w, c).0)
  {
    hide WriteSpec, WriteManySpec, ReadSpec, CallReply, WriteBlobSpec, ReadBlobSpec, SchemasOk, TablesOk;
  }

  ghost predicate AllProper(x: Setting, memory: nat, calls: seq<Call>)
    requires SchemasOk(x.schemas)
  {
    forall i :: 0 <= i < |calls| ==> Proper(x.schemas, calls[i]) && Fed(x, memory, calls[i])
  }

  /** What a run of calls does and answers. */
  ghost function RunSpec(x: Setting, memory: nat, w: TxState, calls: seq<Call>): (TxState, seq<Result>)
    requires SchemasOk(x.schemas) && WorldOk(w) && AllProper(x, memory, calls)
    decreases |calls|
  {
    if calls == [] then (w, [])
    else
      DoesKeepsWorld(x, w, calls[0]);
      var (mid, r) := Does(x, w, calls[0]);
      var (end, rs) := RunSpec(x, memory, mid, calls[1..]);
      (end, [r] + rs)
  }

  lemma {:induction false} RunStep(x: Setting, memory: nat, w: TxState, calls: seq<Call>)
    requires SchemasOk(x.schemas) && WorldOk(w) && AllProper(x, memory, calls)
    ensures calls == [] ==> RunSpec(x, memory, w, calls) == (w, [])
    ensures calls != [] ==>
              && Proper(x.schemas, calls[0]) && Fed(x, memory, calls[0]) && AllProper(x, memory, calls[1..])
              && WorldOk(Does(x, w, calls[0]).0)
              && RunSpec(x, memory, w, calls) ==
                 (RunSpec(x, memory, Does(x, w, calls[0]).0, calls[1..]).0,
                  [Does(x, w, calls[0]).1] + RunSpec(x, memory, Does(x, w, calls[0]).0, calls[1..]).1)
  {
    hide Does, Proper, Fed, SchemasOk, WorldOk;
    if calls != [] {
      assert Proper(x.schemas, calls[0]);
      DoesKeepsWorld(x, w, calls[0]);
    }
  }

  /**
   * Transparency. From every valid state, whatever the cache's size and contents, and through every
   * change of its size, a run gives the results and leaves the tables that preparing each
   * statement afresh would.
   */
  method RunCalls(h: Handle, calls: seq<Call>) returns (rs: seq<Result>)
    requires h.Valid() && AllProper(SettingOf(h), h.memory, calls)
    modifies h`depth, h`spNames, h.cache, h.cache.buckets, h.cache.nodes, h.drv
    ensures h.Valid() && (h.Tx(), rs) == RunSpec(SettingOf(h), h.memory, old(h.Tx()), calls)
    decreases |calls|
  {
    ghost var x, w := SettingOf(h), h.Tx();
    hide *;
    HandleWorldOk(h);
    Views(h);
    RunStep(x, h.memory, w, calls);
    if calls == [] { return []; }
    var r := RunCall(h, calls[0]);
    Views(h);
    var rest := RunCalls(h, calls[1..]);
    rs := [r] + rest;
  }

  // ---- Runs as transactions --------------------------------------------------------------

  /** The event a call from `w` to `end` was: a begin, commit or rollback that succeeded, or a change of the tables. */
  ghost function EventOf(w: TxState, end: TxState, c: Call): TxEvent {
    if end.stack == w.stack then Changed(end.tables)
    else if c.Begin? then Began
    else if c.Commit? then Committed
    else RolledBack
  }

  /** The events of a run, one for each call. */
  ghost function EventsOf(x: Setting, memory: nat, w: TxState, calls: seq<Call>): (es: seq<TxEvent>)
    requires SchemasOk(x.schemas) && WorldOk(w) && AllProper(x, memory, calls)
    ensures |es| == |calls|
    decreases |calls|
  {
    if calls == [] then []
    else
      DoesKeepsWorld(x, w, calls[0]);
      var mid := Does(x, w, calls[0]).0;
      [EventOf(w, mid, calls[0])] + EventsOf(x, memory, mid, calls[1..])
  }

  lemma {:induction false} EventsStep(x: Setting, memory: nat, w: TxState, calls: seq<Call>)
    requires SchemasOk(x.schemas) && WorldOk(w) && AllProper(x, memory, calls)
    ensures calls == [] ==> EventsOf(x, memory, w, calls) == []
    ensures calls != [] ==>
              && AllProper(x, memory, calls[1..]) && Proper(x.schemas, calls[0]) && WorldOk(Does(x, w, calls[0]).0)
              && EventsOf(x, memory, w, calls) ==
                 [EventOf(w, Does(x, w, calls[0]).0, calls[0])] + EventsOf(x, memory, Does(x, w, calls[0]).0,
                     calls[1..])
  {
    hide Does, Proper, Fed, SchemasOk, WorldOk, EventOf;
    if calls != [] {
      assert Proper(x.schemas, calls[0]);
      DoesKeepsWorld(x, w, calls[0]);
    }
  }

  lemma {:induction false} SameStack(x: Setting, w: TxState, c: Call)
    requires SchemasOk(x.schemas) && WorldOk(w) && Proper(x.schemas, c) && !c.Begin? && !c.Commit? && !c.Rollback?
    ensures Does(x, w, c).0 == TxState(w.stack, Does(x, w, c).0.tables)
  {
    hide WriteSpec, WriteManySpec, ReadSpec, CallReply, WriteBlobSpec, ReadBlobSpec, SchemasOk, TablesOk;
  }

  /** One call is its event, and an event of the stack happened exactly when the call said so. */
  lemma {:induction false} CallIsEvent(x: Setting, w: TxState, c: Call)
    requires SchemasOk(x.schemas) && WorldOk(w) && Proper(x.schemas, c)
    ensures var (end, r) := Does(x, w, c);
            var e := EventOf(w, end, c);
            && Enabled(w, e) && Next(w, e) == end
            && (c.Begin? ==> (e.Began? <==> r.status == Ok))
            && (c.Commit? ==> (e.Committed? <==> r.status == Ok))
            && (c.Rollback? ==> (e.RolledBack? <==> r.status == Ok))
  {
    if c.Begin? || c.Commit? || c.Rollback? {
      OtherCase(x, w, c);
    } else {
      SameStack(x, w, c);
    }
    hide Does, SchemasOk, WorldOk, Proper;
  }

  /** Every run of calls, driver failures included, is the run of its events on the snapshot stack. */
  lemma {:induction false} RunIsEvents(x: Setting, memory: nat, w: TxState, calls: seq<Call>)
    requires SchemasOk(x.schemas) && WorldOk(w) && AllProper(x, memory, calls)
    ensures Runs(w, EventsOf(x, memory, w, calls))
    ensures NextAll(w, EventsOf(x, memory, w, calls)) == RunSpec(x, memory, w, calls).0
    decreases |calls|
  {
    RunStep(x, memory, w, calls);
    EventsStep(x, memory, w, calls);
    if calls != [] {
      var mid := Does(x, w, calls[0]).0;
      CallIsEvent(x, w, calls[0]);
      RunIsEvents(x, memory, mid, calls[1..]);
      hide Does, SchemasOk, WorldOk, Proper, Fed, AllProper, RunSpec, EventsOf, EventOf;
      var es := EventsOf(x, memory, mid, calls[1..]);
      assert ([EventOf(w, mid, calls[0])] + es)[1..] == es;
    }
  }

  /** The run never ends a transaction that was open before it: its depth does not fall below `base`. */
  ghost predicate StaysAbove(x: Setting, memory: nat, w: TxState, calls: seq<Call>, base: nat)
    requires SchemasOk(x.schemas) && WorldOk(w) && AllProper(x, memory, calls)
    decreases |calls|
  {
    |w.stack| >= base &&
    (calls != [] ==>
       (DoesKeepsWorld(x, w, calls[0]);
        StaysAbove(x, memory, Does(x, w, calls[0]).0, calls[1..], base)))
  }

  /** Staying above a depth is the same for the calls and for their events. */
  lemma {:induction false} AboveIsLevel(x: Setting, memory: nat, w: TxState, calls: seq<Call>, base: nat, k: nat)
    requires SchemasOk(x.schemas) && WorldOk(w) && AllProper(x, memory, calls)
    requires StaysAbove(x, memory, w, calls, base) && k <= |calls|
    ensures |w.stack| + Level(EventsOf(x, memory, w, calls)[..k]) >= base
    decreases |calls|
  {
    if k > 0 {
      var c := calls[0];
      EventsStep(x, memory, w, calls);
      CallIsEvent(x, w, c);
      var mid := Does(x, w, c).0;
      AboveIsLevel(x, memory, mid, calls[1..], base, k - 1);
      hide Does, SchemasOk, WorldOk, Proper, Fed, AllProper, EventsOf, EventOf, StaysAbove;
      var e, es := EventOf(w, mid, c), EventsOf(x, memory, mid, calls[1..]);
      assert ([e] + es)[..k] == [e] + es[..k - 1] && ([e] + es[..k - 1])[1..] == es[..k - 1];
      assert |mid.stack| - |w.stack| == match e case Began => 1 case Changed(_) => 0 case _ => -1;
    }
  }

  lemma {:induction false} RunKeepsWorld(x: Setting, memory: nat, w: TxState, calls: seq<Call>)
    requires SchemasOk(x.schemas) && WorldOk(w) && AllProper(x, memory, calls)
    ensures WorldOk(RunSpec(x, memory, w, calls).0)
    decreases |calls|
  {
    hide Does, SchemasOk, WorldOk, Proper, Fed, AllProper;
    RunStep(x, memory, w, calls);
    if calls != [] {
      RunKeepsWorld(x, memory, Does(x, w, calls[0]).0, calls[1..]);
    }
  }

  lemma {:induction false} ProperSplit(x: Setting, memory: nat, a: seq<Call>, b: seq<Call>)
    requires SchemasOk(x.schemas) && AllProper(x, memory, a + b)
    ensures AllProper(x, memory, a) && AllProper(x, memory, b)
  {
    hide Proper, Fed, SchemasOk;
    forall i | 0 <= i < |a| ensures Proper(x.schemas, a[i]) && Fed(x, memory, a[i]) { assert (a + b)[i] == a[i]; }
    forall i | 0 <= i < |b| ensures Proper(x.schemas, b[i]) && Fed(x, memory, b[i]) { assert (a + b)[|a| + i] == b[i]; }
  }

  /** The events of a run in two parts are the events of the parts. */
  lemma {:induction false} EventsJoin(x: Setting, memory: nat, w: TxState, a: seq<Call>, b: seq<Call>)
    requires SchemasOk(x.schemas) && WorldOk(w) && AllProper(x, memory, a + b)
    ensures AllProper(x, memory, a) && AllProper(x, memory, b) && WorldOk(RunSpec(x, memory, w, a).0)
    ensures EventsOf(x, memory, w, a + b) ==
            EventsOf(x, memory, w, a) + EventsOf(x, memory, RunSpec(x, memory, w, a).0, b)
    decreases |a|
  {
    hide *;
    ProperSplit(x, memory, a, b);
    RunKeepsWorld(x, memory, w, a);
    RunStep(x, memory, w, a);
    EventsStep(x, memory, w, a);
    if a == [] {
      assert a + b == b;
    } else {
      EventsStep(x, memory, w, a + b);
      assert (a + b)[0] == a[0] && (a + b)[1..] == a[1..] + b;
      EventsJoin(x, memory, Does(x, w, a[0]).0, a[1..], b);
    }
  }

  /** A transaction as the caller sees it: a begin and an end that report OK, with calls between that stay inside it. */
  ghost predicate Bracket(x: Setting, memory: nat, w: TxState, b: Call, inner: seq<Call>, e: Call)
    requires SchemasOk(x.schemas) && WorldOk(w) && AllProper(x, memory, [b] + inner + [e])
  {
    ProperParts(x, memory, b, inner, e);
    DoesKeepsWorld(x, w, b);
    var (start, r) := Does(x, w, b);
    RunKeepsWorld(x, memory, start, inner);
    var end := RunSpec(x, memory, start, inner).0;
    && b.Begin? && r.status == Ok
    && StaysAbove(x, memory, start, inner, |start.stack|) && |end.stack| == |start.stack|
    && Does(x, end, e).1.status == Ok
  }

  lemma {:induction false} ProperParts(x: Setting, memory: nat, b: Call, inner: seq<Call>, e: Call)
    requires SchemasOk(x.schemas) && AllProper(x, memory, [b] + inner + [e])
    ensures Proper(x.schemas, b) && Proper(x.schemas, e) && AllProper(x, memory, inner)
    ensures AllProper(x, memory, [b]) && AllProper(x, memory, [e]) && AllProper(x, memory, [b] + inner)
  {
    hide Proper, Fed, SchemasOk;
    ProperSplit(x, memory, [b] + inner, [e]);
    ProperSplit(x, memory, [b], inner);
    assert [b][0] == b && [e][0] == e;
  }

  /** The calls inside make a balanced run of events. */
  lemma {:induction false} InnerEvents(x: Setting, memory: nat, w: TxState, inner: seq<Call>)
    requires SchemasOk(x.schemas) && WorldOk(w) && AllProper(x, memory, inner)
    requires StaysAbove(x, memory, w, inner, |w.stack|) && |RunSpec(x, memory, w, inner).0.stack| == |w.stack|
    ensures var es := EventsOf(x, memory, w, inner); Runs(w, es) && Inner(es) && Level(es) == 0
  {
    hide *;
    var es := EventsOf(x, memory, w, inner);
    RunIsEvents(x, memory, w, inner);
    forall k | 0 <= k <= |es| ensures |w.stack| + Level(es[..k]) >= |w.stack| {
      AboveIsLevel(x, memory, w, inner, |w.stack|, k);
    }
    InnerKeepsBase(w, es, |w.stack|);
    IsInner(es);
  }

  lemma {:induction false} IsInner(es: seq<TxEvent>)
    requires forall k :: 0 <= k <= |es| ==> Level(es[..k]) >= 0
    ensures Inner(es)
  {
  }

  /** What the bracketed run's events are. */
  lemma {:induction false} BracketEvents(x: Setting, memory: nat, w: TxState, b: Call, inner: seq<Call>, e: Call)
    requires SchemasOk(x.schemas) && WorldOk(w) && AllProper(x, memory, [b] + inner + [e])
    requires Bracket(x, memory, w, b, inner, e)
    requires e.Commit? || e.Rollback?
    ensures AllProper(x, memory, inner) && Enabled(w, Began) && WorldOk(Next(w, Began))
    ensures var start := Next(w, Began);
            var es := EventsOf(x, memory, start, inner);
            && Runs(start, es) && Inner(es) && Level(es) == 0
                && NextAll(start, es) == RunSpec(x, memory, start, inner).0
            && EventsOf(x, memory, w, [b] + inner + [e]) == [Began] + es + [if e.Commit? then Committed else RolledBack]
  {
    ProperParts(x, memory, b, inner, e);
    CallIsEvent(x, w, b);
    var start := Does(x, w, b).0;
    DoesKeepsWorld(x, w, b);
    RunKeepsWorld(x, memory, start, inner);
    var end := RunSpec(x, memory, start, inner).0;
    CallIsEvent(x, end, e);
    InnerEvents(x, memory, start, inner);
    hide *;
    RunIsEvents(x, memory, start, inner);
    EventsJoin(x, memory, w, [b] + inner, [e]);
    EventsJoin(x, memory, w, [b], inner);
    OneCall(x, memory, w, b);
    OneCall(x, memory, end, e);
    RunJoin(x, memory, w, [b], inner);
  }

  lemma {:induction false} OneCall(x: Setting, memory: nat, w: TxState, c: Call)
    requires SchemasOk(x.schemas) && WorldOk(w) && AllProper(x, memory, [c])
    ensures Proper(x.schemas, c)
    ensures EventsOf(x, memory, w, [c]) == [EventOf(w, Does(x, w, c).0, c)]
    ensures RunSpec(x, memory, w, [c]).0 == Does(x, w, c).0
  {
    hide *;
    RunStep(x, memory, w, [c]);
    EventsStep(x, memory, w, [c]);
    assert [c][0] == c && [c][1..] == [];
    RunStep(x, memory, Does(x, w, c).0, []);
    EventsStep(x, memory, Does(x, w, c).0, []);
  }

  lemma {:induction false} RunJoin(x: Setting, memory: nat, w: TxState, a: seq<Call>, b: seq<Call>)
    requires SchemasOk(x.schemas) && WorldOk(w) && AllProper(x, memory, a + b)
    ensures AllProper(x, memory, a) && AllProper(x, memory, b) && WorldOk(RunSpec(x, memory, w, a).0)
    ensures RunSpec(x, memory, w, a + b).0 == RunSpec(x, memory, RunSpec(x, memory, w, a).0, b).0
    decreases |a|
  {
    hide *;
    ProperSplit(x, memory, a, b);
    RunKeepsWorld(x, memory, w, a);
    RunStep(x, memory, w, a);
    if a == [] {
      assert a + b == b;
    } else {
      RunStep(x, memory, w, a + b);
      assert (a + b)[0] == a[0] && (a + b)[1..] == a[1..] + b;
      RunJoin(x, memory, Does(x, w, a[0]).0, a[1..], b);
    }
  }

  /**
   * In every run, driver failures included: a rollback that reports OK restores the tables and all enclosing
   * snapshots as they were at its matching begin, whatever calls, nested transactions among them, came between.
   */
  lemma {:induction false} RollbackRunRestores(x: Setting, memory: nat, w: TxState, b: Call, inner: seq<Call>, e: Call)
    requires SchemasOk(x.schemas) && WorldOk(w) && AllProper(x, memory, [b] + inner + [e])
    requires Bracket(x, memory, w, b, inner, e) && e.Rollback?
    ensures RunSpec(x, memory, w, [b] + inner + [e]).0 == w
  {
    hide *;
    BracketEvents(x, memory, w, b, inner, e);
    RunIsEvents(x, memory, w, [b] + inner + [e]);
    RollbackRestores(w, EventsOf(x, memory, Next(w, Began), inner));
  }

  /** A commit that reports OK keeps what the calls inside made of the tables, and the enclosing snapshots. */
  lemma {:induction false} CommitRunKeeps(x: Setting, memory: nat, w: TxState, b: Call, inner: seq<Call>, e: Call)
    requires SchemasOk(x.schemas) && WorldOk(w) && AllProper(x, memory, [b] + inner + [e])
    requires Bracket(x, memory, w, b, inner, e) && e.Commit?
    ensures AllProper(x, memory, inner) && Enabled(w, Began) && WorldOk(Next(w, Began))
    ensures RunSpec(x, memory, w, [b] + inner + [e]).0 ==
            TxState(w.stack, RunSpec(x, memory, Next(w, Began), inner).0.tables)
  {
    hide *;
    BracketEvents(x, memory, w, b, inner, e);
    RunIsEvents(x, memory, w, [b] + inner + [e]);
    CommitKeeps(w, EventsOf(x, memory, Next(w, Began), inner));
  }
}
