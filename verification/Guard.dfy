/** The generated capacity guard: a write that would add a row to a full table is refused. */
module Guard {
  import opened Core
  import opened Conditions
  import opened Queries
  import opened SqlEngine
  import opened TableSpec
  import opened QueryMeaning
  import opened RowBytes
  import opened RowMapping
  import opened ApiSpec
  import opened ApiMeaning
  import opened StmtCaching
  import opened Handles
  import opened TxSpec

  /** A struct with a key that cannot be NULL, and something besides it. */
  ghost predicate Keyed(s: Schema) {
    PlainSchema(s) && s.pkIndex >= 0 && |s.cols| >= 2 && !s.cols[s.pkIndex].nullable
  }

  /** The condition that picks the row with a struct's key. */
  function KeyIs(s: Schema, row: seq<byte>): Condition
    requires 0 <= s.pkIndex < |s.cols| && RowFits(s, |row|)
  {
    Leaf(s.cols[s.pkIndex].name, Eq, CellValue(s.cols[s.pkIndex], row))
  }

  function Total(r: Reply): nat {
    if |r.rows| == 1 && |r.rows[0]| == 1 && r.rows[0][0].IntValue? && r.rows[0][0].i >= 0 then r.rows[0][0].i else 0
  }

  /** Two counts and a test. */
  ghost function CheckSpec(d: Dialect, cmp: Comparator, tables: Tables, schemas: seq<Schema>, s: Schema, max: nat,
      row: seq<byte>): (status: Status)
    requires TablesOk(tables) && 0 <= s.pkIndex < |s.cols| && RowFits(s, |row|)
    ensures status != NoMemory
  {
    var all := CallReply(d, cmp, tables, schemas, s.name, CountRows(None), NullValue);
    var same := CallReply(d, cmp, tables, schemas, s.name, CountRows(Some(KeyIs(s, row))), NullValue);
    if all.status != Ok then all.status
    else if same.status != Ok then same.status
    else if Total(same) == 0 && Total(all) >= max then CapacityExceeded
    else Ok
  }

  /** The guard: the check and then, if it passes, the write. */
  ghost function GuardSpec(d: Dialect, cmp: Comparator, tables: Tables, schemas: seq<Schema>, s: Schema, max: nat,
      row: seq<byte>, bitmap: Option<seq<byte>>): (r: (Status, Tables))
    requires TablesOk(tables) && SchemasOk(schemas) && StructFits(schemas, s.name, row, bitmap)
    requires FindSchema(schemas, s.name) == Some(s) && s.pkIndex >= 0
    ensures TablesOk(r.1)
  {
    var status := CheckSpec(d, cmp, tables, schemas, s, max, row);
    if status != Ok then (status, tables) else WriteSpec(d, cmp, tables, schemas, s.name, row, bitmap)
  }

  method CountOf(h: Handle, name: string, cond: Option<Condition>, allocOk: bool) returns (status: Status, n: nat)
    requires h.Valid()
    modifies h.cache, h.cache.buckets, h.cache.nodes, h.drv
    ensures h.Valid() && h.drv.frames == old(h.drv.frames) && h.drv.tables == old(h.drv.tables)
    ensures h.cache.buckets == old(h.cache.buckets) && fresh(h.cache.nodes - old(h.cache.nodes))
    ensures var r := CallReply(h.drv.dialect, h.drv.cmp, old(h.drv.tables), h.schemas, name, CountRows(cond),
            NullValue);
            if status == NoMemory then CallStarved(h.drv.dialect, h.schemas, name, CountRows(cond), h.memory, allocOk)
            else status == r.status && (status == Ok ==> n == Total(r))
  {
    hide Handle.Sound, CallReply, CallStarved, SchemasOk, FindSchema, InStep;
    status, n := h.Count(name, cond, allocOk);
  }

  /** Memory runs out in one of the two counts. */
  ghost predicate CheckStarved(d: Dialect, schemas: seq<Schema>, s: Schema, row: seq<byte>, memory: nat, allocOk: bool)
    requires 0 <= s.pkIndex < |s.cols| && RowFits(s, |row|)
  {
    || CallStarved(d, schemas, s.name, CountRows(None), memory, allocOk)
    || CallStarved(d, schemas, s.name, CountRows(Some(KeyIs(s, row))), memory, allocOk)
  }

  method Check(h: Handle, s: Schema, max: nat, row: seq<byte>, allocOk: bool) returns (status: Status)
    requires h.Valid() && 0 <= s.pkIndex < |s.cols| && RowFits(s, |row|)
    modifies h.cache, h.cache.buckets, h.cache.nodes, h.drv
    ensures h.Valid() && h.drv.frames == old(h.drv.frames) && h.drv.tables == old(h.drv.tables)
    ensures h.cache.buckets == old(h.cache.buckets) && fresh(h.cache.nodes - old(h.cache.nodes))
    ensures if status == NoMemory then CheckStarved(h.drv.dialect, h.schemas, s, row, h.memory, allocOk)
            else status == CheckSpec(h.drv.dialect, h.drv.cmp, old(h.drv.tables), h.schemas, s, max, row)
  {
    hide Handle.Sound, CallReply, CallStarved, SchemasOk, FindSchema, Total, InStep, KeyIs;
    var total, existing;
    status, total := CountOf(h, s.name, None, allocOk);
    if status != Ok { return; }
    status, existing := CountOf(h, s.name, Some(KeyIs(s, row)), allocOk);
    if status != Ok { return; }
    if existing == 0 && total >= max { return CapacityExceeded; }
  }

  /** Memory runs out in one of the counts or in the write. */
  ghost predicate GuardStarved(d: Dialect, schemas: seq<Schema>, s: Schema, row: seq<byte>, memory: nat, allocOk: bool)
    requires SchemasOk(schemas) && 0 <= s.pkIndex < |s.cols| && RowFits(s, |row|)
  {
    CheckStarved(d, schemas, s, row, memory, allocOk) || WriteStarved(d, schemas, s.name, memory, allocOk)
  }

  method WriteGuarded(h: Handle, s: Schema, max: nat, row: seq<byte>, bitmap: Option<seq<byte>>, allocOk: bool)
      returns (status: Status)
    requires h.Valid() && FindSchema(h.schemas, s.name) == Some(s) && s.pkIndex >= 0
    requires StructFits(h.schemas, s.name, row, bitmap)
    modifies h.cache, h.cache.buckets, h.cache.nodes, h.drv
    ensures h.Valid() && h.drv.frames == old(h.drv.frames)
    ensures if status == NoMemory then
              h.drv.tables == old(h.drv.tables) && GuardStarved(h.drv.dialect, h.schemas, s, row, h.memory, allocOk)
            else (status, h.drv.tables) == GuardSpec(h.drv.dialect, h.drv.cmp, old(h.drv.tables), h.schemas, s, max,
                row, bitmap)
    ensures Keyed(s) && KeyTable(old(h.drv.tables), s) && EqIsEquality(h.drv.cmp, s.cols[s.pkIndex].typ)
            && !GuardStarved(h.drv.dialect, h.schemas, s, row, h.memory, allocOk) ==>
              && (status == CapacityExceeded <==> IsNewAndFull(old(h.drv.tables), s, max, row))
              && (status != Ok ==> h.drv.tables == old(h.drv.tables))
  {
    ghost var d, cmp, tables := h.drv.dialect, h.drv.cmp, h.drv.tables;
    hide *;
    GuardPlain(h, s);
    GuardCases(d, cmp, tables, h.schemas, s, max, row, bitmap);
    status := Check(h, s, max, row, allocOk);
    GuardStarvedMeans(d, h.schemas, s, row, h.memory, allocOk);
    if status != Ok { return; }
    status := h.Write(s.name, row, bitmap, allocOk);
  }

  lemma {:induction false} GuardPlain(h: Handle, s: Schema)
    requires h.Valid() && FindSchema(h.schemas, s.name) == Some(s) && s.pkIndex >= 0
    ensures SchemasOk(h.schemas) && TablesOk(h.drv.tables) && s.pkIndex < |s.cols|
  {
    hide StmtCache.Valid;
    h.WorldIsOk();
    assert PlainSchema(s);
  }

  lemma {:induction false} GuardStarvedMeans(d: Dialect, schemas: seq<Schema>, s: Schema, row: seq<byte>, memory: nat,
      allocOk: bool)
    requires SchemasOk(schemas) && 0 <= s.pkIndex < |s.cols| && RowFits(s, |row|)
    ensures GuardStarved(d, schemas, s, row, memory, allocOk) <==>
            CheckStarved(d, schemas, s, row, memory, allocOk) || WriteStarved(d, schemas, s.name, memory, allocOk)
  {
  }

  /** What the specification makes of the check's status, and what it says of keys and rows. */
  lemma {:induction false} GuardCases(d: Dialect, cmp: Comparator, tables: Tables, schemas: seq<Schema>, s: Schema,
      max: nat, row: seq<byte>, bitmap: Option<seq<byte>>)
    requires TablesOk(tables) && SchemasOk(schemas) && FindSchema(schemas, s.name) == Some(s)
    requires StructFits(schemas, s.name, row, bitmap) && s.pkIndex >= 0
    ensures s.pkIndex < |s.cols| && RowFits(s, |row|)
    ensures var status, r := CheckSpec(d, cmp, tables, schemas, s, max, row),
            GuardSpec(d, cmp, tables, schemas, s, max, row, bitmap);
            r == if status != Ok then (status, tables) else WriteSpec(d, cmp, tables, schemas, s.name, row, bitmap)
    ensures Keyed(s) && KeyTable(tables, s) && EqIsEquality(cmp, s.cols[s.pkIndex].typ) ==>
              var r := GuardSpec(d, cmp, tables, schemas, s, max, row, bitmap);
              (r.0 == CapacityExceeded <==> IsNewAndFull(tables, s, max, row)) && (r.0 != Ok ==> r.1 == tables)
  {
    hide CheckSpec, WriteSpec, KeyTable, EqIsEquality, TablesOk;
    assert PlainSchema(s);
    if Keyed(s) && KeyTable(tables, s) && EqIsEquality(cmp, s.cols[s.pkIndex].typ) {
      GuardedStep(d, cmp, tables, schemas, s, max, row, bitmap);
    }
  }

  // ---- What the guard guarantees ---------------------------------------------------------

  /** A value of a column of that type, not NULL. */
  predicate OfType(t: SqlType, v: Value) {
    match t
    case Int32 => v.IntValue?
    case Int64 => v.IntValue?
    case Real => v.RealValue?
    case Text => v.TextValue?
    case Blob => v.BlobValue?
  }

  /** The backend's `=` tells values of the key's type apart: true of integers, text and blobs. */
  ghost predicate EqIsEquality(cmp: Comparator, t: SqlType) {
    forall x, y :: OfType(t, x) && OfType(t, y) ==> cmp(x, Eq, y) == (x == y)
  }

  /** Every row's value in column `k` is of that type. */
  ghost predicate AllOfType(t: SqlType, rows: seq<Row>, k: nat) {
    forall i :: 0 <= i < |rows| ==> k < |rows[i]| && OfType(t, rows[i][k])
  }

  /** The table serves the schema and its keys are of the key column's type. */
  ghost predicate KeyTable(tables: Tables, s: Schema) {
    Served(tables, s) && 0 <= s.pkIndex < |s.cols| && AllOfType(s.cols[s.pkIndex].typ, tables[s.name].rows, s.pkIndex)
  }

  predicate HasKeyValue(rows: seq<Row>, k: nat, v: Value)
    requires forall i :: 0 <= i < |rows| ==> k < |rows[i]|
  {
    exists i :: 0 <= i < |rows| && rows[i][k] == v
  }

  /** The struct's key is new and the table has its `max` rows. */
  ghost predicate IsNewAndFull(tables: Tables, s: Schema, max: nat, row: seq<byte>)
    requires KeyTable(tables, s) && RowFits(s, |row|)
  {
    && !HasKeyValue(tables[s.name].rows, s.pkIndex, CellValue(s.cols[s.pkIndex], row))
    && |tables[s.name].rows| >= max
  }

  lemma {:induction false} KeySelected(cmp: Comparator, names: seq<string>, row: Row, k: nat, t: SqlType, v: Value)
    requires Distinct(names) && k < |names| == |row| && EqIsEquality(cmp, t) && OfType(t, v) && OfType(t, row[k])
    ensures Known(names, Some(Leaf(names[k], Eq, v)))
    ensures Selected(cmp, names, row, Some(Leaf(names[k], Eq, v))) <==> row[k] == v
  {
    IndexUnique(names, k);
    hide IndexOf, Distinct;
  }

  lemma {:induction false} KeyMatches(cmp: Comparator, names: seq<string>, rows: seq<Row>, k: nat, t: SqlType, v: Value)
    requires Distinct(names) && k < |names| && Shaped(|names|, rows)
    requires EqIsEquality(cmp, t) && OfType(t, v) && AllOfType(t, rows, k)
    ensures Known(names, Some(Leaf(names[k], Eq, v)))
    ensures Matching(cmp, names, rows, Some(Leaf(names[k], Eq, v))) == [] <==> !HasKeyValue(rows, k, v)
  {
    hide Selected, EqIsEquality, Distinct;
    if rows != [] {
      KeySelected(cmp, names, rows[0], k, t, v);
      KeyMatches(cmp, names, rows[1..], k, t, v);
      assert forall i :: 1 <= i < |rows| ==> rows[i] == rows[1..][i - 1];
    }
  }

  lemma {:induction false} AllMatch(cmp: Comparator, names: seq<string>, rows: seq<Row>)
    requires Shaped(|names|, rows)
    ensures Matching(cmp, names, rows, None) == rows
  {
    if rows != [] {
      AllMatch(cmp, names, rows[1..]);
    }
  }

  /** An upsert of a key that is there keeps the number of rows; of a new one, it adds one. */
  lemma {:induction false} UpsertCount(rows: seq<Row>, k: nat, vals: Row)
    requires k < |vals| && Shaped(|vals|, rows) && vals[k] != NullValue
    ensures |Upserted(rows, k, vals)| == |rows| + if HasKeyValue(rows, k, vals[k]) then 0 else 1
  {
    UpsertRows(rows, k, vals);
  }

  lemma {:induction false} CountCall(d: Dialect, cmp: Comparator, tables: Tables, schemas: seq<Schema>, s: Schema,
      cond: Option<Condition>)
    requires SchemasOk(schemas) && FindSchema(schemas, s.name) == Some(s) && Served(tables, s) && Known(Names(s), cond)
    requires NoNestedAll(cond)
    ensures var r := CallReply(d, cmp, tables, schemas, s.name, CountRows(cond), NullValue);
            r.status == Ok && Total(r) == |Matching(cmp, Names(s), tables[s.name].rows, cond)|
  {
    CountMeans(d, cmp, tables, s, cond);
    hide QueryReply, Matching, Served, NoNestedAll;
  }

  /** The guard in terms of rows: it refuses exactly a new key in a full table. */
  lemma {:induction false} GuardMeans(d: Dialect, cmp: Comparator, tables: Tables, schemas: seq<Schema>, s: Schema,
      max: nat, row: seq<byte>, bitmap: Option<seq<byte>>)
    requires SchemasOk(schemas) && FindSchema(schemas, s.name) == Some(s) && StructFits(schemas, s.name, row, bitmap)
    requires Keyed(s) && KeyTable(tables, s) && EqIsEquality(cmp, s.cols[s.pkIndex].typ)
    ensures GuardSpec(d, cmp, tables, schemas, s, max, row, bitmap) ==
            if !HasKeyValue(tables[s.name].rows, s.pkIndex, CellValue(s.cols[s.pkIndex], row))
                && |tables[s.name].rows| >= max
            then (CapacityExceeded, tables)
            else WriteSpec(d, cmp, tables, schemas, s.name, row, bitmap)
  {
    var names, rows, k := Names(s), tables[s.name].rows, s.pkIndex;
    var v := CellValue(s.cols[k], row);
    AllMatch(cmp, names, rows);
    KeyMatches(cmp, names, rows, k, s.cols[k].typ, v);
    CountCall(d, cmp, tables, schemas, s, None);
    CountCall(d, cmp, tables, schemas, s, Some(KeyIs(s, row)));
    hide CallReply, WriteSpec, Matching, HasKeyValue, CellValue, FindSchema, Served, RowFits, EqIsEquality, Total,
         SchemasOk, AllOfType;
  }

  // ---- Runs of the guard -----------------------------------------------------------------

  /** A client that writes through the guard and deletes. */
  datatype Step = Guarded(row: seq<byte>, bitmap: Option<seq<byte>>) | Deleted(cond: Condition)

  ghost predicate StepOk(schemas: seq<Schema>, s: Schema, step: Step) {
    match step
    case Guarded(row, bitmap) => StructFits(schemas, s.name, row, bitmap)
    case Deleted(cond) => true
  }

  ghost function Does(d: Dialect, cmp: Comparator, tables: Tables, schemas: seq<Schema>, s: Schema, max: nat,
      step: Step): (r: (Status, Tables))
    requires TablesOk(tables) && SchemasOk(schemas) && FindSchema(schemas, s.name) == Some(s) && s.pkIndex >= 0
    requires StepOk(schemas, s, step)
    ensures TablesOk(r.1)
  {
    match step
    case Guarded(row, bitmap) => GuardSpec(d, cmp, tables, schemas, s, max, row, bitmap)
    case Deleted(cond) =>
      var r := CallReply(d, cmp, tables, schemas, s.name, DeleteRows(Some(cond)), NullValue);
      (r.status, r.tables)
  }

  /** Served tables stay served when their rows are replaced by well-shaped ones. */
  lemma {:induction false} ServedRows(tables: Tables, s: Schema, rows: seq<Row>)
    requires Served(tables, s) && Shaped(|s.cols|, rows)
    ensures Served(WithRows(tables, s.name, rows), s)
  {
    hide Distinct;
    var after := WithRows(tables, s.name, rows);
    assert ColumnNames(after[s.name]) == ColumnNames(tables[s.name]);
  }

  lemma {:induction false} UpsertOfType(t: SqlType, rows: seq<Row>, k: nat, vals: Row)
    requires k < |vals| && Shaped(|vals|, rows) && AllOfType(t, rows, k) && OfType(t, vals[k])
    ensures AllOfType(t, Upserted(rows, k, vals), k)
  {
    UpsertRows(rows, k, vals);
  }

  lemma {:induction false} AcceptedRows(tables: Tables, s: Schema, vals: Row)
    requires Keyed(s) && KeyTable(tables, s) && |vals| == |s.cols| && OfType(s.cols[s.pkIndex].typ, vals[s.pkIndex])
    ensures var rows, k := tables[s.name].rows, s.pkIndex;
            && |Written(s, rows, vals)| == |rows| + (if HasKeyValue(rows, k, vals[k]) then 0 else 1)
            && KeyTable(WithRows(tables, s.name, Written(s, rows, vals)), s)
  {
    UpsertOfType(s.cols[s.pkIndex].typ, tables[s.name].rows, s.pkIndex, vals);
    UpsertCount(tables[s.name].rows, s.pkIndex, vals);
    ServedRows(tables, s, Written(s, tables[s.name].rows, vals));
  }

  lemma {:induction false} KeyBound(s: Schema, row: seq<byte>, bitmap: Option<seq<byte>>)
    requires Keyed(s) && RowFits(s, |row|) && BitmapFits(s, bitmap) && NullsAllowed(s, bitmap)
    ensures RowValues(s, row, bitmap)[s.pkIndex] == CellValue(s.cols[s.pkIndex], row)
    ensures OfType(s.cols[s.pkIndex].typ, CellValue(s.cols[s.pkIndex], row))
  {
    hide NullBit;
    assert !NullBit(bitmap, s.pkIndex);
  }

  /** What a write does to the number of rows. */
  lemma {:induction false} WriteCount(d: Dialect, cmp: Comparator, tables: Tables, schemas: seq<Schema>, s: Schema,
      row: seq<byte>, bitmap: Option<seq<byte>>)
    requires SchemasOk(schemas) && FindSchema(schemas, s.name) == Some(s) && StructFits(schemas, s.name, row, bitmap)
    requires Keyed(s) && KeyTable(tables, s)
    ensures var r := WriteSpec(d, cmp, tables, schemas, s.name, row, bitmap);
            var has := HasKeyValue(tables[s.name].rows, s.pkIndex, CellValue(s.cols[s.pkIndex], row));
            && KeyTable(r.1, s) && (r.0 != Ok ==> r.1 == tables) && r.0 != CapacityExceeded
            && |tables[s.name].rows| <= |r.1[s.name].rows| <= |tables[s.name].rows| + (if has then 0 else 1)
  {
    hide WriteSpec, Admissible, RowValues, SchemasOk, FindSchema, NullsAllowed, CellValue, HasKeyValue, Written,
         TablesOk, NullBit, Distinct, PlainSchema;
    ForbiddenNull(s, bitmap);
    if NullsAllowed(s, bitmap) {
      KeyBound(s, row, bitmap);
      WriteMeans(d, cmp, tables, schemas, s, row, bitmap);
      AcceptedRows(tables, s, RowValues(s, row, bitmap));
    } else {
      var i :| 0 <= i < |s.cols| && NullBit(bitmap, i) && !s.cols[i].nullable;
      WriteRefused(d, cmp, tables, schemas, s, row, bitmap, i);
    }
  }

  /** One guarded write. */
  lemma {:induction false} GuardedStep(d: Dialect, cmp: Comparator, tables: Tables, schemas: seq<Schema>, s: Schema,
      max: nat, row: seq<byte>, bitmap: Option<seq<byte>>)
    requires SchemasOk(schemas) && FindSchema(schemas, s.name) == Some(s) && StructFits(schemas, s.name, row, bitmap)
    requires Keyed(s) && KeyTable(tables, s) && EqIsEquality(cmp, s.cols[s.pkIndex].typ)
    ensures var r := GuardSpec(d, cmp, tables, schemas, s, max, row, bitmap);
            var has := HasKeyValue(tables[s.name].rows, s.pkIndex, CellValue(s.cols[s.pkIndex], row));
            && KeyTable(r.1, s) && |r.1[s.name].rows| <= Max(|tables[s.name].rows|, max)
            && (r.0 != Ok ==> r.1 == tables)
            && (has ==> |r.1[s.name].rows| == |tables[s.name].rows|)
            && (r.0 == CapacityExceeded <==> !has && |tables[s.name].rows| >= max)
  {
    GuardMeans(d, cmp, tables, schemas, s, max, row, bitmap);
    WriteCount(d, cmp, tables, schemas, s, row, bitmap);
    hide GuardSpec, WriteSpec, HasKeyValue, CellValue, EqIsEquality, SchemasOk, FindSchema, Distinct, TablesOk, Fits;
  }

  lemma {:induction false} FewerOfType(t: SqlType, rows: seq<Row>, some: seq<Row>, k: nat)
    requires AllOfType(t, rows, k) && forall i :: 0 <= i < |some| ==> some[i] in rows
    ensures AllOfType(t, some, k)
  {
  }

  /** One delete. */
  lemma {:induction false} DeletedStep(d: Dialect, cmp: Comparator, tables: Tables, schemas: seq<Schema>, s: Schema,
      cond: Condition)
    requires SchemasOk(schemas) && FindSchema(schemas, s.name) == Some(s) && KeyTable(tables, s)
    ensures var r := CallReply(d, cmp, tables, schemas, s.name, DeleteRows(Some(cond)), NullValue);
            KeyTable(r.tables, s) && |r.tables[s.name].rows| <= |tables[s.name].rows|
  {
    var q := DeleteRows(Some(cond));
    if KnownQuery(s, q) && NoNestedAll(Some(cond)) {
      var rows := tables[s.name].rows;
      DeleteRowsMeans(d, cmp, tables, s, Some(cond));
      DeleteSplits(cmp, Names(s), rows, Some(cond));
      ServedRows(tables, s, Others(cmp, Names(s), rows, Some(cond)));
      FewerOfType(s.cols[s.pkIndex].typ, rows, Others(cmp, Names(s), rows, Some(cond)), s.pkIndex);
    } else if KnownQuery(s, q) {
      ReplyMeans(d, cmp, tables, s, q, NullValue);
    }
    hide QueryReply, Others, Matching, SchemasOk, FindSchema, Served, AllOfType;
  }

  ghost function RunSteps(d: Dialect, cmp: Comparator, tables: Tables, schemas: seq<Schema>, s: Schema, max: nat,
      steps: seq<Step>): Tables
    requires TablesOk(tables) && SchemasOk(schemas) && FindSchema(schemas, s.name) == Some(s) && s.pkIndex >= 0
    requires forall i :: 0 <= i < |steps| ==> StepOk(schemas, s, steps[i])
    decreases |steps|
  {
    if steps == [] then tables
    else RunSteps(d, cmp, Does(d, cmp, tables, schemas, s, max, steps[0]).1, schemas, s, max, steps[1..])
  }

  /** In every single-client run of guarded writes and deletes the table never outgrows the limit. */
  lemma {:induction false} GuardHolds(d: Dialect, cmp: Comparator, tables: Tables, schemas: seq<Schema>, s: Schema,
      max: nat, steps: seq<Step>)
    requires SchemasOk(schemas) && FindSchema(schemas, s.name) == Some(s) && Keyed(s) && KeyTable(tables, s)
    requires EqIsEquality(cmp, s.cols[s.pkIndex].typ) && forall i :: 0 <= i < |steps| ==> StepOk(schemas, s, steps[i])
    ensures var end := RunSteps(d, cmp, tables, schemas, s, max, steps);
            KeyTable(end, s) && |end[s.name].rows| <= Max(|tables[s.name].rows|, max)
    decreases |steps|
  {
    if steps != [] {
      match steps[0] {
        case Guarded(row, bitmap) => GuardedStep(d, cmp, tables, schemas, s, max, row, bitmap);
        case Deleted(cond) => DeletedStep(d, cmp, tables, schemas, s, cond);
      }
      var mid := Does(d, cmp, tables, schemas, s, max, steps[0]).1;
      hide Does, SchemasOk, EqIsEquality, StepOk, FindSchema, Fits, TablesOk;
      GuardHolds(d, cmp, mid, schemas, s, max, steps[1..]);
    }
  }
}
