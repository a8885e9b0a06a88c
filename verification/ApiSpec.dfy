/** What the public calls do, each as if its statement were prepared for this one use. */
module ApiSpec {
  import opened Core
  import opened Driving
  import opened SqlText
  import opened SqlStatements
  import opened SqlGrammar
  import opened SqlEngine
  import opened Conditions
  import opened Queries
  import opened QueryBuilder
  import opened QueryParsing
  import opened TableSpec
  import opened PgParams
  import opened RowBytes
  import opened RowMapping

  predicate SameShape(a: StmtState, b: StmtState) { a.sql == b.sql && |a.binds| == |b.binds| }

  /** What registration guarantees about names. */
  ghost predicate PlainSchema(s: Schema) {
    Plain(s.name) && AllPlain(Names(s)) && s.cols != [] && -1 <= s.pkIndex < |s.cols|
  }

  /** Why a query may not get a statement: memory, a column that does not exist, or text SQLite does not accept. */
  ghost predicate OpenStatus(status: Status, d: Dialect, s: Schema, q: Query, memory: nat, allocOk: bool)
    requires q.UpsertRow? ==> HasKey(s)
  {
    match status
    case Ok => KnownQuery(s, q) && !(d.Sqlite? && ParseText(QueryText(d, s, q)).None?)
    case NoMemory => !allocOk || CapacityFor(|QueryText(d, s, q)|) > memory
    case UnknownColumn => !KnownQuery(s, q)
    case DriverError => KnownQuery(s, q) && d.Sqlite? && ParseText(QueryText(d, s, q)).None?
    case _ => false
  }

  lemma {:induction false} QueryParams(d: Dialect, s: Schema, q: Query)
    requires (q.UpsertRow? ==> HasKey(s)) && PlainQuery(s, q)
    ensures ParamCount(d, QueryText(d, s, q)) == QueryValues(s, q) == Holes(QueryPieces(s, q))
  {
    hide QueryPieces, QueryTokens, Render, Tokens, Holes, ParamCount, QueryValues, WellSpaced;
    QueryReads(s, q);
    ParamCountRender(d, QueryPieces(s, q));
  }

  lemma {:induction false} KnownIsPlain(s: Schema, q: Query)
    requires PlainSchema(s) && KnownQuery(s, q)
    ensures PlainQuery(s, q)
  {
    if NeedsWhere(QueryCond(q)) {
      ColumnsArePlain(QueryCond(q).value, Names(s));
    }
  }

  lemma {:induction false} ColumnsArePlain(c: Condition, names: seq<string>)
    requires ColumnsIn(c, names) && AllPlain(names)
    ensures PlainColumns(c)
  {
    match c
    case And(l, r) => ColumnsArePlain(l, names); ColumnsArePlain(r, names);
    case Or(l, r) => ColumnsArePlain(l, names); ColumnsArePlain(r, names);
    case _ =>
  }

  // ---- Writes ----------------------------------------------------------------------------

  function FindSchema(schemas: seq<Schema>, name: string): (s: Option<Schema>)
    ensures s.Some? ==> s.value in schemas && s.value.name == name
  {
    if schemas == [] then None else if schemas[0].name == name then Some(schemas[0]) else FindSchema(schemas[1..], name)
  }

  ghost predicate SchemasOk(schemas: seq<Schema>) {
    forall s :: s in schemas ==> PlainSchema(s)
  }

  /** A schema with a key is written by upsert, one without by insert. */
  function WriteQuery(s: Schema): (q: Query)
    ensures q.UpsertRow? ==> s.pkIndex >= 0
  {
    if s.pkIndex >= 0 then UpsertRow else InsertRow
  }

  /** Memory ran out in the query builder or in the cache. */
  ghost predicate Starved(d: Dialect, s: Schema, q: Query, memory: nat, allocOk: bool)
    requires q.UpsertRow? ==> HasKey(s)
  {
    !allocOk || CapacityFor(|QueryText(d, s, q)|) > memory
  }

  /** Binding a struct to a statement with text `sql` and running it, on a database all by itself. */
  ghost function StoreSpec(cmp: Comparator, tables: Tables, sql: string, s: Schema, row: seq<byte>,
      bitmap: Option<seq<byte>>): (r: (Status, Tables))
    requires TablesOk(tables) && RowFits(s, |row|) && BitmapFits(s, bitmap)
    ensures r.0 != NoMemory && (r.0 != Ok ==> r.1 == tables) && TablesOk(r.1)
  {
    if !NullsAllowed(s, bitmap) then (NotNullViolation, tables)
    else
      var o := ExecuteText(cmp, tables, sql, RowValues(s, row, bitmap));
      ExecuteKeepsShape(cmp, tables, sql, RowValues(s, row, bitmap));
      if o.Failed? then (DriverError, tables) else (Ok, o.tables)
  }

  /** The caller's row and bitmap cover the columns of the struct, if it is registered. */
  predicate StructFits(schemas: seq<Schema>, name: string, row: seq<byte>, bitmap: Option<seq<byte>>) {
    var s := FindSchema(schemas, name);
    s.Some? ==> RowFits(s.value, |row|) && BitmapFits(s.value, bitmap)
  }

  /** What a write does when its statement is prepared for this one use. */
  ghost function WriteSpec(d: Dialect, cmp: Comparator, tables: Tables, schemas: seq<Schema>, name: string,
      row: seq<byte>, bitmap: Option<seq<byte>>): (r: (Status, Tables))
    requires TablesOk(tables) && StructFits(schemas, name, row, bitmap) && SchemasOk(schemas)
    ensures TablesOk(r.1)
  {
    var found := FindSchema(schemas, name);
    if found.None? then (UnknownStruct, tables)
    else
      var s := found.value;
      var sql := QueryText(d, s, WriteQuery(s));
      if d.Sqlite? && ParseText(sql).None? then (DriverError, tables)
      else StoreSpec(cmp, tables, sql, s, row, bitmap)
  }

  ghost predicate WriteStarved(d: Dialect, schemas: seq<Schema>, name: string, memory: nat, allocOk: bool)
    requires SchemasOk(schemas)
  {
    var found := FindSchema(schemas, name);
    found.Some? && Starved(d, found.value, WriteQuery(found.value), memory, allocOk)
  }

  // ---- Queries ---------------------------------------------------------------------------

  datatype Reply = Reply(status: Status, tables: Tables, rows: seq<Row>, changes: nat)

  /** What a query answers when its statement is prepared for this one use. */
  ghost function QueryReply(d: Dialect, cmp: Comparator, tables: Tables, s: Schema, q: Query, v: Value): (r: Reply)
    requires TablesOk(tables) && (q.UpsertRow? ==> HasKey(s))
    ensures r.status != NoMemory && (r.status != Ok ==> r.tables == tables && r.rows == [] && r.changes == 0)
    ensures TablesOk(r.tables)
  {
    if !KnownQuery(s, q) then Reply(UnknownColumn, tables, [], 0)
    else
      var o := ExecuteText(cmp, tables, QueryText(d, s, q), QueryBinds(q, [], v));
      ExecuteKeepsShape(cmp, tables, QueryText(d, s, q), QueryBinds(q, [], v));
      if o.Failed? then Reply(DriverError, tables, [], 0) else Reply(Ok, o.tables, o.rows, o.changes)
  }

  /** SQLite refuses when preparing what would fail when run. */
  lemma {:induction false} RefusedText(d: Dialect, cmp: Comparator, tables: Tables, s: Schema, q: Query, v: Value)
    requires TablesOk(tables) && (q.UpsertRow? ==> HasKey(s))
    ensures !KnownQuery(s, q) ==> QueryReply(d, cmp, tables, s, q, v) == Reply(UnknownColumn, tables, [], 0)
    ensures KnownQuery(s, q) && ParseText(QueryText(d, s, q)).None? ==>
              QueryReply(d, cmp, tables, s, q, v) == Reply(DriverError, tables, [], 0)
  {
  }

  /** A query that gets no statement would not have run either, unless memory was the reason. */
  lemma {:induction false} OpenRefused(d: Dialect, cmp: Comparator, tables: Tables, s: Schema, q: Query, v: Value,
      status: Status, memory: nat, allocOk: bool)
    requires TablesOk(tables) && (q.UpsertRow? ==> HasKey(s)) && OpenStatus(status, d, s, q, memory, allocOk)
    requires status != Ok
    ensures status == NoMemory ==> Starved(d, s, q, memory, allocOk)
    ensures status != NoMemory ==> QueryReply(d, cmp, tables, s, q, v) == Reply(status, tables, [], 0)
  {
    RefusedText(d, cmp, tables, s, q, v);
    hide QueryText, ParseText, ExecuteText, KnownQuery;
  }

  /** Reading queries leave the tables alone, and their rows have the columns asked for. */
  lemma {:induction false} ReadReply(d: Dialect, cmp: Comparator, tables: Tables, s: Schema, q: Query, v: Value)
    requires TablesOk(tables) && PlainSchema(s) && (q.SelectRows? || q.CountRows? || q.SelectField?)
    ensures var r := QueryReply(d, cmp, tables, s, q, v);
            && r.tables == tables
            && (r.status == Ok ==> Shaped(if q.SelectRows? then |s.cols| else 1, r.rows))
            && (r.status == Ok && q.CountRows? ==> |r.rows| == 1 && r.rows[0][0].IntValue? && r.rows[0][0].i >= 0)
  {
    if KnownQuery(s, q) {
      KnownIsPlain(s, q);
      QueryRoundTrip(d, s, q);
      var binds := QueryBinds(q, [], v);
      if Printable(s, q) {
        var stmt := QueryStmt(s, q);
        hide QueryText, ParseText, Execute, Printable;
        if q.CountRows? {
          CountLeaves(cmp, tables, stmt, binds);
        } else {
          SelectLeaves(cmp, tables, stmt, binds);
        }
      }
    }
  }

  /** A query on a struct by name. */
  ghost function CallReply(d: Dialect, cmp: Comparator, tables: Tables, schemas: seq<Schema>, name: string, q: Query,
      v: Value): (r: Reply)
    requires TablesOk(tables) && !q.UpsertRow?
    ensures r.status != NoMemory && (r.status != Ok ==> r.tables == tables && r.rows == [] && r.changes == 0)
    ensures TablesOk(r.tables)
  {
    var found := FindSchema(schemas, name);
    if found.None? then Reply(UnknownStruct, tables, [], 0) else QueryReply(d, cmp, tables, found.value, q, v)
  }

  ghost predicate CallStarved(d: Dialect, schemas: seq<Schema>, name: string, q: Query, memory: nat, allocOk: bool)
    requires !q.UpsertRow?
  {
    var found := FindSchema(schemas, name);
    found.Some? && Starved(d, found.value, q, memory, allocOk)
  }

  lemma {:induction false} ReadCall(d: Dialect, cmp: Comparator, tables: Tables, schemas: seq<Schema>, name: string,
      q: Query)
    requires TablesOk(tables) && SchemasOk(schemas) && (q.SelectRows? || q.CountRows? || q.SelectField?)
    ensures var r, s := CallReply(d, cmp, tables, schemas, name, q, NullValue), FindSchema(schemas, name);
            && r.tables == tables
            && (r.status == Ok ==> s.Some? && Shaped(if q.SelectRows? then |s.value.cols| else 1, r.rows))
            && (r.status == Ok && q.CountRows? ==> |r.rows| == 1 && r.rows[0][0].IntValue? && r.rows[0][0].i >= 0)
  {
    var s := FindSchema(schemas, name);
    if s.Some? {
      ReadReply(d, cmp, tables, s.value, q, NullValue);
    }
  }

  // ---- Reads -----------------------------------------------------------------------------

  /** The caller's buffers: the struct and, perhaps, its NULL bitmap. */
  datatype Buffers = Buffers(row: seq<byte>, nulls: Option<seq<byte>>)

  predicate BuffersFit(schemas: seq<Schema>, name: string, b: Buffers) {
    var found := FindSchema(schemas, name);
    found.Some? ==>
      && RowFits(found.value, |b.row|) && SizesCover(found.value) && RowEnd(found.value, |found.value.cols|) <= |b.row|
      && BitmapFits(found.value, b.nulls)
  }

  /**
   * One result row is delivered; none or several leave the buffers untouched, unless several are
   * allowed. Without memory for a second bitmap the row is delivered and its NULLs are not.
   */
  ghost function Deliver(s: Schema, rows: seq<Row>, allowMulti: bool, nullsOk: bool, b: Buffers): (Status, Buffers)
    requires Shaped(|s.cols|, rows) && RowFits(s, |b.row|) && SizesCover(s) && RowEnd(s, |s.cols|) <= |b.row|
    requires BitmapFits(s, b.nulls)
  {
    if rows == [] then (NotFound, b)
    else if allowMulti then
      (ReadStatus(s, rows[0]),
       Buffers(ReadUpTo(s, rows[0], |s.cols|, b.row),
               if b.nulls.None? then None else Some(NullsUpTo(rows[0], |s.cols|, b.nulls.value))))
    else if |rows| > 1 then (MultipleRows, b)
    else
      (ReadStatus(s, rows[0]),
       Buffers(CopiedRow(s, rows[0], b.row),
               if b.nulls.None? || !nullsOk then b.nulls else Some(CopiedNulls(s, rows[0], b.nulls.value))))
  }

  ghost function ReadSpec(d: Dialect, cmp: Comparator, tables: Tables, schemas: seq<Schema>, name: string,
      cond: Option<Condition>, allowMulti: bool, nullsOk: bool, b: Buffers): (Status, Buffers)
    requires TablesOk(tables) && SchemasOk(schemas) && BuffersFit(schemas, name, b)
  {
    var r := CallReply(d, cmp, tables, schemas, name, SelectRows(cond), NullValue);
    if r.status != Ok then (r.status, b)
    else
      ReadCall(d, cmp, tables, schemas, name, SelectRows(cond));
      Deliver(FindSchema(schemas, name).value, r.rows, allowMulti, nullsOk, b)
  }

  // ---- BLOB fields -----------------------------------------------------------------------

  /** The checks both field calls make before they query. */
  function FieldStatus(found: Option<Schema>, col: string): (status: Status)
    ensures status != NoMemory && (status == Ok ==> found.Some? && col in Names(found.value))
  {
    if found.None? then UnknownStruct
    else if col !in Names(found.value) then UnknownColumn
    else if found.value.cols[IndexOf(Names(found.value), col)].typ != Blob then InvalidArg
    else Ok
  }

  /** A field is written only when exactly one row matches. */
  ghost function WriteBlobSpec(d: Dialect, cmp: Comparator, tables: Tables, schemas: seq<Schema>, name: string,
      key: Condition, col: string, bytes: seq<byte>): (r: (Status, Tables))
    requires TablesOk(tables)
    ensures r.0 != NoMemory && (r.0 != Ok ==> r.1 == tables) && TablesOk(r.1)
  {
    var found := FindSchema(schemas, name);
    if FieldStatus(found, col) != Ok then (FieldStatus(found, col), tables)
    else
      var r := QueryReply(d, cmp, tables, found.value, SelectField(col, Some(key)), NullValue);
      if r.status != Ok then (r.status, tables)
      else if r.rows == [] then (NotFound, tables)
      else if |r.rows| > 1 then (MultipleRows, tables)
      else
        var w := QueryReply(d, cmp, tables, found.value, UpdateField(col, Some(key)), BlobValue(bytes));
        (w.status, w.tables)
  }

  /** A field is returned only when exactly one row matches; NULL reads as no bytes. */
  ghost function ReadBlobSpec(d: Dialect, cmp: Comparator, tables: Tables, schemas: seq<Schema>, name: string,
      key: Condition, col: string): (r: (Status, Option<seq<byte>>))
    requires TablesOk(tables) && SchemasOk(schemas)
    ensures r.0 != NoMemory && (r.0 == Ok <==> r.1.Some?)
  {
    var found := FindSchema(schemas, name);
    if FieldStatus(found, col) != Ok then (FieldStatus(found, col), None)
    else
      var r := QueryReply(d, cmp, tables, found.value, SelectField(col, Some(key)), NullValue);
      if r.status != Ok then (r.status, None)
      else if r.rows == [] then (NotFound, None)
      else if |r.rows| > 1 then (MultipleRows, None)
      else
        ReadReply(d, cmp, tables, found.value, SelectField(col, Some(key)), NullValue);
        (Ok, Some(AsBytes(r.rows[0][0])))
  }

  // ---- Batches ---------------------------------------------------------------------------

  /** A row of a batch. */
  datatype RowInput = RowInput(row: seq<byte>, bitmap: Option<seq<byte>>)

  predicate BatchFits(s: Schema, batch: seq<RowInput>) {
    forall i :: 0 <= i < |batch| ==> RowFits(s, |batch[i].row|) && BitmapFits(s, batch[i].bitmap)
  }

  /** Single writes one after the other, stopping at the first that fails. */
  ghost function StoreAll(cmp: Comparator, tables: Tables, sql: string, s: Schema,
      batch: seq<RowInput>): (r: (Status, Tables))
    requires TablesOk(tables) && BatchFits(s, batch)
    ensures r.0 != NoMemory && TablesOk(r.1)
    decreases |batch|
  {
    if batch == [] then (Ok, tables)
    else
      var one := StoreSpec(cmp, tables, sql, s, batch[0].row, batch[0].bitmap);
      if one.0 != Ok then one else StoreAll(cmp, one.1, sql, s, batch[1..])
  }

  /** A batch outside a transaction is all or nothing; inside one, the rows before the failure stay. */
  ghost function BatchSpec(d: Dialect, cmp: Comparator, tables: Tables, s: Schema, batch: seq<RowInput>, inTx: bool,
      up: bool): (r: (Status, Tables))
    requires TablesOk(tables) && BatchFits(s, batch) && PlainSchema(s)
    ensures r.0 != NoMemory && (r.0 != Ok && !inTx ==> r.1 == tables) && TablesOk(r.1)
  {
    var sql := QueryText(d, s, WriteQuery(s));
    if d.Sqlite? && ParseText(sql).None? then (DriverError, tables)
    else if !inTx && !up then (DriverError, tables)
    else
      var all := StoreAll(cmp, tables, sql, s, batch);
      if all.0 != Ok && !inTx then (all.0, tables) else all
  }

  /** The longest prefix of single writes that succeed is what an unfinished batch leaves behind. */
  lemma {:induction false} StoreAllPrefix(cmp: Comparator, tables: Tables, sql: string, s: Schema, batch: seq<RowInput>)
      returns (k: nat)
    requires TablesOk(tables) && BatchFits(s, batch)
    ensures k <= |batch| && BatchFits(s, batch[..k])
    ensures StoreAll(cmp, tables, sql, s, batch[..k]) == (Ok, StoreAll(cmp, tables, sql, s, batch).1)
    ensures StoreAll(cmp, tables, sql, s, batch).0 == Ok <==> k == |batch|
    decreases |batch|
  {
    hide StoreSpec;
    k := 0;
    if batch != [] {
      var one := StoreSpec(cmp, tables, sql, s, batch[0].row, batch[0].bitmap);
      if one.0 == Ok {
        var j := StoreAllPrefix(cmp, one.1, sql, s, batch[1..]);
        k := j + 1;
        PrefixTail(batch, j);
      }
    }
  }

  lemma {:induction false} PrefixTail(batch: seq<RowInput>, j: nat)
    requires j < |batch|
    ensures batch[..j + 1][1..] == batch[1..][..j] && batch[..j + 1][0] == batch[0]
  {
  }

  /** The caller's arrays reach far enough for row `i`. */
  predicate Covers(s: Schema, rows: seq<byte>, stride: nat, maps: Option<seq<byte>>, i: nat) {
    && i * stride <= |rows| && RowFits(s, |rows| - i * stride)
    && (maps.Some? ==> i * BitmapBytes(|s.cols|) + BitmapBytes(|s.cols|) <= |maps.value|)
  }

  function RowAt(s: Schema, rows: seq<byte>, stride: nat, maps: Option<seq<byte>>, i: nat): (r: RowInput)
    requires Covers(s, rows, stride, maps, i)
    ensures RowFits(s, |r.row|) && BitmapFits(s, r.bitmap)
  {
    RowInput(rows[i * stride..], if maps.None? then None else Some(maps.value[i * BitmapBytes(|s.cols|)..]))
  }

  /** The first `count` rows of an array of structs, each with its bitmap. */
  function Batch(s: Schema, rows: seq<byte>, stride: nat, maps: Option<seq<byte>>, count: nat): (b: seq<RowInput>)
    requires forall i :: 0 <= i < count ==> Covers(s, rows, stride, maps, i)
    ensures |b| == count && BatchFits(s, b)
    ensures forall i :: 0 <= i < count ==> b[i] == RowAt(s, rows, stride, maps, i)
  {
    seq(count, i requires 0 <= i < count => RowAt(s, rows, stride, maps, i))
  }

  predicate ArrayFits(schemas: seq<Schema>, name: string, rows: seq<byte>, count: nat, stride: nat,
      maps: Option<seq<byte>>)
  {
    var found := FindSchema(schemas, name);
    found.Some? ==> forall i :: 0 <= i < count ==> Covers(found.value, rows, stride, maps, i)
  }

  ghost function WriteManySpec(d: Dialect, cmp: Comparator, tables: Tables, schemas: seq<Schema>, name: string,
      rows: seq<byte>, count: nat, stride: nat, maps: Option<seq<byte>>, inTx: bool, up: bool): (r: (Status, Tables))
    requires TablesOk(tables) && SchemasOk(schemas) && ArrayFits(schemas, name, rows, count, stride, maps)
    ensures r.0 != NoMemory && TablesOk(r.1)
  {
    var found := FindSchema(schemas, name);
    if count == 0 || stride == 0 then (InvalidArg, tables)
    else if found.None? then (UnknownStruct, tables)
    else BatchSpec(d, cmp, tables, found.value, Batch(found.value, rows, stride, maps, count), inTx, up)
  }

  lemma {:induction false} StoreAllStep(cmp: Comparator, tables: Tables, sql: string, s: Schema, batch: seq<RowInput>,
      i: nat)
    requires TablesOk(tables) && BatchFits(s, batch) && i < |batch|
    ensures BatchFits(s, batch[i..]) && BatchFits(s, batch[i + 1..])
    ensures var one := StoreSpec(cmp, tables, sql, s, batch[i].row, batch[i].bitmap);
            && TablesOk(one.1)
            && StoreAll(cmp, tables, sql, s, batch[i..]) == if one.0 != Ok then one
                else StoreAll(cmp, one.1, sql, s, batch[i + 1..])
  {
    hide StoreSpec;
    assert batch[i..][0] == batch[i] && batch[i..][1..] == batch[i + 1..];
  }

  // ---- Iterators -------------------------------------------------------------------------

  /** A step of a statement: the outcome, and the cursor it leaves. */
  ghost function Advance(d: Dialect, cmp: Comparator, tables: Tables, st: StmtState): (Status, Option<Cursor>)
    requires TablesOk(tables)
  {
    if st.cursor.None? || (d.Sqlite? && st.cursor.value.pos >= |st.cursor.value.rows|) then
      var o := ExecuteText(cmp, tables, st.sql, st.binds);
      if o.Failed? then (DriverError, st.cursor) else (Ok, Some(Cursor(o.rows, 0)))
    else (Ok, Some(st.cursor.value.(pos := st.cursor.value.pos + 1)))
  }

  /** What the caller sees of a step. */
  ghost function NextSpec(s: Schema, status: Status, cursor: Option<Cursor>, b: Buffers): (Status, Buffers)
    requires status == Ok ==> cursor.Some? && Shaped(|s.cols|, cursor.value.rows)
    requires RowFits(s, |b.row|) && BitmapFits(s, b.nulls)
  {
    if status != Ok then (status, b)
    else if cursor.value.pos >= |cursor.value.rows| then (NotFound, b)
    else
      var vals := cursor.value.rows[cursor.value.pos];
      (ReadStatus(s, vals),
       Buffers(ReadUpTo(s, vals, |s.cols|, b.row), if b.nulls.None? then None
           else Some(NullsUpTo(vals, |s.cols|, b.nulls.value))))
  }

  lemma {:induction false} ScanShape(d: Dialect, cmp: Comparator, tables: Tables, s: Schema, cond: Option<Condition>)
    requires TablesOk(tables) && PlainQuery(s, SelectRows(cond))
    ensures var o := ExecuteText(cmp, tables, QueryText(d, s, SelectRows(cond)), WhereLeaves(cond));
            o.Done? ==> o.tables == tables && Shaped(|s.cols|, o.rows)
  {
    QueryRoundTrip(d, s, SelectRows(cond));
    if Printable(s, SelectRows(cond)) {
      var stmt := QueryStmt(s, SelectRows(cond));
      hide QueryText, ParseText, Execute;
      SelectLeaves(cmp, tables, stmt, WhereLeaves(cond));
    }
  }
}
