/** Whole runs in terms of rows: what the calls of a run mean for the tables, with no SQL and no cache in sight. */
module RunMeaning {
  import opened Core
  import opened Conditions
  import opened Queries
  import opened QueryParsing
  import SqlStatements
  import opened SqlEngine
  import opened TableSpec
  import opened QueryMeaning
  import opened RowBytes
  import opened RowMapping
  import opened ApiSpec
  import opened ApiMeaning
  import opened TxSpec
  import opened Handles
  import opened Runs
  import Guard

  // ---- Tables stay served ----------------------------------------------------------------

  ghost predicate AllServed(tables: Tables, schemas: seq<Schema>) {
    forall s :: s in schemas ==> Served(tables, s)
  }

  /** Every schema has its table, now and in every snapshot a rollback could bring back. */
  ghost predicate WorldServed(schemas: seq<Schema>, w: TxState) {
    AllServed(w.tables, schemas) && forall i :: 0 <= i < |w.stack| ==> AllServed(w.stack[i], schemas)
  }

  lemma {:induction false} LayoutServes(a: Tables, b: Tables, schemas: seq<Schema>)
    requires SameLayout(a, b) && TablesOk(b) && AllServed(a, schemas)
    ensures AllServed(b, schemas)
  {
    hide Distinct, HasKey;
    forall s | s in schemas ensures Served(b, s) {
      assert ColumnNames(b[s.name]) == ColumnNames(a[s.name]);
    }
  }

  lemma {:induction false} StoreLayout(cmp: Comparator, tables: Tables, sql: string, s: Schema, row: seq<byte>,
      bitmap: Option<seq<byte>>)
    requires TablesOk(tables) && RowFits(s, |row|) && BitmapFits(s, bitmap)
    ensures SameLayout(tables, StoreSpec(cmp, tables, sql, s, row, bitmap).1)
  {
    hide ExecuteText, TablesOk, NullsAllowed;
    ExecuteKeepsShape(cmp, tables, sql, RowValues(s, row, bitmap));
  }

  lemma {:induction false} ReplyLayout(d: Dialect, cmp: Comparator, tables: Tables, s: Schema, q: Query, v: Value)
    requires TablesOk(tables) && (q.UpsertRow? ==> HasKey(s))
    ensures SameLayout(tables, QueryReply(d, cmp, tables, s, q, v).tables)
  {
    hide ExecuteText, TablesOk, QueryText, KnownQuery;
    ExecuteKeepsShape(cmp, tables, QueryText(d, s, q), QueryBinds(q, [], v));
  }

  lemma {:induction false} StoreAllLayout(cmp: Comparator, tables: Tables, sql: string, s: Schema, batch: seq<RowInput>)
    requires TablesOk(tables) && BatchFits(s, batch)
    ensures SameLayout(tables, StoreAll(cmp, tables, sql, s, batch).1)
    decreases |batch|
  {
    hide StoreSpec, TablesOk;
    if batch != [] {
      var one := StoreSpec(cmp, tables, sql, s, batch[0].row, batch[0].bitmap);
      StoreLayout(cmp, tables, sql, s, batch[0].row, batch[0].bitmap);
      StoreAllLayout(cmp, one.1, sql, s, batch[1..]);
    }
  }

  lemma {:induction false} WriteLayout(x: Setting, tables: Tables, c: Call)
    requires SchemasOk(x.schemas) && TablesOk(tables) && c.Write? && StructFits(x.schemas, c.name, c.row, c.bitmap)
    ensures SameLayout(tables, WriteSpec(x.d, x.cmp, tables, x.schemas, c.name, c.row, c.bitmap).1)
  {
    hide StoreSpec, TablesOk, QueryText;
    var found := FindSchema(x.schemas, c.name);
    if found.Some? {
      StoreLayout(x.cmp, tables, QueryText(x.d, found.value, WriteQuery(found.value)), found.value, c.row, c.bitmap);
    }
  }

  lemma {:induction false} WriteManyLayout(x: Setting, tables: Tables, c: Call, inTx: bool)
    requires SchemasOk(x.schemas) && TablesOk(tables) && c.WriteMany?
    requires ArrayFits(x.schemas, c.name, c.rows, c.count, c.stride, c.maps)
    ensures SameLayout(tables, WriteManySpec(x.d, x.cmp, tables, x.schemas, c.name, c.rows, c.count, c.stride, c.maps,
            inTx, c.up).1)
  {
    hide StoreAll, TablesOk, QueryText, Batch, Covers;
    var found := FindSchema(x.schemas, c.name);
    if found.Some? && c.count > 0 {
      var s := found.value;
      StoreAllLayout(x.cmp, tables, QueryText(x.d, s, WriteQuery(s)), s, Batch(s, c.rows, c.stride, c.maps, c.count));
    }
  }

  lemma {:induction false} DeleteLayout(x: Setting, tables: Tables, name: string, q: Query)
    requires TablesOk(tables) && !q.UpsertRow?
    ensures SameLayout(tables, CallReply(x.d, x.cmp, tables, x.schemas, name, q, NullValue).tables)
  {
    hide QueryReply, TablesOk;
    var found := FindSchema(x.schemas, name);
    if found.Some? { ReplyLayout(x.d, x.cmp, tables, found.value, q, NullValue); }
  }

  lemma {:induction false} WriteBlobLayout(x: Setting, tables: Tables, c: Call)
    requires TablesOk(tables) && c.WriteBlob?
    ensures SameLayout(tables, WriteBlobSpec(x.d, x.cmp, tables, x.schemas, c.name, c.key, c.col, c.bytes).1)
  {
    hide QueryReply, TablesOk;
    var found := FindSchema(x.schemas, c.name);
    if found.Some? {
      ReplyLayout(x.d, x.cmp, tables, found.value, UpdateField(c.col, Some(c.key)), BlobValue(c.bytes));
    }
  }

  lemma {:induction false} DoesLayout(x: Setting, w: TxState, c: Call)
    requires SchemasOk(x.schemas) && WorldOk(w) && Proper(x.schemas, c) && !c.Begin? && !c.Commit? && !c.Rollback?
    ensures Does(x, w, c).0.stack == w.stack && SameLayout(w.tables, Does(x, w, c).0.tables)
  {
    match c {
      case Write(_, _, _) => WriteLayout(x, w.tables, c);
      case WriteMany(_, _, _, _, _, _) => WriteManyLayout(x, w.tables, c, w.stack != []);
      case Delete(name, cond) => DeleteLayout(x, w.tables, name, DeleteRows(cond));
      case WriteBlob(_, _, _, _) => WriteBlobLayout(x, w.tables, c);
      case _ =>
    }
    hide WriteSpec, WriteManySpec, ReadSpec, CallReply, WriteBlobSpec, ReadBlobSpec, SchemasOk, TablesOk;
  }

  lemma {:induction false} TxServes(schemas: seq<Schema>, w: TxState, c: Call)
    requires WorldServed(schemas, w) && (c.Begin? || c.Commit? || c.Rollback?)
    ensures WorldServed(schemas, TxCall(w, c).0)
  {
    hide AllServed;
  }

  /** No call takes a schema's table away, in the tables or in a snapshot. */
  lemma {:induction false} DoesKeepsServed(x: Setting, w: TxState, c: Call)
    requires SchemasOk(x.schemas) && WorldOk(w) && Proper(x.schemas, c) && WorldServed(x.schemas, w)
    ensures WorldOk(Does(x, w, c).0) && WorldServed(x.schemas, Does(x, w, c).0)
  {
    hide Does, TxCall, SchemasOk, Proper, AllServed, SameLayout, TablesOk;
    DoesKeepsWorld(x, w, c);
    if c.Begin? || c.Commit? || c.Rollback? {
      OtherCase(x, w, c);
      TxServes(x.schemas, w, c);
    } else {
      DoesLayout(x, w, c);
      LayoutServes(w.tables, Does(x, w, c).0.tables, x.schemas);
    }
  }

  lemma {:induction false} RunKeepsServed(x: Setting, memory: nat, w: TxState, calls: seq<Call>)
    requires SchemasOk(x.schemas) && WorldOk(w) && AllProper(x, memory, calls) && WorldServed(x.schemas, w)
    ensures WorldOk(RunSpec(x, memory, w, calls).0) && WorldServed(x.schemas, RunSpec(x, memory, w, calls).0)
    decreases |calls|
  {
    hide *;
    RunStep(x, memory, w, calls);
    if calls != [] {
      DoesKeepsServed(x, w, calls[0]);
      RunKeepsServed(x, memory, Does(x, w, calls[0]).0, calls[1..]);
    }
  }

  // ---- What the calls answer -------------------------------------------------------------

  /** The condition is about the schema's columns, and it is one the builder can express. */
  ghost predicate Askable(s: Schema, cond: Option<Condition>) { Known(Names(s), cond) && NoNestedAll(cond) }

  ghost predicate Registered(x: Setting, s: Schema) { SchemasOk(x.schemas) && FindSchema(x.schemas, s.name) == Some(s) }

  /** What a read answers when the rows `m` match. */
  ghost predicate Answers(s: Schema, m: seq<Row>, allowMulti: bool, into: Buffers, r: Result)
    requires Shaped(|s.cols|, m) && RowFits(s, |into.row|) && SizesCover(s) && RowEnd(s, |s.cols|) <= |into.row|
    requires BitmapFits(s, into.nulls)
  {
    && (m == [] ==> r.status == NotFound && r.buffers == into)
    && (|m| > 1 && !allowMulti ==> r.status == MultipleRows && r.buffers == into)
    && (m != [] && (allowMulti || |m| == 1) ==> (r.status, r.buffers) == Deliver(s, [m[0]], allowMulti, true, into))
  }

  /** A read answers by the rows that match, and changes nothing. */
  lemma {:induction false} ReadInRows(x: Setting, w: TxState, s: Schema, cond: Option<Condition>, allowMulti: bool,
      into: Buffers)
    requires Registered(x, s) && WorldOk(w) && Served(w.tables, s) && Askable(s, cond)
    requires BuffersFit(x.schemas, s.name, into)
    ensures var m, r := Matching(x.cmp, Names(s), w.tables[s.name].rows, cond),
            Does(x, w, Read(s.name, cond, allowMulti, into));
            Shaped(|s.cols|, m) && r.0 == w && Answers(s, m, allowMulti, into, r.1)
  {
    hide Matching, QueryReply, Served, FindSchema, TablesOk, ReadUpTo, CopiedRow, NullsUpTo, CopiedNulls, ReadStatus,
         RowEnd;
    MatchingShaped(x.cmp, w.tables, s, cond);
    SelectMeans(x.d, x.cmp, w.tables, s, cond);
  }

  // ---- What a row that is read looks like ------------------------------------------------

  /** A row in the caller's buffers: what the struct shows of it, the warning and the NULL bits. */
  ghost predicate Shown(s: Schema, vals: Row, into: Buffers, status: Status, back: Buffers)
    requires |s.cols| <= |vals| && BitmapFits(s, into.nulls)
  {
    && RowFits(s, |back.row|) && BitmapFits(s, back.nulls) && back.nulls.Some? == into.nulls.Some?
    && status == (if AllOut(s, vals, back.row) then Ok else WarnTruncated)
    && (into.nulls.Some? ==> forall j :: 0 <= j < |s.cols| ==> NullShown(vals, into.nulls, back.nulls, j))
  }

  ghost predicate NullShown(vals: Row, before: Option<seq<byte>>, after: Option<seq<byte>>, j: nat)
    requires j < |vals| && (before.Some? ==> j / 8 < |before.value|) && (after.Some? ==> j / 8 < |after.value|)
  {
    NullBit(after, j) == (NullBit(before, j) || vals[j] == NullValue)
  }

  lemma {:induction false} CopiedOut(s: Schema, vals: Row, out: seq<byte>)
    requires StorableRow(s, vals) && SizesCover(s) && RowEnd(s, |s.cols|) <= |out| && RowFits(s, |out|)
    ensures RowFits(s, RowEnd(s, |s.cols|))
    ensures AllOut(s, vals, CopiedRow(s, vals, out)) ==
            AllOut(s, vals, ReadUpTo(s, vals, |s.cols|, Zeros(RowEnd(s, |s.cols|))))
  {
    hide ReadUpTo, GivesBack, Storable, RowEnd;
    var a, b := CopiedRow(s, vals, out), ReadUpTo(s, vals, |s.cols|, Zeros(RowEnd(s, |s.cols|)));
    forall j | 0 <= j < |s.cols| ensures CameOut(s, vals, a, j) == CameOut(s, vals, b, j) {
      assert InRow(s.cols[j], |b|) && InRow(s.cols[j], |out|);
      assert Member(s, a, j) == Member(s, b, j);
    }
  }

  lemma {:induction false} NullsShown(s: Schema, vals: Row, nulls: seq<byte>, j: nat)
    requires |s.cols| <= |vals| && BitmapBytes(|s.cols|) <= |nulls| && j < |s.cols|
    ensures NullShown(vals, Some(nulls), Some(NullsUpTo(vals, |s.cols|, nulls)), j)
    ensures NullShown(vals, Some(nulls), Some(CopiedNulls(s, vals, nulls)), j)
  {
    hide NullBit, NullsUpTo, CopiedNulls;
    NullBitsRead(vals, |s.cols|, nulls, j);
    CopiedNullBit(s, vals, nulls, j);
  }

  lemma {:induction false} DeliverShows(s: Schema, vals: Row, allowMulti: bool, into: Buffers)
    requires StorableRow(s, vals) && |vals| == |s.cols| && DisjointColumns(s) && RowFits(s, |into.row|)
    requires SizesCover(s) && RowEnd(s, |s.cols|) <= |into.row| && BitmapFits(s, into.nulls)
    ensures var (status, back) := Deliver(s, [vals], allowMulti, true, into);
            Shown(s, vals, into, status, back)
  {
    CopiedOut(s, vals, into.row);
    ReadStatusMeans(s, vals, into.row);
    ReadStatusMeans(s, vals, Zeros(RowEnd(s, |s.cols|)));
    if into.nulls.Some? {
      forall j | 0 <= j < |s.cols|
        ensures NullShown(vals, into.nulls, Some(NullsUpTo(vals, |s.cols|, into.nulls.value)), j)
        ensures NullShown(vals, into.nulls, Some(CopiedNulls(s, vals, into.nulls.value)), j)
      {
        NullsShown(s, vals, into.nulls.value, j);
      }
    }
    hide AllOut, ReadStatus, ReadUpTo, NullsUpTo, CopiedRow, CopiedNulls, RowEnd, NullShown, StorableRow,
         DisjointColumns;
  }

  /**
   * A read that delivers a row warns exactly when some value of it that is not NULL cannot be read off the
   * struct, and adds exactly the NULL bits of the row.
   */
  lemma {:induction false} ReadShows(x: Setting, w: TxState, s: Schema, cond: Option<Condition>, allowMulti: bool,
      into: Buffers)
    requires Registered(x, s) && WorldOk(w) && Served(w.tables, s) && Askable(s, cond)
    requires BuffersFit(x.schemas, s.name, into) && DisjointColumns(s)
    requires var m := Matching(x.cmp, Names(s), w.tables[s.name].rows, cond);
             m != [] && (allowMulti || |m| == 1) && StorableRow(s, m[0])
    ensures var m, r := Matching(x.cmp, Names(s), w.tables[s.name].rows, cond),
            Does(x, w, Read(s.name, cond, allowMulti, into)).1;
            Shown(s, m[0], into, r.status, r.buffers)
  {
    var m := Matching(x.cmp, Names(s), w.tables[s.name].rows, cond);
    ReadInRows(x, w, s, cond, allowMulti, into);
    hide Does, Matching, Deliver, Shown, FindSchema, SchemasOk, WorldOk, Served, Askable, StorableRow, DisjointColumns;
    DeliverShows(s, m[0], allowMulti, into);
  }

  lemma {:induction false} MatchingShaped(cmp: Comparator, tables: Tables, s: Schema, cond: Option<Condition>)
    requires Served(tables, s) && Known(Names(s), cond)
    ensures Shaped(|Names(s)|, tables[s.name].rows)
    ensures Shaped(|s.cols|, Matching(cmp, Names(s), tables[s.name].rows, cond))
  {
    hide Matching, Distinct;
  }

  /** A count is the number of rows that match. */
  lemma {:induction false} CountInRows(x: Setting, w: TxState, s: Schema, cond: Option<Condition>)
    requires Registered(x, s) && WorldOk(w) && Served(w.tables, s) && Askable(s, cond)
    ensures var m := Matching(x.cmp, Names(s), w.tables[s.name].rows, cond);
            Does(x, w, Count(s.name, cond)) == (w, Result(Ok, |m|, NO_BUFFERS, None))
  {
    hide Matching, QueryReply, Served, FindSchema, TablesOk;
    CountMeans(x.d, x.cmp, w.tables, s, cond);
  }

  /** A delete removes the rows that match, and no other, and reports how many they were. */
  lemma {:induction false} DeleteInRows(x: Setting, w: TxState, s: Schema, cond: Condition)
    requires Registered(x, s) && WorldOk(w) && Served(w.tables, s) && Askable(s, Some(cond))
    ensures var rows := w.tables[s.name].rows;
            Does(x, w, Delete(s.name, Some(cond))) ==
            (w.(tables := WithRows(w.tables, s.name, Others(x.cmp, Names(s), rows, Some(cond)))),
             Result(Ok, |Matching(x.cmp, Names(s), rows, Some(cond))|, NO_BUFFERS, None))
  {
    hide Matching, Others, QueryReply, Served, FindSchema, TablesOk;
    DeleteRowsMeans(x.d, x.cmp, w.tables, s, Some(cond));
  }

  /** The field is a BLOB column of the schema. */
  predicate BlobField(s: Schema, col: string) { col in Names(s) && s.cols[IndexOf(Names(s), col)].typ == Blob }

  /** A field write sets the bytes in the one row that matches, in that column alone, and otherwise changes nothing. */
  lemma {:induction false} WriteBlobInRows(x: Setting, w: TxState, s: Schema, key: Condition, col: string,
      bytes: seq<byte>) returns (j: nat)
    requires Registered(x, s) && WorldOk(w) && Served(w.tables, s) && ColumnsIn(key, Names(s)) && NoNestedAll(Some(key))
    requires BlobField(s, col)
    ensures var t, c := w.tables[s.name], IndexOf(Names(s), col);
            var m, r := Matching(x.cmp, Names(s), t.rows, Some(key)), Does(x, w, WriteBlob(s.name, key, col, bytes));
            && (|m| == 0 ==> r == (w, Just(NotFound)))
            && (|m| > 1 ==> r == (w, Just(MultipleRows)))
            && (|m| == 1 ==> j < |t.rows| && t.rows[j] == m[0])
            && (|m| == 1 ==>
                  var rows := t.rows[j := t.rows[j][c := BlobValue(bytes)]];
                  Shaped(|t.cols|, rows)
                  && r == if Admissible(t.cols, rows) then (w.(tables := WithRows(w.tables, s.name, rows)), Just(Ok))
                          else (w, Just(DriverError)))
  {
    hide WriteBlobSpec, Matching, Admissible, ColumnsIn, FindSchema, SchemasOk, Served, TablesOk, WithRows, IndexOf;
    j := WriteBlobMeans(x.d, x.cmp, w.tables, x.schemas, s, key, col, bytes);
  }

  /** A field read returns the bytes of the one row that matches. */
  lemma {:induction false} ReadBlobInRows(x: Setting, w: TxState, s: Schema, key: Condition, col: string)
    requires Registered(x, s) && WorldOk(w) && Served(w.tables, s) && ColumnsIn(key, Names(s)) && NoNestedAll(Some(key))
    requires BlobField(s, col)
    ensures var m := Matching(x.cmp, Names(s), w.tables[s.name].rows, Some(key));
            var (end, r) := Does(x, w, ReadBlob(s.name, key, col));
            && end == w && r.status == (if |m| == 0 then NotFound else if |m| > 1 then MultipleRows else Ok)
            && r.bytes == if |m| == 1 then Some(AsBytes(m[0][IndexOf(Names(s), col)])) else None
  {
    hide ReadBlobSpec, Matching, ColumnsIn, FindSchema, SchemasOk, Served, TablesOk, IndexOf;
    ReadBlobMeans(x.d, x.cmp, w.tables, x.schemas, s, key, col);
  }

  // ---- What is refused -------------------------------------------------------------------

  /** The call has no effect: that status, no number, no bytes, and the caller's buffers as they were. */
  ghost predicate Refuses(x: Setting, w: TxState, c: Call, status: Status)
    requires SchemasOk(x.schemas) && WorldOk(w) && Proper(x.schemas, c)
  {
    Does(x, w, c) == (w, Result(status, 0, if c.Read? then c.into else NO_BUFFERS, None))
  }

  predicate OnStruct(c: Call) {
    c.Write? || c.WriteMany? || c.Read? || c.Delete? || c.Count? || c.WriteBlob? || c.ReadBlob?
  }

  /** An empty batch, a stride of 0 and a delete without a condition are refused before anything is looked up. */
  lemma {:induction false} ArgumentsRefused(x: Setting, w: TxState, c: Call)
    requires SchemasOk(x.schemas) && WorldOk(w) && Proper(x.schemas, c)
    requires (c.WriteMany? && (c.count == 0 || c.stride == 0)) || (c.Delete? && c.cond.None?)
    ensures Refuses(x, w, c, InvalidArg)
  {
    hide BatchSpec, CallReply, SchemasOk, TablesOk, FindSchema;
  }

  /** Every other call on a struct that is not registered says so. */
  lemma {:induction false} UnknownRefused(x: Setting, w: TxState, c: Call)
    requires SchemasOk(x.schemas) && WorldOk(w) && Proper(x.schemas, c) && OnStruct(c)
    requires FindSchema(x.schemas, c.name).None?
    requires !(c.WriteMany? && (c.count == 0 || c.stride == 0)) && !(c.Delete? && c.cond.None?)
    ensures Refuses(x, w, c, UnknownStruct)
  {
    hide QueryReply, BatchSpec, StoreSpec, Deliver, SchemasOk, TablesOk, FindSchema;
  }

  /** The condition of a call that has one. */
  function CondOf(c: Call): Option<Condition>
    requires c.Read? || c.Count? || c.Delete? || c.WriteBlob? || c.ReadBlob?
  {
    match c
    case WriteBlob(_, key, _, _) => Some(key)
    case ReadBlob(_, key, _) => Some(key)
    case _ => c.cond
  }

  /** The query a call with a condition begins with. */
  function FirstQuery(c: Call): Query
    requires c.Read? || c.Count? || c.Delete? || c.WriteBlob? || c.ReadBlob?
  {
    match c
    case Read(_, cond, _, _) => SelectRows(cond)
    case Count(_, cond) => CountRows(cond)
    case Delete(_, cond) => DeleteRows(cond)
    case WriteBlob(_, key, col, _) => SelectField(col, Some(key))
    case ReadBlob(_, key, col) => SelectField(col, Some(key))
  }

  lemma {:induction false} QueryRefused(x: Setting, tables: Tables, s: Schema, c: Call)
    requires PlainSchema(s) && TablesOk(tables) && (c.Read? || c.Count? || c.Delete? || c.WriteBlob? || c.ReadBlob?)
    requires (c.WriteBlob? || c.ReadBlob? ==> c.col in Names(s)) && !Askable(s, CondOf(c))
    ensures QueryReply(x.d, x.cmp, tables, s, FirstQuery(c), NullValue) ==
            Reply(if Known(Names(s), CondOf(c)) then DriverError else UnknownColumn, tables, [], 0)
  {
    var q := FirstQuery(c);
    assert QueryCond(q) == CondOf(c);
    RefusedText(x.d, x.cmp, tables, s, q, NullValue);
    if Known(Names(s), CondOf(c)) {
      KnownIsPlain(s, q);
      QueryRoundTrip(x.d, s, q);
    }
    hide QueryReply, QueryText, SqlStatements.ParseText, PlainQuery;
  }

  /**
   * A condition on a column the struct does not have is refused as that, and one with a match-all below a
   * connective by the backend, whichever call it comes with.
   */
  lemma {:induction false} ConditionRefused(x: Setting, w: TxState, s: Schema, c: Call)
    requires Registered(x, s) && WorldOk(w) && Proper(x.schemas, c) && OnStruct(c) && c.name == s.name
    requires !c.Write? && !c.WriteMany? && !(c.Delete? && c.cond.None?)
    requires (c.WriteBlob? || c.ReadBlob? ==> BlobField(s, c.col)) && !Askable(s, CondOf(c))
    ensures Refuses(x, w, c, if Known(Names(s), CondOf(c)) then DriverError else UnknownColumn)
  {
    QueryRefused(x, w.tables, s, c);
    hide QueryReply, Deliver, TablesOk, FindSchema, Askable, Known;
  }

  /** A field call refuses a column the struct does not have and one that is no BLOB, whatever the condition. */
  lemma {:induction false} FieldCallRefused(x: Setting, w: TxState, s: Schema, c: Call)
    requires Registered(x, s) && WorldOk(w) && (c.WriteBlob? || c.ReadBlob?) && c.name == s.name
    requires !BlobField(s, c.col)
    ensures Refuses(x, w, c, if c.col in Names(s) then InvalidArg else UnknownColumn)
  {
    FieldRefused(x.d, x.cmp, w.tables, x.schemas, s.name, c.key, c.col,
        if c.WriteBlob? then c.bytes else []);
    hide WriteBlobSpec, ReadBlobSpec, TablesOk, FindSchema, SchemasOk;
  }

  /**
   * Begin is refused at depth 16, commit and rollback outside a transaction, and all by a backend that is down. When
   * only the release of a nested rollback fails the tables are back and the level stays open.
   */
  lemma {:induction false} TxRefused(x: Setting, w: TxState, up: bool)
    requires SchemasOk(x.schemas) && WorldOk(w)
    ensures |w.stack| == 16 ==> Refuses(x, w, Begin(up), NestedTx)
    ensures w.stack == [] ==> Refuses(x, w, Commit(up), NoActiveTx) && Refuses(x, w, Rollback(up, up), NoActiveTx)
    ensures |w.stack| < 16 ==> Refuses(x, w, Begin(false), DriverError)
    ensures w.stack != [] ==>
              Refuses(x, w, Commit(false), DriverError) && Refuses(x, w, Rollback(false, up), DriverError)
    ensures |w.stack| > 1 ==>
              Does(x, w, Rollback(true, false)) == (TxState(w.stack, w.stack[|w.stack| - 1]), Just(DriverError))
  {
    hide TablesOk, SchemasOk;
  }

  /** The last call of a run sees the world the calls before it left. */
  lemma {:induction false} LastCall(x: Setting, memory: nat, w: TxState, calls: seq<Call>, c: Call)
    requires SchemasOk(x.schemas) && WorldOk(w) && AllProper(x, memory, calls + [c])
    ensures AllProper(x, memory, calls) && Proper(x.schemas, c)
    ensures var (mid, rs) := RunSpec(x, memory, w, calls);
            WorldOk(mid) && RunSpec(x, memory, w, calls + [c]) == (Does(x, mid, c).0, rs + [Does(x, mid, c).1])
    decreases |calls|
  {
    hide *;
    ProperSplit(x, memory, calls, [c]);
    RunStep(x, memory, w, calls);
    RunStep(x, memory, w, calls + [c]);
    RunKeepsWorld(x, memory, w, calls);
    if calls == [] {
      assert (calls + [c])[0] == c && (calls + [c])[1..] == [];
      RunStep(x, memory, Does(x, w, c).0, []);
      assert [] + [Does(x, w, c).1] == [Does(x, w, c).1] + [];
    } else {
      assert (calls + [c])[0] == calls[0] && (calls + [c])[1..] == calls[1..] + [c];
      var next, one := Does(x, w, calls[0]).0, [Does(x, w, calls[0]).1];
      LastCall(x, memory, next, calls[1..], c);
      var (mid, rest) := RunSpec(x, memory, next, calls[1..]);
      assert one + (rest + [Does(x, mid, c).1]) == one + rest + [Does(x, mid, c).1];
    }
  }

  /** After any run from a served world, a read answers by the rows that match then. */
  lemma {:induction false} ReadAfterRun(x: Setting, memory: nat, w: TxState, calls: seq<Call>, s: Schema, c: Call)
    requires Registered(x, s) && WorldOk(w) && WorldServed(x.schemas, w) && AllProper(x, memory, calls + [c])
    requires c.Read? && c.name == s.name && Askable(s, c.cond)
    ensures AllProper(x, memory, calls) && BuffersFit(x.schemas, s.name, c.into)
    ensures var (mid, rs) := RunSpec(x, memory, w, calls);
            var (end, all) := RunSpec(x, memory, w, calls + [c]);
            && Served(mid.tables, s) && end == mid && |all| == |rs| + 1 && all[..|rs|] == rs
            && var m := Matching(x.cmp, Names(s), mid.tables[s.name].rows, c.cond);
               Shaped(|s.cols|, m) && Answers(s, m, c.allowMulti, c.into, all[|rs|])
  {
    LastCall(x, memory, w, calls, c);
    RunKeepsServed(x, memory, w, calls);
    var mid := RunSpec(x, memory, w, calls).0;
    assert AllServed(mid.tables, x.schemas);
    hide Does, Answers, Matching, RunSpec, SchemasOk, WorldOk, WorldServed, AllProper, Fed, FindSchema, Askable, Served;
    ReadInRows(x, mid, s, c.cond, c.allowMulti, c.into);
  }

  // ---- Writing and reading back ----------------------------------------------------------

  /** No two rows have the same value in column `k`. */
  ghost predicate KeysDiffer(rows: seq<Row>, k: nat)
    requires forall i :: 0 <= i < |rows| ==> k < |rows[i]|
  {
    forall i, j :: 0 <= i < j < |rows| ==> rows[i][k] != rows[j][k]
  }

  /** With keys that differ, the condition on the key picks out the one row that has it. */
  lemma {:induction false} KeyPicksOne(cmp: Comparator, names: seq<string>, rows: seq<Row>, k: nat, t: SqlType, j: nat)
    requires Distinct(names) && k < |names| && Shaped(|names|, rows) && j < |rows| && KeysDiffer(rows, k)
    requires Guard.EqIsEquality(cmp, t) && Guard.AllOfType(t, rows, k)
    ensures Known(names, Some(Leaf(names[k], Eq, rows[j][k])))
    ensures Matching(cmp, names, rows, Some(Leaf(names[k], Eq, rows[j][k]))) == [rows[j]]
    decreases |rows|
  {
    hide Selected, Guard.EqIsEquality, Distinct;
    Guard.KeySelected(cmp, names, rows[0], k, t, rows[j][k]);
    assert forall i :: 1 <= i < |rows| ==> rows[i] == rows[1..][i - 1];
    if j == 0 {
      Guard.KeyMatches(cmp, names, rows[1..], k, t, rows[0][k]);
    } else {
      KeyPicksOne(cmp, names, rows[1..], k, t, j - 1);
    }
  }

  /** Among admissible rows after an upsert, the row just written is the only one with its key. */
  lemma {:induction false} WrittenOnce(cmp: Comparator, tables: Tables, s: Schema, vals: Row)
    requires Guard.Keyed(s) && Guard.KeyTable(tables, s) && Guard.EqIsEquality(cmp, s.cols[s.pkIndex].typ)
    requires |vals| == |s.cols| && Guard.OfType(s.cols[s.pkIndex].typ, vals[s.pkIndex])
    requires Shaped(|vals|, tables[s.name].rows)
    requires Admissible(tables[s.name].cols, Written(s, tables[s.name].rows, vals))
    ensures Known(Names(s), Some(Leaf(s.cols[s.pkIndex].name, Eq, vals[s.pkIndex])))
    ensures Matching(cmp, Names(s), Written(s, tables[s.name].rows, vals),
            Some(Leaf(s.cols[s.pkIndex].name, Eq, vals[s.pkIndex]))) == [vals]
  {
    var rows, k, t := tables[s.name].rows, s.pkIndex, tables[s.name];
    var now, typ, j := Written(s, rows, vals), s.cols[k].typ, FindConflict(rows, k, vals[k]);
    UpsertRows(rows, k, vals);
    Guard.UpsertOfType(typ, rows, k, vals);
    hide *;
    assert Names(s)[k] == s.cols[k].name by { NameAt(s, k); }
    KeyFits(tables, s);
    UniqueKeys(t.cols, now, k, typ);
    KeyPicksOne(cmp, Names(s), now, k, typ, if j < 0 then |rows| else j);
  }

  lemma {:induction false} NameAt(s: Schema, k: nat)
    requires k < |s.cols|
    ensures |Names(s)| == |s.cols| && Names(s)[k] == s.cols[k].name
  {
  }

  lemma {:induction false} KeyFits(tables: Tables, s: Schema)
    requires Guard.Keyed(s) && Served(tables, s)
    ensures var cols := tables[s.name].cols;
            && |cols| == |s.cols| == |Names(s)| && Distinct(Names(s))
            && (cols[s.pkIndex].primaryKey || cols[s.pkIndex].unique)
  {
    hide Distinct;
  }

  lemma {:induction false} UniqueKeys(cols: seq<TableColumn>, rows: seq<Row>, k: nat, typ: SqlType)
    requires Shaped(|cols|, rows) && Admissible(cols, rows) && k < |cols| && (cols[k].primaryKey || cols[k].unique)
    requires Guard.AllOfType(typ, rows, k)
    ensures KeysDiffer(rows, k)
  {
  }

  /**
   * Column `j` of a struct that was written is back in the caller's buffers: its bytes and behind them what
   * was there, zeros in a single-row read, and its NULL bit added.
   */
  ghost predicate IsBack(s: Schema, row: seq<byte>, bitmap: Option<seq<byte>>, allowMulti: bool, into: Buffers,
      back: Buffers, j: nat)
    requires RowFits(s, |row|) && BitmapFits(s, bitmap) && RowFits(s, |into.row|) && BitmapFits(s, into.nulls)
    requires j < |s.cols|
  {
    var col := s.cols[j];
    var a, z := col.offset, col.offset + Width(col);
    var was := if allowMulti then into.row[a..z] else Zeros(Width(col));
    var b := if NullBit(bitmap, j) then [] else CameBack(col, row);
    && z <= |back.row| && |b| <= Width(col) && back.row[a..z] == b + was[|b|..]
    && back.nulls.Some? == into.nulls.Some? && BitmapFits(s, back.nulls)
    && (into.nulls.Some? ==> NullBit(back.nulls, j) == (NullBit(into.nulls, j) || NullBit(bitmap, j)))
  }

  predicate SomeUnterminated(s: Schema, row: seq<byte>, bitmap: Option<seq<byte>>)
    requires RowFits(s, |row|) && BitmapFits(s, bitmap)
  {
    exists i :: 0 <= i < |s.cols| && Unterminated(s, row, bitmap, i)
  }

  lemma {:induction false} ReadIntoBack(s: Schema, row: seq<byte>, bitmap: Option<seq<byte>>, into: Buffers, j: nat)
    requires ProperSchema(s) && RowFits(s, |row|) && BitmapFits(s, bitmap) && RowFits(s, |into.row|)
    requires BitmapFits(s, into.nulls)
    requires j < |s.cols|
    ensures var vals := RowValues(s, row, bitmap);
            var nulls := if into.nulls.None? then None else Some(NullsUpTo(vals, |s.cols|, into.nulls.value));
            IsBack(s, row, bitmap, true, into, Buffers(ReadUpTo(s, vals, |s.cols|, into.row), nulls), j)
  {
    hide NullBit, CameBack, ReadUpTo, NullsUpTo, ProperSchema, Terminated;
    var col, nulls := s.cols[j], if into.nulls.None? then Zeros(BitmapBytes(|s.cols|)) else into.nulls.value;
    RowRoundTrip(s, row, bitmap, into.row, nulls, j);
    var b := if NullBit(bitmap, j) then [] else CameBack(col, row);
    var a, z := col.offset, col.offset + Width(col);
    assert into.row[a..z][|b|..] == into.row[a + |b|..z];
  }

  lemma {:induction false} CopiedBack(s: Schema, row: seq<byte>, bitmap: Option<seq<byte>>, into: Buffers, j: nat)
    requires ProperSchema(s) && RowFits(s, |row|) && BitmapFits(s, bitmap) && RowFits(s, |into.row|)
    requires BitmapFits(s, into.nulls)
    requires j < |s.cols| && SizesCover(s) && RowEnd(s, |s.cols|) <= |into.row|
    ensures var vals := RowValues(s, row, bitmap);
            var nulls := if into.nulls.None? then None else Some(CopiedNulls(s, vals, into.nulls.value));
            IsBack(s, row, bitmap, false, into, Buffers(CopiedRow(s, vals, into.row), nulls), j)
  {
    hide NullBit, CameBack, ReadUpTo, NullsUpTo, CopiedNulls, ProperSchema, Terminated, RowEnd;
    var col, vals, n := s.cols[j], RowValues(s, row, bitmap), RowEnd(s, |s.cols|);
    ReadIntoBack(s, row, bitmap, Buffers(Zeros(n), into.nulls), j);
    if into.nulls.Some? { CopiedNullBit(s, vals, into.nulls.value, j); }
    var a, z := col.offset, col.offset + Width(col);
    assert CopiedRow(s, vals, into.row)[a..z] == ReadUpTo(s, vals, |s.cols|, Zeros(n))[a..z];
    assert Zeros(n)[a..z] == Zeros(Width(col));
  }

  lemma {:induction false} DeliveredBack(s: Schema, row: seq<byte>, bitmap: Option<seq<byte>>, allowMulti: bool,
      into: Buffers)
    requires ProperSchema(s) && RowFits(s, |row|) && BitmapFits(s, bitmap) && RowFits(s, |into.row|)
    requires BitmapFits(s, into.nulls)
    requires SizesCover(s) && RowEnd(s, |s.cols|) <= |into.row| && s.cols != []
    ensures var (status, back) := Deliver(s, [RowValues(s, row, bitmap)], allowMulti, true, into);
            && status == (if SomeUnterminated(s, row, bitmap) then WarnTruncated else Ok)
            && forall j :: 0 <= j < |s.cols| ==> IsBack(s, row, bitmap, allowMulti, into, back, j)
  {
    hide IsBack, ReadStatus, NullBit, CameBack, ReadUpTo, NullsUpTo, CopiedRow, CopiedNulls, ProperSchema, Terminated,
         RowEnd;
    RowRoundTrip(s, row, bitmap, into.row, Zeros(BitmapBytes(|s.cols|)), 0);
    var back := Deliver(s, [RowValues(s, row, bitmap)], allowMulti, true, into).1;
    forall j | 0 <= j < |s.cols| ensures IsBack(s, row, bitmap, allowMulti, into, back, j) {
      ReadIntoBack(s, row, bitmap, into, j);
      CopiedBack(s, row, bitmap, into, j);
    }
  }

  /** A write that succeeds leaves the struct as the one row with its key. */
  lemma {:induction false} WriteInRows(x: Setting, w: TxState, s: Schema, row: seq<byte>, bitmap: Option<seq<byte>>)
    requires Registered(x, s) && WorldOk(w) && StructFits(x.schemas, s.name, row, bitmap)
    requires Guard.Keyed(s) && Guard.KeyTable(w.tables, s) && Guard.EqIsEquality(x.cmp, s.cols[s.pkIndex].typ)
    requires Does(x, w, Write(s.name, row, bitmap)).1.status == Ok
    ensures var now := Does(x, w, Write(s.name, row, bitmap)).0;
            && WorldOk(now) && Guard.KeyTable(now.tables, s) && Askable(s, Some(Guard.KeyIs(s, row)))
            && Matching(x.cmp, Names(s), now.tables[s.name].rows, Some(Guard.KeyIs(s, row))) ==
                [RowValues(s, row, bitmap)]
  {
    var vals := RowValues(s, row, bitmap);
    DoesKeepsWorld(x, w, Write(s.name, row, bitmap));
    hide Matching, WriteSpec, CellValue, FindSchema, SchemasOk, NullsAllowed, RowValues, Guard.EqIsEquality,
         Guard.Keyed, Guard.KeyTable, Admissible, Written;
    ForbiddenNull(s, bitmap);
    if NullsAllowed(s, bitmap) {
      Guard.KeyBound(s, row, bitmap);
      WriteMeans(x.d, x.cmp, w.tables, x.schemas, s, row, bitmap);
      Guard.AcceptedRows(w.tables, s, vals);
      WrittenOnce(x.cmp, w.tables, s, vals);
    } else {
      var i :| 0 <= i < |s.cols| && NullBit(bitmap, i) && !s.cols[i].nullable;
      WriteRefused(x.d, x.cmp, w.tables, x.schemas, s, row, bitmap, i);
    }
  }

  /** A read by the struct's key delivers every column of it, and changes nothing. */
  ghost predicate Retrieved(x: Setting, w: TxState, s: Schema, row: seq<byte>, bitmap: Option<seq<byte>>,
      allowMulti: bool, into: Buffers)
    requires Registered(x, s) && WorldOk(w) && BuffersFit(x.schemas, s.name, into)
    requires 0 <= s.pkIndex < |s.cols| && RowFits(s, |row|) && BitmapFits(s, bitmap)
  {
    var (end, r) := Does(x, w, Read(s.name, Some(Guard.KeyIs(s, row)), allowMulti, into));
    && end == w && r.status == (if SomeUnterminated(s, row, bitmap) then WarnTruncated else Ok)
    && forall j :: 0 <= j < |s.cols| ==> IsBack(s, row, bitmap, allowMulti, into, r.buffers, j)
  }

  /**
   * What is written is read back: after a write that succeeds, a read by its key finds that one row and
   * delivers every column of it, with a warning exactly when a TEXT member had no terminator.
   */
  lemma {:induction false} WriteThenRead(x: Setting, w: TxState, s: Schema, row: seq<byte>, bitmap: Option<seq<byte>>,
      allowMulti: bool, into: Buffers)
    requires Registered(x, s) && WorldOk(w) && StructFits(x.schemas, s.name, row, bitmap)
    requires BuffersFit(x.schemas, s.name, into)
    requires Guard.Keyed(s) && Guard.KeyTable(w.tables, s) && Guard.EqIsEquality(x.cmp, s.cols[s.pkIndex].typ)
    requires ProperSchema(s) && Does(x, w, Write(s.name, row, bitmap)).1.status == Ok
    ensures var now := Does(x, w, Write(s.name, row, bitmap)).0;
            WorldOk(now) && Retrieved(x, now, s, row, bitmap, allowMulti, into)
  {
    WriteInRows(x, w, s, row, bitmap);
    var now := Does(x, w, Write(s.name, row, bitmap)).0;
    DeliveredBack(s, row, bitmap, allowMulti, into);
    hide Does, Matching, Deliver, IsBack, FindSchema, SchemasOk, Guard.EqIsEquality, ProperSchema, WorldOk, Askable,
         Served, RowValues;
    ReadInRows(x, now, s, Some(Guard.KeyIs(s, row)), allowMulti, into);
  }
}
