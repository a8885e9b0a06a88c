/** What the calls mean for the rows of a table, with no SQL in sight. */
module ApiMeaning {
  import opened Core
  import opened Conditions
  import opened SqlStatements
  import opened Queries
  import opened QueryParsing
  import opened SqlEngine
  import opened TableSpec
  import opened QueryMeaning
  import opened RowBytes
  import opened RowMapping
  import opened ApiSpec

  ghost function WithRows(tables: Tables, name: string, rows: seq<Row>): Tables
    requires name in tables
  {
    tables[name := tables[name].(rows := rows)]
  }

  /** A query's reply, straight from its meaning. */
  lemma {:induction false} ReplyMeans(d: Dialect, cmp: Comparator, tables: Tables, s: Schema, q: Query, v: Value)
    requires Served(tables, s) && PlainSchema(s) && KnownQuery(s, q) && !q.InsertRow? && !q.UpsertRow?
    ensures var row: Row := seq(|s.cols|, _ => NullValue);
            var a := Meaning(cmp, s, tables[s.name], q, row, v);
            QueryReply(d, cmp, tables, s, q, v) ==
            if !NoNestedAll(QueryCond(q)) || a.Refused? then Reply(DriverError, tables, [], 0)
            else Reply(Ok, WithRows(tables, s.name, a.rows), a.result, a.changes)
  {
    var row: Row := seq(|s.cols|, _ => NullValue);
    KnownIsPlain(s, q);
    QueryMeans(d, cmp, tables, s, q, row, v);
    assert QueryBinds(q, row, v) == QueryBinds(q, [], v);
    hide QueryText, ExecuteText, Meaning, Served, KnownQuery, PlainQuery, QueryBinds;
  }

  lemma {:induction false} WithRowsSame(tables: Tables, name: string)
    requires name in tables
    ensures WithRows(tables, name, tables[name].rows) == tables
  {
  }

  /** A read returns exactly the rows that match, in table order. */
  lemma {:induction false} SelectMeans(d: Dialect, cmp: Comparator, tables: Tables, s: Schema, cond: Option<Condition>)
    requires Served(tables, s) && PlainSchema(s) && Known(Names(s), cond) && NoNestedAll(cond)
    ensures QueryReply(d, cmp, tables, s, SelectRows(cond), NullValue) ==
            Reply(Ok, tables, Matching(cmp, Names(s), tables[s.name].rows, cond), 0)
  {
    ReplyMeans(d, cmp, tables, s, SelectRows(cond), NullValue);
    WithRowsSame(tables, s.name);
    hide QueryReply, Matching, WithRows;
  }

  /** A count is their number. */
  lemma {:induction false} CountMeans(d: Dialect, cmp: Comparator, tables: Tables, s: Schema, cond: Option<Condition>)
    requires Served(tables, s) && PlainSchema(s) && Known(Names(s), cond) && NoNestedAll(cond)
    ensures QueryReply(d, cmp, tables, s, CountRows(cond), NullValue) ==
            Reply(Ok, tables, [[IntValue(|Matching(cmp, Names(s), tables[s.name].rows, cond)|)]], 0)
  {
    ReplyMeans(d, cmp, tables, s, CountRows(cond), NullValue);
    WithRowsSame(tables, s.name);
    hide QueryReply, Matching, WithRows;
  }

  /** A delete removes exactly the rows that match and reports how many they were. */
  lemma {:induction false} DeleteRowsMeans(d: Dialect, cmp: Comparator, tables: Tables, s: Schema,
      cond: Option<Condition>)
    requires Served(tables, s) && PlainSchema(s) && Known(Names(s), cond) && NoNestedAll(cond)
    ensures var rows := tables[s.name].rows;
            QueryReply(d, cmp, tables, s, DeleteRows(cond), NullValue) ==
            Reply(Ok, WithRows(tables, s.name, Others(cmp, Names(s), rows, cond)), [],
                |Matching(cmp, Names(s), rows, cond)|)
  {
    ReplyMeans(d, cmp, tables, s, DeleteRows(cond), NullValue);
    hide QueryReply, Matching, Others;
  }

  /** The rows of a table after a write of `vals`. */
  function Written(s: Schema, rows: seq<Row>, vals: Row): (r: seq<Row>)
    requires Shaped(|vals|, rows) && s.pkIndex < |vals|
    ensures Shaped(|vals|, r)
  {
    if s.pkIndex >= 0 then Upserted(rows, s.pkIndex, vals) else rows + [vals]
  }

  /**
   * A write: the row with its key is replaced whole, or the row is added, unless a constraint
   * forbids it. A schema with nothing but its key cannot be written.
   */
  lemma {:induction false} WriteMeans(d: Dialect, cmp: Comparator, tables: Tables, schemas: seq<Schema>, s: Schema,
      row: seq<byte>, bitmap: Option<seq<byte>>)
    requires FindSchema(schemas, s.name) == Some(s) && SchemasOk(schemas) && Served(tables, s)
    requires StructFits(schemas, s.name, row, bitmap) && (s.pkIndex >= 0 ==> |s.cols| >= 2)
    requires forall i :: 0 <= i < |s.cols| && NullBit(bitmap, i) ==> s.cols[i].nullable
    ensures var t := tables[s.name];
            var rows := Written(s, t.rows, RowValues(s, row, bitmap));
            WriteSpec(d, cmp, tables, schemas, s.name, row, bitmap) ==
            if Admissible(t.cols, rows) then (Ok, WithRows(tables, s.name, rows)) else (DriverError, tables)
  {
    var q, vals := WriteQuery(s), RowValues(s, row, bitmap);
    ForbiddenNull(s, bitmap);
    assert KnownQuery(s, q) && Printable(s, q);
    KnownIsPlain(s, q);
    QueryMeans(d, cmp, tables, s, q, vals, NullValue);
    QueryRoundTrip(d, s, q);
    hide QueryText, ExecuteText, Admissible, RowValues, QueryStmt, ParseText, PlainQuery, Distinct, FindSchema,
         NullsAllowed, RowFits;
  }

  /** The text of a write is a statement unless the schema has nothing but its key. */
  lemma {:induction false} WriteParses(d: Dialect, s: Schema)
    requires PlainSchema(s)
    ensures ParseText(QueryText(d, s, WriteQuery(s))).None? <==> s.pkIndex >= 0 && |s.cols| == 1
  {
    assert KnownQuery(s, WriteQuery(s));
    KnownIsPlain(s, WriteQuery(s));
    QueryRoundTrip(d, s, WriteQuery(s));
    hide QueryText, ParseText, QueryStmt, PlainQuery;
  }

  /**
   * A NULL in a column that is not nullable stops a write without effect. Only SQLite, and only for a schema with
   * nothing but its key, fails before it gets there.
   */
  lemma {:induction false} WriteRefused(d: Dialect, cmp: Comparator, tables: Tables, schemas: seq<Schema>, s: Schema,
      row: seq<byte>, bitmap: Option<seq<byte>>, i: nat)
    requires FindSchema(schemas, s.name) == Some(s) && SchemasOk(schemas) && TablesOk(tables)
    requires StructFits(schemas, s.name, row, bitmap) && i < |s.cols| && NullBit(bitmap, i) && !s.cols[i].nullable
    ensures WriteSpec(d, cmp, tables, schemas, s.name, row, bitmap) ==
            (if d.Sqlite? && s.pkIndex >= 0 && |s.cols| == 1 then DriverError else NotNullViolation, tables)
  {
    ForbiddenNull(s, bitmap);
    WriteParses(d, s);
    hide ExecuteText, QueryText, ParseText, RowValues, FindSchema, NullBit, NullsAllowed, TablesOk, PlainSchema;
  }

  // ---- The single-row contract -----------------------------------------------------------

  /** With one row matching, exactly one row changes, and in it exactly one column. */
  lemma {:induction false} OverwrittenOne(cmp: Comparator, names: seq<string>, rows: seq<Row>, cond: Option<Condition>,
      col: nat, v: Value) returns (j: nat)
    requires Shaped(|names|, rows) && Known(names, cond) && col < |names| && |Matching(cmp, names, rows, cond)| == 1
    ensures j < |rows| && rows[j] == Matching(cmp, names, rows, cond)[0] && Selected(cmp, names, rows[j], cond)
    ensures Overwritten(cmp, names, rows, cond, col, v) == rows[j := rows[j][col := v]]
  {
    hide Selected;
    var rest := Overwritten(cmp, names, rows[1..], cond, col, v);
    if Selected(cmp, names, rows[0], cond) {
      j := 0;
      OverwrittenNone(cmp, names, rows[1..], cond, col, v);
      assert rows[0 := rows[0][col := v]] == [rows[0][col := v]] + rows[1..];
    } else {
      var k := OverwrittenOne(cmp, names, rows[1..], cond, col, v);
      j := k + 1;
      assert rows[1..][k] == rows[j];
      assert rows[j := rows[j][col := v]] == [rows[0]] + rows[1..][k := rows[j][col := v]];
    }
  }

  lemma {:induction false} OverwrittenNone(cmp: Comparator, names: seq<string>, rows: seq<Row>, cond: Option<Condition>,
      col: nat, v: Value)
    requires Shaped(|names|, rows) && Known(names, cond) && col < |names| && Matching(cmp, names, rows, cond) == []
    ensures Overwritten(cmp, names, rows, cond, col, v) == rows
  {
    hide Selected;
    if rows != [] {
      OverwrittenNone(cmp, names, rows[1..], cond, col, v);
    }
  }

  lemma {:induction false} SelectFieldMeans(d: Dialect, cmp: Comparator, tables: Tables, s: Schema, key: Condition,
      col: string)
    requires Served(tables, s) && PlainSchema(s) && ColumnsIn(key, Names(s)) && NoNestedAll(Some(key))
    requires col in Names(s)
    ensures var m := Matching(cmp, Names(s), tables[s.name].rows, Some(key));
            QueryReply(d, cmp, tables, s, SelectField(col, Some(key)), NullValue) ==
                Reply(Ok, tables, OneColumn(m, IndexOf(Names(s), col)), 0)
  {
    ReplyMeans(d, cmp, tables, s, SelectField(col, Some(key)), NullValue);
    WithRowsSame(tables, s.name);
    hide QueryReply, Matching, ColumnsIn, Distinct, WithRows, IndexOf;
  }

  lemma {:induction false} UpdateFieldMeans(d: Dialect, cmp: Comparator, tables: Tables, s: Schema, key: Condition,
      col: string, v: Value)
    requires Served(tables, s) && PlainSchema(s) && ColumnsIn(key, Names(s)) && NoNestedAll(Some(key))
    requires col in Names(s)
    ensures var t, c := tables[s.name], IndexOf(Names(s), col);
            var m, over := Matching(cmp, Names(s), t.rows, Some(key)),
                Overwritten(cmp, Names(s), t.rows, Some(key), c, v);
            QueryReply(d, cmp, tables, s, UpdateField(col, Some(key)), v) ==
            if Admissible(t.cols, over) then Reply(Ok, WithRows(tables, s.name, over), [], |m|)
                else Reply(DriverError, tables, [], 0)
  {
    ReplyMeans(d, cmp, tables, s, UpdateField(col, Some(key)), v);
    hide QueryReply, Matching, Overwritten, Admissible, ColumnsIn, Distinct, WithRows, IndexOf;
  }

  /**
   * The field is written when exactly one row matches: that row gets the bytes in that column and the
   * rest of the table stays as it is. When none or several match nothing is written.
   */
  lemma {:induction false} WriteBlobMeans(d: Dialect, cmp: Comparator, tables: Tables, schemas: seq<Schema>, s: Schema,
      key: Condition, col: string, bytes: seq<byte>)
      returns (j: nat)
    requires FindSchema(schemas, s.name) == Some(s) && SchemasOk(schemas) && Served(tables, s)
    requires ColumnsIn(key, Names(s)) && NoNestedAll(Some(key)) && col in Names(s)
    requires s.cols[IndexOf(Names(s), col)].typ == Blob
    ensures var t, c := tables[s.name], IndexOf(Names(s), col);
            var m := Matching(cmp, Names(s), t.rows, Some(key));
            var r := WriteBlobSpec(d, cmp, tables, schemas, s.name, key, col, bytes);
            && (|m| == 0 ==> r == (NotFound, tables))
            && (|m| > 1 ==> r == (MultipleRows, tables))
            && (|m| == 1 ==> j < |t.rows| && t.rows[j] == m[0])
            && (|m| == 1 ==> var rows := t.rows[j := t.rows[j][c := BlobValue(bytes)]];
                             Shaped(|t.cols|, rows) && r == if Admissible(t.cols, rows)
                                 then (Ok, WithRows(tables, s.name, rows)) else (DriverError, tables))
  {
    var t, c := tables[s.name], IndexOf(Names(s), col);
    var m := Matching(cmp, Names(s), t.rows, Some(key));
    SelectFieldMeans(d, cmp, tables, s, key, col);
    UpdateFieldMeans(d, cmp, tables, s, key, col, BlobValue(bytes));
    j := 0;
    if |m| == 1 {
      j := OverwrittenOne(cmp, Names(s), t.rows, Some(key), c, BlobValue(bytes));
    }
    hide QueryReply, Matching, Overwritten, Admissible, ColumnsIn, FindSchema, IndexOf, Distinct;
  }

  /** The field is returned when exactly one row matches. */
  lemma {:induction false} ReadBlobMeans(d: Dialect, cmp: Comparator, tables: Tables, schemas: seq<Schema>, s: Schema,
      key: Condition, col: string)
    requires FindSchema(schemas, s.name) == Some(s) && SchemasOk(schemas) && Served(tables, s)
    requires ColumnsIn(key, Names(s)) && NoNestedAll(Some(key)) && col in Names(s)
    requires s.cols[IndexOf(Names(s), col)].typ == Blob
    ensures var m := Matching(cmp, Names(s), tables[s.name].rows, Some(key));
            ReadBlobSpec(d, cmp, tables, schemas, s.name, key, col) ==
            if |m| == 0 then (NotFound, None) else if |m| > 1 then (MultipleRows, None)
            else (Ok, Some(AsBytes(m[0][IndexOf(Names(s), col)])))
  {
    SelectFieldMeans(d, cmp, tables, s, key, col);
    hide QueryReply, Matching, Overwritten, Admissible, ColumnsIn, FindSchema, IndexOf, Distinct;
  }

  /** Whatever the condition, a field call refuses an unknown struct, an unknown column and a column that is no BLOB. */
  lemma {:induction false} FieldRefused(d: Dialect, cmp: Comparator, tables: Tables, schemas: seq<Schema>,
      name: string, key: Condition, col: string, bytes: seq<byte>)
    requires TablesOk(tables) && SchemasOk(schemas)
    requires var found := FindSchema(schemas, name);
             found.None? || col !in Names(found.value)
             || found.value.cols[IndexOf(Names(found.value), col)].typ != Blob
    ensures var found := FindSchema(schemas, name);
            var status := if found.None? then UnknownStruct
                          else if col !in Names(found.value) then UnknownColumn else InvalidArg;
            && WriteBlobSpec(d, cmp, tables, schemas, name, key, col, bytes) == (status, tables)
            && ReadBlobSpec(d, cmp, tables, schemas, name, key, col) == (status, None)
  {
    hide QueryReply, FindSchema;
  }
}
