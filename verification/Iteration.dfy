/** What an iterator yields, call by call. */
module Iteration {
  import opened Core
  import opened Bits
  import opened Conditions
  import opened LruSpec
  import opened Driving
  import opened SqlEngine
  import opened Queries
  import opened TableSpec
  import opened QueryMeaning
  import opened RowMapping
  import opened Ledger
  import opened ApiSpec
  import opened ApiMeaning
  import opened Handles

  /**
   * Where a statement stands after `i` steps. PostgreSQL runs off the end and stays there; SQLite runs the
   * statement again after it has reported the end, so that it goes round in n + 1 steps.
   */
  function PositionAfter(d: Dialect, n: nat, i: nat): nat
    requires i > 0
  {
    if d.Postgres? then i - 1 else (i - 1) % (n + 1)
  }

  function CursorAfter(d: Dialect, rows: seq<Row>, i: nat): Option<Cursor> {
    if i == 0 then None else Some(Cursor(rows, PositionAfter(d, |rows|, i)))
  }

  lemma {:induction false} RoundNext(n: nat, j: nat)
    ensures (j + 1) % (n + 1) == if j % (n + 1) == n then 0 else j % (n + 1) + 1
  {
    var q, r := j / (n + 1), j % (n + 1);
    assert j == (n + 1) * q + r;
    if r == n {
      assert j + 1 == (n + 1) * (q + 1) + 0;
      ModuloUnique(j + 1, n + 1, q + 1, 0);
    } else {
      ModuloUnique(j + 1, n + 1, q, r + 1);
    }
  }

  /** One more step from there, on the tables the rows came from. */
  lemma {:induction false} AdvanceNext(d: Dialect, cmp: Comparator, tables: Tables, sql: string, binds: seq<Value>,
      rows: seq<Row>, i: nat)
    requires TablesOk(tables) && ExecuteText(cmp, tables, sql, binds).Done?
    requires ExecuteText(cmp, tables, sql, binds).rows == rows
    ensures Advance(d, cmp, tables, StmtState(sql, binds, CursorAfter(d, rows, i))) == (Ok, CursorAfter(d, rows, i + 1))
  {
    hide ExecuteText;
    if i > 0 { RoundNext(|rows|, i - 1); }
  }

  /** The answer of call `i`, counting from 0, with `b` in the caller's buffers. */
  ghost function Answer(s: Schema, d: Dialect, rows: seq<Row>, i: nat, b: Buffers): (Status, Buffers)
    requires Shaped(|s.cols|, rows) && RowFits(s, |b.row|) && BitmapFits(s, b.nulls)
  {
    NextSpec(s, Ok, CursorAfter(d, rows, i + 1), b)
  }

  /** Call `i` delivers row `i` as long as there is one, and the next reports the end. */
  lemma {:induction false} AnswerInOrder(s: Schema, d: Dialect, rows: seq<Row>, i: nat, b: Buffers)
    requires Shaped(|s.cols|, rows) && RowFits(s, |b.row|) && BitmapFits(s, b.nulls)
    ensures i < |rows| ==> Answer(s, d, rows, i, b) == Deliver1(s, rows[i], b)
    ensures i == |rows| ==> Answer(s, d, rows, i, b) == (NotFound, b)
    ensures i > |rows| && d.Postgres? ==> Answer(s, d, rows, i, b) == (NotFound, b)
    ensures i > |rows| && d.Sqlite? ==> Answer(s, d, rows, i, b) == Answer(s, d, rows, i - |rows| - 1, b)
  {
    if i <= |rows| {
      ModuloUnique(i, |rows| + 1, 0, i);
    } else {
      var q, r := (i - |rows| - 1) / (|rows| + 1), (i - |rows| - 1) % (|rows| + 1);
      assert i == (|rows| + 1) * (q + 1) + r;
      ModuloUnique(i, |rows| + 1, q + 1, r);
    }
  }

  /** A row read in place. */
  ghost function Deliver1(s: Schema, vals: Row, b: Buffers): (Status, Buffers)
    requires |vals| == |s.cols| && RowFits(s, |b.row|) && BitmapFits(s, b.nulls)
  {
    (ReadStatus(s, vals),
     Buffers(ReadUpTo(s, vals, |s.cols|, b.row), if b.nulls.None? then None
         else Some(NullsUpTo(vals, |s.cols|, b.nulls.value))))
  }

  /** The rows a scan selects. */
  ghost function ScanRows(cmp: Comparator, tables: Tables, scan: Scan): (rows: seq<Row>)
    requires Served(tables, scan.schema) && Known(Names(scan.schema), scan.cond)
    ensures Shaped(|scan.schema.cols|, rows)
  {
    Matching(cmp, Names(scan.schema), tables[scan.schema.name].rows, scan.cond)
  }

  /** Running an iterator's text gives the rows its condition selects. */
  lemma {:induction false} ScanMeans(d: Dialect, cmp: Comparator, tables: Tables, scan: Scan)
    requires Served(tables, scan.schema) && PlainSchema(scan.schema) && Known(Names(scan.schema), scan.cond)
    requires NoNestedAll(scan.cond)
    ensures var o := ExecuteText(cmp, tables, QueryText(d, scan.schema, SelectRows(scan.cond)), WhereLeaves(scan.cond));
            o.Done? && o.rows == ScanRows(cmp, tables, scan)
  {
    SelectMeans(d, cmp, tables, scan.schema, scan.cond);
    hide ExecuteText, QueryText, Matching, Served, Known;
  }

  /** Calls StmtNext `m` times, each time with the same bytes in the buffers. */
  method Walk(h: Handle, id: StmtId, s: Schema, b: Buffers, m: nat) returns (rs: seq<(Status, Buffers)>)
    requires h.Valid() && id in h.scans && h.scans[id].schema == s && RowFits(s, |b.row|) && BitmapFits(s, b.nulls)
    requires id in h.drv.stmts && h.drv.stmts[id].cursor.None?
    requires Served(h.drv.tables, s) && PlainSchema(s) && Known(Names(s), h.scans[id].cond)
    requires NoNestedAll(h.scans[id].cond)
    modifies h.drv`stmts, h.drv`tables, h.drv`changes
    ensures h.Valid() && h.drv.tables == old(h.drv.tables) && |rs| == m
    ensures forall i :: 0 <= i < m ==>
              rs[i] == Answer(s, h.drv.dialect, ScanRows(h.drv.cmp, h.drv.tables, h.scans[id]), i, b)
  {
    hide *;
    ghost var d, cmp, tables, scan := h.drv.dialect, h.drv.cmp, h.drv.tables, h.scans[id];
    ghost var rows, st := ScanRows(cmp, tables, scan), h.drv.stmts[id];
    h.ScanText(id);
    h.WorldIsOk();
    ScanMeans(d, cmp, tables, scan);
    CursorStart(d, rows);
    rs := [];
    for i := 0 to m
      invariant h.Valid() && h.drv.tables == tables && |rs| == i
      invariant id in h.drv.stmts && h.drv.stmts[id] == StmtState(st.sql, st.binds, CursorAfter(d, rows, i))
      invariant forall j :: 0 <= j < i ==> rs[j] == Answer(s, d, rows, j, b)
    {
      var out, nulls := Allocate(b);
      BuffersFitted(s, out, nulls);
      AdvanceNext(d, cmp, tables, st.sql, st.binds, rows, i);
      var status := h.StmtNext(id, s, out, nulls);
      AnswerIs(s, d, rows, i, b);
      BuffersAre(out, nulls);
      rs := rs + [(status, Buffers(out[..], if nulls == null then None else Some(nulls[..])))];
    }
  }

  lemma {:induction false} CursorStart(d: Dialect, rows: seq<Row>)
    ensures CursorAfter(d, rows, 0) == None
  {
  }

  lemma {:induction false} AnswerIs(s: Schema, d: Dialect, rows: seq<Row>, i: nat, b: Buffers)
    requires Shaped(|s.cols|, rows) && RowFits(s, |b.row|) && BitmapFits(s, b.nulls)
    ensures CursorAfter(d, rows, i + 1).Some? && CursorAfter(d, rows, i + 1).value.rows == rows
    ensures Answer(s, d, rows, i, b) == NextSpec(s, Ok, CursorAfter(d, rows, i + 1), b)
  {
  }

  lemma {:induction false} BuffersFitted(s: Schema, out: array<byte>, nulls: array?<byte>)
    requires RowFits(s, |BuffersOf(out, nulls).row|)
    ensures RowFits(s, out.Length)
  {
  }

  /** Row `i`, or the end, or after the end: the end again, or what was answered a round before. */
  ghost predicate InPlace(s: Schema, d: Dialect, rows: seq<Row>, b: Buffers, rs: seq<(Status, Buffers)>, i: nat)
    requires Shaped(|s.cols|, rows) && RowFits(s, |b.row|) && BitmapFits(s, b.nulls) && i < |rs|
  {
    if i < |rows| then rs[i] == Deliver1(s, rows[i], b)
    else if i == |rows| || d.Postgres? then rs[i] == (NotFound, b)
    else rs[i] == rs[i - |rows| - 1]
  }

  ghost predicate InOrder(s: Schema, d: Dialect, rows: seq<Row>, b: Buffers, rs: seq<(Status, Buffers)>)
    requires Shaped(|s.cols|, rows) && RowFits(s, |b.row|) && BitmapFits(s, b.nulls)
  {
    forall i :: 0 <= i < |rs| ==> InPlace(s, d, rows, b, rs, i)
  }

  lemma {:induction false} AnswersInOrder(s: Schema, d: Dialect, rows: seq<Row>, b: Buffers, rs: seq<(Status, Buffers)>)
    requires Shaped(|s.cols|, rows) && RowFits(s, |b.row|) && BitmapFits(s, b.nulls)
    requires forall i :: 0 <= i < |rs| ==> rs[i] == Answer(s, d, rows, i, b)
    ensures InOrder(s, d, rows, b, rs)
  {
    hide Answer, Deliver1;
    forall i | 0 <= i < |rs| ensures InPlace(s, d, rows, b, rs, i) {
      AnswerInOrder(s, d, rows, i, b);
    }
  }

  /** An iterator's struct is registered, its table serves it and its condition is one that prints. */
  ghost predicate Iterable(schemas: seq<Schema>, tables: Tables, name: string, cond: Option<Condition>) {
    var found := FindSchema(schemas, name);
    found.Some? && Served(tables, found.value) && Known(Names(found.value), cond) && NoNestedAll(cond)
  }

  lemma {:induction false} IterableFacts(cmp: Comparator, schemas: seq<Schema>, tables: Tables, name: string,
      cond: Option<Condition>, s: Schema)
    requires SchemasOk(schemas) && Iterable(schemas, tables, name, cond) && FindSchema(schemas, name) == Some(s)
    ensures PlainSchema(s) && KnownQuery(s, SelectRows(cond)) && Served(tables, s) && Known(Names(s), cond)
    ensures NoNestedAll(cond)
  {
    hide Served, PlainSchema, NoNestedAll, FindSchema;
  }

  /**
   * The whole life of an iterator on a table that serves its schema: opened, stepped `m` times and closed. Call
   * `i` delivers the `i`-th row that matches, the next one reports the end, and after that PostgreSQL keeps
   * reporting it while SQLite starts over.
   */
  method Iterate(h: Handle, s: Schema, cond: Option<Condition>, b: Buffers, m: nat)
      returns (status: Status, rs: seq<(Status, Buffers)>)
    requires h.Valid() && Iterable(h.schemas, h.drv.tables, s.name, cond) && FindSchema(h.schemas, s.name) == Some(s)
    requires RowFits(s, |b.row|) && BitmapFits(s, b.nulls)
    modifies h`scans, h.drv
    ensures h.Valid() && h.scans == old(h.scans) && h.drv.tables == old(h.drv.tables)
    ensures status == Ok || (status == NoMemory
            && CallStarved(h.drv.dialect, h.schemas, s.name, SelectRows(cond), h.memory, true))
    ensures status == Ok ==>
            |rs| == m && InOrder(s, h.drv.dialect, ScanRows(h.drv.cmp, h.drv.tables, Scan(s, cond)), b, rs)
  {
    hide *;
    ghost var d, cmp, tables, scan := h.drv.dialect, h.drv.cmp, h.drv.tables, Scan(s, cond);
    h.WorldIsOk();
    IterableFacts(cmp, h.schemas, tables, s.name, cond, s);
    var id;
    rs := [];
    status, id := h.ReadMany(s.name, cond, true);
    if status != Ok { return; }
    rs := Walk(h, id, s, b, m);
    h.StmtFree(id);
    AnswersInOrder(s, d, ScanRows(cmp, tables, scan), b, rs);
    assert old(h.scans)[id := scan] - {id} == old(h.scans);
  }
}
