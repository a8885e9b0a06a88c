/** Meaning preservation: running a query's text with its bound values does what the query means. */
module QueryMeaning {
  import opened Core
  import opened Conditions
  import opened SqlGrammar
  import opened SqlStatements
  import opened Queries
  import opened QueryParsing
  import opened SqlEngine
  import opened TableSpec

  // ---- Conditions ------------------------------------------------------------------------

  /** The values of the leaves stand at placeholders `n + 1` onwards. */
  ghost predicate BoundAt(binds: seq<Value>, n: nat, vs: seq<Value>) {
    n + |vs| <= |binds| && forall i :: 0 <= i < |vs| ==> binds[n + i] == vs[i]
  }

  lemma {:induction false} BoundSplit(binds: seq<Value>, n: nat, a: seq<Value>, b: seq<Value>)
    requires BoundAt(binds, n, a + b)
    ensures BoundAt(binds, n, a) && BoundAt(binds, n + |a|, b)
  {
    forall i | 0 <= i < |a| ensures binds[n + i] == a[i] { assert (a + b)[i] == a[i]; }
    forall i | 0 <= i < |b| ensures binds[n + |a| + i] == b[i] {
      assert (a + b)[|a| + i] == b[i] && binds[n + (|a| + i)] == (a + b)[|a| + i];
    }
  }

  lemma {:induction false} CondExprOk(names: seq<string>, k: nat, n: nat, c: Condition)
    requires AllFree(c) && ColumnsIn(c, names) && n + |Leaves(c)| <= k
    ensures ExprOk(CondExpr(n, c), names, k)
    decreases c
  {
    match c
    case Leaf(_, _, _) =>
    case And(l, r) => CondExprOk(names, k, n, l); CondExprOk(names, k, n + |Leaves(l)|, r);
    case Or(l, r) => CondExprOk(names, k, n, l); CondExprOk(names, k, n + |Leaves(l)|, r);
  }

  /**
   * Section 8.12 of SQL-92: the search condition is true, in three-valued logic, exactly on the
   * rows that the plain two-valued reading selects.
   */
  lemma {:induction false} CondMeans(cmp: Comparator, names: seq<string>, row: Row, binds: seq<Value>, n: nat,
      c: Condition)
    requires |row| == |names| && AllFree(c) && ColumnsIn(c, names) && BoundAt(binds, n, Leaves(c))
    ensures ExprOk(CondExpr(n, c), names, |binds|)
    ensures Eval(cmp, names, row, binds, CondExpr(n, c)) == True <==> Matches(cmp, names, row, c)
    decreases c
  {
    CondExprOk(names, |binds|, n, c);
    match c
    case Leaf(_, _, v) =>
      assert Leaves(c)[0] == v && binds[n + 0] == Leaves(c)[0];
    case And(l, r) =>
      BoundSplit(binds, n, Leaves(l), Leaves(r));
      CondMeans(cmp, names, row, binds, n, l);
      CondMeans(cmp, names, row, binds, n + |Leaves(l)|, r);
    case Or(l, r) =>
      BoundSplit(binds, n, Leaves(l), Leaves(r));
      CondMeans(cmp, names, row, binds, n, l);
      CondMeans(cmp, names, row, binds, n + |Leaves(l)|, r);
  }

  /** The requirements on a WHERE clause and the values bound for it. */
  ghost predicate Ready(names: seq<string>, binds: seq<Value>, n: nat, cond: Option<Condition>) {
    NoNestedAll(cond) && Known(names, cond) && BoundAt(binds, n, WhereLeaves(cond))
  }

  lemma {:induction false} FilterMeans(cmp: Comparator, names: seq<string>, row: Row, binds: seq<Value>, n: nat,
      cond: Option<Condition>)
    requires Ready(names, binds, n, cond) && |row| == |names|
    ensures FilterOk(FilterOf(n, cond), names, |binds|)
    ensures Keeps(cmp, names, row, binds, FilterOf(n, cond)) == Selected(cmp, names, row, cond)
  {
    if NeedsWhere(cond) {
      CondMeans(cmp, names, row, binds, n, cond.value);
    }
  }

  lemma {:induction false} ReadyFilter(names: seq<string>, binds: seq<Value>, n: nat, cond: Option<Condition>)
    requires Ready(names, binds, n, cond)
    ensures FilterOk(FilterOf(n, cond), names, |binds|)
  {
    if NeedsWhere(cond) {
      CondExprOk(names, |binds|, n, cond.value);
    }
  }

  // ---- Whole tables ----------------------------------------------------------------------

  /** One selection flag per row. */
  ghost predicate Flags(cmp: Comparator, names: seq<string>, rows: seq<Row>, cond: Option<Condition>, mask: seq<bool>)
    requires Shaped(|names|, rows) && Known(names, cond)
  {
    |mask| == |rows| && forall i :: 0 <= i < |rows| ==> mask[i] == Selected(cmp, names, rows[i], cond)
  }

  lemma {:induction false} FlagsTail(cmp: Comparator, names: seq<string>, rows: seq<Row>, cond: Option<Condition>,
      mask: seq<bool>)
    requires rows != [] && Shaped(|names|, rows) && Known(names, cond) && Flags(cmp, names, rows, cond, mask)
    ensures Shaped(|names|, rows[1..]) && Flags(cmp, names, rows[1..], cond, mask[1..])
  {
    hide Selected, Known;
  }

  lemma {:induction false} MaskMeans(cmp: Comparator, names: seq<string>, rows: seq<Row>, binds: seq<Value>, n: nat,
      cond: Option<Condition>)
    requires Ready(names, binds, n, cond) && Shaped(|names|, rows)
    ensures FilterOk(FilterOf(n, cond), names, |binds|)
    ensures Flags(cmp, names, rows, cond, Mask(cmp, names, rows, binds, FilterOf(n, cond)))
  {
    ReadyFilter(names, binds, n, cond);
    var mask := Mask(cmp, names, rows, binds, FilterOf(n, cond));
    forall i | 0 <= i < |rows| ensures mask[i] == Selected(cmp, names, rows[i], cond) {
      FilterMeans(cmp, names, rows[i], binds, n, cond);
    }
  }

  lemma {:induction false} KeepMeans(cmp: Comparator, names: seq<string>, rows: seq<Row>, cond: Option<Condition>,
      mask: seq<bool>)
    requires Shaped(|names|, rows) && Known(names, cond) && Flags(cmp, names, rows, cond, mask)
    ensures Keep(rows, mask) == Matching(cmp, names, rows, cond)
    ensures Keep(rows, Not(mask)) == Others(cmp, names, rows, cond)
  {
    if rows != [] {
      FlagsTail(cmp, names, rows, cond, mask);
      KeepMeans(cmp, names, rows[1..], cond, mask[1..]);
      hide Selected, Known;
      assert Not(mask)[1..] == Not(mask[1..]);
    }
  }

  lemma {:induction false} SetMeans(cmp: Comparator, names: seq<string>, rows: seq<Row>, cond: Option<Condition>,
      mask: seq<bool>, col: nat, v: Value)
    requires Shaped(|names|, rows) && Known(names, cond) && Flags(cmp, names, rows, cond, mask) && col < |names|
    ensures SetWhere(rows, mask, col, v) == Overwritten(cmp, names, rows, cond, col, v)
  {
    if rows != [] {
      FlagsTail(cmp, names, rows, cond, mask);
      SetMeans(cmp, names, rows[1..], cond, mask[1..], col, v);
      hide Selected, Known, Overwritten;
      var r, rest := SetWhere(rows, mask, col, v), SetWhere(rows[1..], mask[1..], col, v);
      assert r == [r[0]] + rest;
      OverwrittenDef(cmp, names, rows, cond, col, v);
    }
  }

  lemma {:induction false} OverwrittenDef(cmp: Comparator, names: seq<string>, rows: seq<Row>, cond: Option<Condition>,
      col: nat, v: Value)
    requires rows != [] && Shaped(|names|, rows) && Known(names, cond) && col < |names|
    ensures Overwritten(cmp, names, rows, cond, col, v) ==
            [if Selected(cmp, names, rows[0], cond) then rows[0][col := v] else rows[0]]
            + Overwritten(cmp, names, rows[1..], cond, col, v)
  {
  }

  // ---- Rows ------------------------------------------------------------------------------

  lemma {:induction false} IndexUnique(names: seq<string>, i: nat)
    requires Distinct(names) && i < |names|
    ensures IndexOf(names, names[i]) == i
  {
  }

  lemma {:induction false} ProjectAllColumns(names: seq<string>, rows: seq<Row>)
    requires Distinct(names) && Shaped(|names|, rows)
    ensures ProjectAll(names, rows, names) == rows
  {
    forall i | 0 <= i < |rows| ensures Project(names, rows[i], names) == rows[i] {
      forall j | 0 <= j < |names| ensures Project(names, rows[i], names)[j] == rows[i][j] { IndexUnique(names, j); }
    }
  }

  lemma {:induction false} ProjectOneColumn(names: seq<string>, rows: seq<Row>, col: string)
    requires col in names && Shaped(|names|, rows)
    ensures ProjectAll(names, rows, [col]) == OneColumn(rows, IndexOf(names, col))
  {
    forall i | 0 <= i < |rows| ensures Project(names, rows[i], [col]) == [rows[i][IndexOf(names, col)]] {
      assert [col][0] == col;
    }
  }

  lemma {:induction false} NewRowIsBound(names: seq<string>, row: Row)
    requires Distinct(names) && |row| == |names|
    ensures NewRow(names, names, Numbers(0, |names|), row) == row
  {
    hide Numbers;
    forall i | 0 <= i < |names| ensures NewRow(names, names, Numbers(0, |names|), row)[i] == row[i] {
      IndexUnique(names, i);
    }
  }

  /** Setting the columns `sets` one after another makes exactly those columns those of `excluded`. */
  lemma {:induction false} AssignSame(names: seq<string>, row: Row, excluded: Row, sets: seq<string>)
    requires Distinct(names) && |row| == |names| == |excluded| && forall i :: 0 <= i < |sets| ==> sets[i] in names
    ensures var r := Assign(names, row, excluded, SameSets(sets));
            forall i :: 0 <= i < |names| ==> r[i] == if names[i] in sets then excluded[i] else row[i]
    decreases |sets|
  {
    if sets != [] {
      var k := IndexOf(names, sets[0]);
      var next := row[k := excluded[k]];
      AssignSame(names, next, excluded, sets[1..]);
      assert SameSets(sets)[1..] == SameSets(sets[1..]);
      hide SameSets, IndexOf;
      var r := Assign(names, row, excluded, SameSets(sets));
      assert r == Assign(names, next, excluded, SameSets(sets[1..]));
      hide Assign;
      forall i | 0 <= i < |names| ensures r[i] == if names[i] in sets then excluded[i] else row[i] {
        assert names[i] in sets <==> names[i] == sets[0] || names[i] in sets[1..];
        assert names[i] == sets[0] <==> i == k;
      }
    }
  }

  /** On the row that has its key, an upsert's SET list writes the whole new row. */
  lemma {:induction false} AssignWhole(s: Schema, row: Row, excluded: Row)
    requires HasKey(s) && Distinct(Names(s)) && |row| == |s.cols| == |excluded| && row[s.pkIndex] == excluded[s.pkIndex]
    ensures SetsOk(Names(s), SameSets(NonKey(s)))
    ensures Assign(Names(s), row, excluded, SameSets(NonKey(s))) == excluded
  {
    hide SameSets, Assign;
    var names, sets := Names(s), NonKey(s);
    forall i | 0 <= i < |sets| ensures sets[i] in names {
      assert sets[i] == names[if i < s.pkIndex then i else i + 1];
    }
    AssignSame(names, row, excluded, sets);
    forall i | 0 <= i < |names| && i != s.pkIndex ensures names[i] in sets {
      assert sets[if i < s.pkIndex then i else i - 1] == names[i];
    }
  }

  // ---- Statements ------------------------------------------------------------------------

  /** An answer about one table as an outcome for the whole database. */
  ghost function Lift(tables: Tables, name: string, a: Answer): Outcome
    requires name in tables
  {
    if a.Refused? then Failed
    else Done(tables[name := tables[name].(rows := a.rows)], a.result, a.changes)
  }

  /** Rows that stay as they are leave the database as it is. */
  lemma {:induction false} LiftSame(tables: Tables, name: string, result: seq<Row>)
    requires name in tables
    ensures Lift(tables, name, Answered(tables[name].rows, result, 0)) == Done(tables, result, 0)
  {
  }

  ghost predicate Served(tables: Tables, s: Schema) {
    TablesOk(tables) && s.name in tables && Fits(s, tables[s.name])
  }

  lemma {:induction false} ReadMeans(cmp: Comparator, tables: Tables, s: Schema, q: Query, row: Row, v: Value)
    requires Served(tables, s) && KnownQuery(s, q) && Printable(s, q) && |row| == |s.cols|
    requires q.SelectRows? || q.CountRows? || q.SelectField?
    ensures Execute(cmp, tables, QueryStmt(s, q), QueryBinds(q, row, v)) ==
            Lift(tables, s.name, Meaning(cmp, s, tables[s.name], q, row, v))
  {
    var t, names, binds := tables[s.name], Names(s), QueryBinds(q, row, v);
    MaskMeans(cmp, names, t.rows, binds, 0, q.cond);
    KeepMeans(cmp, names, t.rows, q.cond, Mask(cmp, names, t.rows, binds, FilterOf(0, q.cond)));
    hide Matching, Others, Keep, FilterOf, FilterOk, Known, Distinct;
    var kept := Matching(cmp, names, t.rows, q.cond);
    LiftSame(tables, s.name, Meaning(cmp, s, t, q, row, v).result);
    if q.SelectRows? {
      ProjectAllColumns(names, kept);
    } else if q.SelectField? {
      ProjectOneColumn(names, kept, q.col);
    }
  }

  lemma {:induction false} DeleteMeans(cmp: Comparator, tables: Tables, s: Schema, cond: Option<Condition>, row: Row,
      v: Value)
    requires Served(tables, s) && Ready(Names(s), WhereLeaves(cond), 0, cond) && |row| == |s.cols|
    ensures Execute(cmp, tables, QueryStmt(s, DeleteRows(cond)), WhereLeaves(cond)) ==
            Lift(tables, s.name, Meaning(cmp, s, tables[s.name], DeleteRows(cond), row, v))
  {
    var t, names, binds := tables[s.name], Names(s), WhereLeaves(cond);
    MaskMeans(cmp, names, t.rows, binds, 0, cond);
    KeepMeans(cmp, names, t.rows, cond, Mask(cmp, names, t.rows, binds, FilterOf(0, cond)));
  }

  lemma {:induction false} UpdateMeans(cmp: Comparator, tables: Tables, s: Schema, col: string, cond: Option<Condition>,
      row: Row, v: Value)
    requires Served(tables, s) && NoNestedAll(cond) && Known(Names(s), cond) && col in Names(s) && |row| == |s.cols|
    ensures Execute(cmp, tables, QueryStmt(s, UpdateField(col, cond)), [v] + WhereLeaves(cond)) ==
            Lift(tables, s.name, Meaning(cmp, s, tables[s.name], UpdateField(col, cond), row, v))
  {
    var t, names, binds := tables[s.name], Names(s), [v] + WhereLeaves(cond);
    assert BoundAt(binds, 1, WhereLeaves(cond));
    MaskMeans(cmp, names, t.rows, binds, 1, cond);
    var mask := Mask(cmp, names, t.rows, binds, FilterOf(1, cond));
    KeepMeans(cmp, names, t.rows, cond, mask);
    SetMeans(cmp, names, t.rows, cond, mask, IndexOf(names, col), v);
  }

  lemma {:induction false} InsertMeans(cmp: Comparator, tables: Tables, s: Schema, row: Row, v: Value)
    requires Served(tables, s) && |row| == |s.cols|
    ensures Execute(cmp, tables, QueryStmt(s, InsertRow), row) ==
            Lift(tables, s.name, Meaning(cmp, s, tables[s.name], InsertRow, row, v))
  {
    hide Numbers, NewRow, Distinct, Admissible;
    NewRowIsBound(Names(s), row);
  }

  /** A conflicting row is replaced whole, and without one the new row is appended. */
  lemma {:induction false} ConflictMeans(tables: Tables, s: Schema, t: Table, row: Row)
    requires Fits(s, t) && HasKey(s) && |row| == |s.cols|
    ensures ExecuteInsert(tables, s.name, t, row, Some(Conflict(KeyName(s), SameSets(NonKey(s))))) ==
            Store(tables, s.name, t, Upserted(t.rows, s.pkIndex, row), 1)
  {
    hide Distinct, Assign, SameSets, Upserted, FindConflict, Store, NonKey;
    var names, k := Names(s), s.pkIndex;
    IndexUnique(names, k);
    hide IndexOf;
    UpsertRows(t.rows, k, row);
    var j := FindConflict(t.rows, k, row[k]);
    AssignWhole(s, row, row);
    if j >= 0 {
      AssignWhole(s, t.rows[j], row);
    }
  }

  lemma {:induction false} UpsertMeans(cmp: Comparator, tables: Tables, s: Schema, row: Row, v: Value)
    requires Served(tables, s) && HasKey(s) && |s.cols| >= 2 && |row| == |s.cols|
    ensures Execute(cmp, tables, QueryStmt(s, UpsertRow), row) ==
            Lift(tables, s.name, Meaning(cmp, s, tables[s.name], UpsertRow, row, v))
  {
    hide Numbers, NewRow, Distinct, Admissible, SameSets, NonKey, ExecuteInsert, Upserted;
    NewRowIsBound(Names(s), row);
    ConflictMeans(tables, s, tables[s.name], row);
  }

  /**
   * The main theorem: on every database that holds the schema's table, for every query whose
   * columns are the schema's, running the printed text with the bound values does exactly what
   * the query means. Queries that do not print a statement are refused and change nothing.
   */
  lemma {:induction false} QueryMeans(d: Dialect, cmp: Comparator, tables: Tables, s: Schema, q: Query, row: Row,
      v: Value)
    requires Served(tables, s) && KnownQuery(s, q) && PlainQuery(s, q) && |row| == |s.cols|
    ensures ExecuteText(cmp, tables, QueryText(d, s, q), QueryBinds(q, row, v)) ==
            if Printable(s, q) then Lift(tables, s.name, Meaning(cmp, s, tables[s.name], q, row, v)) else Failed
  {
    QueryRoundTrip(d, s, q);
    if Printable(s, q) {
      MeansStmt(cmp, tables, s, q, row, v);
    }
  }

  lemma {:induction false} MeansStmt(cmp: Comparator, tables: Tables, s: Schema, q: Query, row: Row, v: Value)
    requires Served(tables, s) && KnownQuery(s, q) && Printable(s, q) && |row| == |s.cols|
    ensures Execute(cmp, tables, QueryStmt(s, q), QueryBinds(q, row, v)) ==
            Lift(tables, s.name, Meaning(cmp, s, tables[s.name], q, row, v))
  {
    hide Execute, Meaning, Lift, QueryStmt, Fits;
    match q
    case InsertRow => InsertMeans(cmp, tables, s, row, v);
    case UpsertRow => UpsertMeans(cmp, tables, s, row, v);
    case DeleteRows(cond) => DeleteMeans(cmp, tables, s, cond, row, v);
    case UpdateField(col, cond) => UpdateMeans(cmp, tables, s, col, cond, row, v);
    case _ => ReadMeans(cmp, tables, s, q, row, v);
  }
}
