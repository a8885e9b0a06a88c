/** What each query does to a table, in plain two-valued terms and without any SQL. */
module TableSpec {
  import opened Core
  import opened Conditions
  import opened Queries
  import opened SqlEngine

  /** Every column a condition mentions is one of `names`. */
  predicate Known(names: seq<string>, cond: Option<Condition>) {
    NeedsWhere(cond) ==> ColumnsIn(cond.value, names)
  }

  /** The rows a condition selects, in table order. */
  function Matching(cmp: Comparator, names: seq<string>, rows: seq<Row>, cond: Option<Condition>): (r: seq<Row>)
    requires Shaped(|names|, rows) && Known(names, cond)
    ensures forall i :: 0 <= i < |r| ==> r[i] in rows
  {
    if rows == [] then []
    else (if Selected(cmp, names, rows[0], cond) then [rows[0]] else []) + Matching(cmp, names, rows[1..], cond)
  }

  /** The rows it leaves out. */
  function Others(cmp: Comparator, names: seq<string>, rows: seq<Row>, cond: Option<Condition>): (r: seq<Row>)
    requires Shaped(|names|, rows) && Known(names, cond)
    ensures forall i :: 0 <= i < |r| ==> r[i] in rows
  {
    if rows == [] then []
    else (if Selected(cmp, names, rows[0], cond) then [] else [rows[0]]) + Others(cmp, names, rows[1..], cond)
  }

  /** The table with `v` in column `col` of every selected row. */
  function Overwritten(cmp: Comparator, names: seq<string>, rows: seq<Row>, cond: Option<Condition>, col: nat,
      v: Value): (r: seq<Row>)
    requires Shaped(|names|, rows) && Known(names, cond) && col < |names|
    ensures |r| == |rows| && Shaped(|names|, r)
  {
    if rows == [] then []
    else [if Selected(cmp, names, rows[0], cond) then rows[0][col := v] else rows[0]]
         + Overwritten(cmp, names, rows[1..], cond, col, v)
  }

  /** The table with `row` in place of the row that has its key, or at the end when there is none. */
  function Upserted(rows: seq<Row>, key: nat, row: Row): (r: seq<Row>)
    requires key < |row| && Shaped(|row|, rows)
    ensures Shaped(|row|, r)
  {
    if rows == [] then [row]
    else if row[key] != NullValue && rows[0][key] == row[key] then [row] + rows[1..]
    else [rows[0]] + Upserted(rows[1..], key, row)
  }

  function OneColumn(rows: seq<Row>, col: nat): (r: seq<Row>)
    requires forall i :: 0 <= i < |rows| ==> col < |rows[i]|
    ensures |r| == |rows| && forall i :: 0 <= i < |r| ==> r[i] == [rows[i][col]]
  {
    seq(|rows|, i requires 0 <= i < |rows| => [rows[i][col]])
  }

  /** What a query answers: the new rows of the table, the result rows and the number of rows affected. */
  datatype Answer = Refused | Answered(rows: seq<Row>, result: seq<Row>, changes: nat)

  ghost function Checked(cols: seq<TableColumn>, rows: seq<Row>, changes: nat): Answer
    requires Shaped(|cols|, rows)
  {
    if Admissible(cols, rows) then Answered(rows, [], changes) else Refused
  }

  /** The table a schema is registered for: its columns, and a key the backend enforces. */
  ghost predicate Fits(s: Schema, t: Table) {
    && ColumnNames(t) == Names(s) && Distinct(Names(s)) && s.cols != []
    && Shaped(|t.cols|, t.rows)
    && (HasKey(s) ==> t.cols[s.pkIndex].primaryKey || t.cols[s.pkIndex].unique)
  }

  ghost predicate KnownQuery(s: Schema, q: Query) {
    && (q.UpsertRow? ==> HasKey(s))
    && (q.UpdateField? || q.SelectField? ==> q.col in Names(s))
    && Known(Names(s), QueryCond(q))
  }

  /** The meaning of a query on a table; `row` is the row written, `v` the field written. */
  ghost function Meaning(cmp: Comparator, s: Schema, t: Table, q: Query, row: Row, v: Value): Answer
    requires Fits(s, t) && KnownQuery(s, q) && |row| == |s.cols|
  {
    var names := Names(s);
    match q
    case InsertRow => Checked(t.cols, t.rows + [row], 1)
    case UpsertRow => Checked(t.cols, Upserted(t.rows, s.pkIndex, row), 1)
    case SelectRows(cond) => Answered(t.rows, Matching(cmp, names, t.rows, cond), 0)
    case CountRows(cond) => Answered(t.rows, [[IntValue(|Matching(cmp, names, t.rows, cond)|)]], 0)
    case DeleteRows(cond) => Answered(Others(cmp, names, t.rows, cond), [], |Matching(cmp, names, t.rows, cond)|)
    case UpdateField(col, cond) =>
      Checked(t.cols, Overwritten(cmp, names, t.rows, cond, IndexOf(names, col), v),
          |Matching(cmp, names, t.rows, cond)|)
    case SelectField(col, cond) =>
      Answered(t.rows, OneColumn(Matching(cmp, names, t.rows, cond), IndexOf(names, col)), 0)
  }

  /** The values a query binds, in placeholder order. */
  function QueryBinds(q: Query, row: Row, v: Value): seq<Value> {
    match q
    case InsertRow => row
    case UpsertRow => row
    case UpdateField(_, cond) => [v] + WhereLeaves(cond)
    case _ => WhereLeaves(QueryCond(q))
  }

  lemma {:induction false} BindsCount(s: Schema, q: Query, row: Row, v: Value)
    requires |row| == |s.cols|
    ensures |QueryBinds(q, row, v)| == QueryValues(s, q)
  {
  }

  // ---- Laws of the table operations ------------------------------------------------------

  /** Deleting splits the table: what matched and what is left make up the rows there were. */
  lemma {:induction false} DeleteSplits(cmp: Comparator, names: seq<string>, rows: seq<Row>, cond: Option<Condition>)
    requires Shaped(|names|, rows) && Known(names, cond)
    ensures multiset(rows) == multiset(Matching(cmp, names, rows, cond)) + multiset(Others(cmp, names, rows, cond))
    ensures |rows| == |Matching(cmp, names, rows, cond)| + |Others(cmp, names, rows, cond)|
  {
    if rows != [] {
      DeleteSplits(cmp, names, rows[1..], cond);
      SplitFirst(cmp, names, rows, cond);
      var m, o := Matching(cmp, names, rows[1..], cond), Others(cmp, names, rows[1..], cond);
      hide *;
      ConsSplits(rows[0], rows[1..], m, o);
      assert rows == [rows[0]] + rows[1..];
    }
  }

  lemma {:induction false} ConsSplits(x: Row, a: seq<Row>, m: seq<Row>, o: seq<Row>)
    requires multiset(a) == multiset(m) + multiset(o)
    ensures multiset([x] + a) == multiset([x] + m) + multiset(o) == multiset(m) + multiset([x] + o)
  {
    assert multiset([x] + a) == multiset([x]) + multiset(a);
  }

  lemma {:induction false} SplitFirst(cmp: Comparator, names: seq<string>, rows: seq<Row>, cond: Option<Condition>)
    requires rows != [] && Shaped(|names|, rows) && Known(names, cond)
    ensures var m, o := Matching(cmp, names, rows[1..], cond), Others(cmp, names, rows[1..], cond);
            || (Matching(cmp, names, rows, cond) == [rows[0]] + m && Others(cmp, names, rows, cond) == o)
            || (Matching(cmp, names, rows, cond) == m && Others(cmp, names, rows, cond) == [rows[0]] + o)
  {
    hide Selected;
  }

  /** After a delete nothing matches any more. */
  lemma {:induction false} DeleteEmpties(cmp: Comparator, names: seq<string>, rows: seq<Row>, cond: Option<Condition>)
    requires Shaped(|names|, rows) && Known(names, cond)
    ensures Matching(cmp, names, Others(cmp, names, rows, cond), cond) == []
  {
    if rows != [] {
      hide Selected;
      var rest := Others(cmp, names, rows[1..], cond);
      DeleteEmpties(cmp, names, rows[1..], cond);
      if !Selected(cmp, names, rows[0], cond) {
        assert ([rows[0]] + rest)[1..] == rest;
      } else {
        assert [] + rest == rest;
      }
    }
  }

  /** An upsert changes the row with that key and no other, and afterwards the key is there. */
  lemma {:induction false} UpsertRows(rows: seq<Row>, key: nat, row: Row)
    requires key < |row| && Shaped(|row|, rows)
    ensures var j := FindConflict(rows, key, row[key]);
            Upserted(rows, key, row) == if j < 0 then rows + [row] else rows[j := row]
  {
    if rows != [] && row[key] != NullValue && rows[0][key] == row[key] {
      assert [row] + rows[1..] == rows[0 := row];
    } else if rows != [] {
      UpsertRows(rows[1..], key, row);
      var j := FindConflict(rows[1..], key, row[key]);
      assert FindConflict(rows, key, row[key]) == if j < 0 then -1 else j + 1;
      if j < 0 {
        assert [rows[0]] + (rows[1..] + [row]) == rows + [row];
      } else {
        assert [rows[0]] + rows[1..][j := row] == rows[j + 1 := row];
      }
    }
  }

  /** A second upsert of the same row changes nothing, and one of another row with the key replaces it. */
  lemma {:induction false} UpsertAgain(rows: seq<Row>, key: nat, a: Row, b: Row)
    requires key < |a| == |b| && Shaped(|a|, rows) && a[key] == b[key] != NullValue
    ensures Upserted(Upserted(rows, key, a), key, b) == Upserted(rows, key, b)
  {
    if rows == [] {
    } else if rows[0][key] == a[key] {
      assert ([a] + rows[1..])[1..] == rows[1..];
    } else {
      var rest := Upserted(rows[1..], key, a);
      UpsertAgain(rows[1..], key, a, b);
      assert ([rows[0]] + rest)[1..] == rest;
    }
  }
}
