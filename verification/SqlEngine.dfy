/** A reference database: tables, three-valued WHERE clauses and the effect of each statement. */
module SqlEngine {
  import opened Core
  import opened Conditions
  import opened SqlGrammar
  import opened SqlStatements

  // ---- Tables ----------------------------------------------------------------------------

  datatype TableColumn = TableColumn(name: string, cls: SqlType, notNull: bool, primaryKey: bool, unique: bool)

  datatype Table = Table(cols: seq<TableColumn>, rows: seq<Row>)

  type Tables = map<string, Table>

  function ColumnNames(t: Table): (names: seq<string>)
    ensures |names| == |t.cols| && forall i :: 0 <= i < |names| ==> names[i] == t.cols[i].name
  {
    seq(|t.cols|, i requires 0 <= i < |t.cols| => t.cols[i].name)
  }

  predicate Shaped(n: nat, rows: seq<Row>) {
    forall i :: 0 <= i < |rows| ==> |rows[i]| == n
  }

  ghost predicate TablesOk(tables: Tables) {
    forall name :: name in tables ==> Shaped(|tables[name].cols|, tables[name].rows)
  }

  /** NOT NULL columns hold values, and key and UNIQUE columns hold each value once. */
  predicate Admissible(cols: seq<TableColumn>, rows: seq<Row>)
    requires Shaped(|cols|, rows)
  {
    && (forall i, j :: 0 <= i < |cols| && 0 <= j < |rows| && cols[i].notNull ==> rows[j][i] != NullValue)
    && (forall i, j, k :: 0 <= i < |cols| && 0 <= j < k < |rows| && (cols[i].primaryKey || cols[i].unique) ==>
          rows[j][i] == NullValue || rows[j][i] != rows[k][i])
  }

  // ---- Three-valued logic ----------------------------------------------------------------

  datatype Truth = True | False | Unknown

  function And3(a: Truth, b: Truth): Truth {
    if a.False? || b.False? then False else if a.True? && b.True? then True else Unknown
  }

  function Or3(a: Truth, b: Truth): Truth {
    if a.True? || b.True? then True else if a.False? && b.False? then False else Unknown
  }

  /** Every column is one of `names` and every placeholder one of the first `n`. */
  predicate ExprOk(e: Expr, names: seq<string>, n: nat) {
    match e
    case Cmp(col, _, param) => col in names && 1 <= param <= n
    case Conj(l, r) => ExprOk(l, names, n) && ExprOk(r, names, n)
    case Disj(l, r) => ExprOk(l, names, n) && ExprOk(r, names, n)
  }

  function Eval(cmp: Comparator, names: seq<string>, row: Row, binds: seq<Value>, e: Expr): Truth
    requires |row| == |names| && ExprOk(e, names, |binds|)
  {
    match e
    case Cmp(col, op, param) =>
      var x, v := row[IndexOf(names, col)], binds[param - 1];
      if x == NullValue || v == NullValue then Unknown else if cmp(x, op, v) then True else False
    case Conj(l, r) => And3(Eval(cmp, names, row, binds, l), Eval(cmp, names, row, binds, r))
    case Disj(l, r) => Or3(Eval(cmp, names, row, binds, l), Eval(cmp, names, row, binds, r))
  }

  predicate FilterOk(filter: Option<Expr>, names: seq<string>, n: nat) {
    filter.None? || ExprOk(filter.value, names, n)
  }

  /** A WHERE clause keeps the rows on which it is true, not those on which it is unknown. */
  predicate Keeps(cmp: Comparator, names: seq<string>, row: Row, binds: seq<Value>, filter: Option<Expr>)
    requires |row| == |names| && FilterOk(filter, names, |binds|)
  {
    filter.None? || Eval(cmp, names, row, binds, filter.value) == True
  }

  // ---- Rows ------------------------------------------------------------------------------

  function Keep(rows: seq<Row>, mask: seq<bool>): (r: seq<Row>)
    requires |mask| == |rows|
    ensures forall i :: 0 <= i < |r| ==> r[i] in rows
  {
    if rows == [] then []
    else (if mask[0] then [rows[0]] else []) + Keep(rows[1..], mask[1..])
  }

  function Mask(cmp: Comparator, names: seq<string>, rows: seq<Row>, binds: seq<Value>,
      filter: Option<Expr>): (m: seq<bool>)
    requires Shaped(|names|, rows) && FilterOk(filter, names, |binds|)
    ensures |m| == |rows|
    ensures forall i :: 0 <= i < |m| ==> m[i] == Keeps(cmp, names, rows[i], binds, filter)
  {
    seq(|rows|, i requires 0 <= i < |rows| => Keeps(cmp, names, rows[i], binds, filter))
  }

  function Not(mask: seq<bool>): (m: seq<bool>)
    ensures |m| == |mask| && forall i :: 0 <= i < |m| ==> m[i] == !mask[i]
  {
    seq(|mask|, i requires 0 <= i < |mask| => !mask[i])
  }

  function SetWhere(rows: seq<Row>, mask: seq<bool>, col: nat, v: Value): (r: seq<Row>)
    requires |mask| == |rows| && forall i :: 0 <= i < |rows| ==> col < |rows[i]|
    ensures |r| == |rows|
    ensures forall i :: 0 <= i < |r| ==> r[i] == if mask[i] then rows[i][col := v] else rows[i]
  {
    seq(|rows|, i requires 0 <= i < |rows| => if mask[i] then rows[i][col := v] else rows[i])
  }

  function Project(names: seq<string>, row: Row, wanted: seq<string>): (r: Row)
    requires |row| == |names| && forall i :: 0 <= i < |wanted| ==> wanted[i] in names
    ensures |r| == |wanted| && forall i :: 0 <= i < |r| ==> r[i] == row[IndexOf(names, wanted[i])]
  {
    seq(|wanted|, i requires 0 <= i < |wanted| => row[IndexOf(names, wanted[i])])
  }

  function ProjectAll(names: seq<string>, rows: seq<Row>, wanted: seq<string>): (r: seq<Row>)
    requires Shaped(|names|, rows) && forall i :: 0 <= i < |wanted| ==> wanted[i] in names
    ensures |r| == |rows| && forall i :: 0 <= i < |r| ==> r[i] == Project(names, rows[i], wanted)
  {
    seq(|rows|, i requires 0 <= i < |rows| => Project(names, rows[i], wanted))
  }

  /** The row of an INSERT: named columns take their placeholder's value, the others NULL. */
  function NewRow(names: seq<string>, given: seq<string>, params: seq<nat>, binds: seq<Value>): (r: Row)
    requires |given| == |params| && forall i :: 0 <= i < |params| ==> 1 <= params[i] <= |binds|
    ensures |r| == |names|
    ensures forall i :: 0 <= i < |r| ==>
              r[i] == if names[i] in given then binds[params[IndexOf(given, names[i])] - 1] else NullValue
  {
    seq(|names|, i requires 0 <= i < |names| =>
      if names[i] in given then binds[params[IndexOf(given, names[i])] - 1] else NullValue)
  }

  predicate SetsOk(names: seq<string>, sets: seq<Assignment>) {
    forall i :: 0 <= i < |sets| ==> sets[i].target in names && sets[i].source in names
  }

  /** DO UPDATE SET: assignments from the excluded row, left to right. */
  function Assign(names: seq<string>, row: Row, excluded: Row, sets: seq<Assignment>): (r: Row)
    requires |row| == |names| == |excluded| && SetsOk(names, sets)
    ensures |r| == |names|
    decreases |sets|
  {
    if sets == [] then row
    else
      var i, j := IndexOf(names, sets[0].target), IndexOf(names, sets[0].source);
      Assign(names, row[i := excluded[j]], excluded, sets[1..])
  }

  /** The first row with value `v` in column `col`; NULL conflicts with nothing. */
  function FindConflict(rows: seq<Row>, col: nat, v: Value): (j: int)
    requires forall i :: 0 <= i < |rows| ==> col < |rows[i]|
    ensures -1 <= j < |rows|
    ensures j >= 0 ==> v != NullValue && rows[j][col] == v
    ensures j < 0 ==> v == NullValue || forall i :: 0 <= i < |rows| ==> rows[i][col] != v
  {
    if rows == [] || v == NullValue then -1
    else if rows[0][col] == v then 0
    else
      var j := FindConflict(rows[1..], col, v);
      assert forall i :: 1 <= i < |rows| ==> rows[i] == rows[1..][i - 1];
      if j < 0 then -1 else j + 1
  }

  // ---- Statements ------------------------------------------------------------------------

  /** What running a statement yields: an error, or the new tables, its result rows and a row count. */
  datatype Outcome = Failed | Done(tables: Tables, rows: seq<Row>, changes: nat)

  function Store(tables: Tables, name: string, t: Table, rows: seq<Row>, changes: nat): Outcome
    requires Shaped(|t.cols|, rows)
  {
    if Admissible(t.cols, rows) then Done(tables[name := t.(rows := rows)], [], changes) else Failed
  }

  function ExecuteInsert(tables: Tables, name: string, t: Table, row: Row, conflict: Option<Conflict>): Outcome
    requires Shaped(|t.cols|, t.rows) && |row| == |t.cols|
  {
    var names := ColumnNames(t);
    if conflict.None? then Store(tables, name, t, t.rows + [row], 1)
    else if conflict.value.key !in names || !SetsOk(names, conflict.value.sets) then Failed
    else
      var k := IndexOf(names, conflict.value.key);
      if !t.cols[k].primaryKey && !t.cols[k].unique then Failed
      else
        var j := FindConflict(t.rows, k, row[k]);
        if j < 0 then Store(tables, name, t, t.rows + [row], 1)
        else Store(tables, name, t, t.rows[j := Assign(names, t.rows[j], row, conflict.value.sets)], 1)
  }

  function Execute(cmp: Comparator, tables: Tables, stmt: Stmt, binds: seq<Value>): Outcome
    requires TablesOk(tables)
  {
    if stmt.table !in tables then Failed
    else
      var t := tables[stmt.table];
      var names := ColumnNames(t);
      match stmt
      case Insert(name, given, params, conflict) =>
        if |given| != |params| || (exists i :: 0 <= i < |given| && given[i] !in names)
           || (exists i :: 0 <= i < |params| && !(1 <= params[i] <= |binds|)) then Failed
        else ExecuteInsert(tables, name, t, NewRow(names, given, params, binds), conflict)
      case Select(wanted, _, filter) =>
        if (exists i :: 0 <= i < |wanted| && wanted[i] !in names) || !FilterOk(filter, names, |binds|) then Failed
        else
          var kept := Keep(t.rows, Mask(cmp, names, t.rows, binds, filter));
          Done(tables, ProjectAll(names, kept, wanted), 0)
      case Count(_, filter) =>
        if !FilterOk(filter, names, |binds|) then Failed
        else Done(tables, [[IntValue(|Keep(t.rows, Mask(cmp, names, t.rows, binds, filter))|)]], 0)
      case Delete(name, filter) =>
        if !FilterOk(filter, names, |binds|) then Failed
        else
          var mask := Mask(cmp, names, t.rows, binds, filter);
          Done(tables[name := t.(rows := Keep(t.rows, Not(mask)))], [], |Keep(t.rows, mask)|)
      case Update(name, col, param, filter) =>
        if col !in names || !(1 <= param <= |binds|) || !FilterOk(filter, names, |binds|) then Failed
        else
          var mask := Mask(cmp, names, t.rows, binds, filter);
          Store(tables, name, t, SetWhere(t.rows, mask, IndexOf(names, col), binds[param - 1]), |Keep(t.rows, mask)|)
  }

  /** Running SQL text with bound values; text that does not parse is refused. */
  function ExecuteText(cmp: Comparator, tables: Tables, sql: string, binds: seq<Value>): Outcome
    requires TablesOk(tables)
  {
    var stmt := ParseText(sql);
    if stmt.None? then Failed else Execute(cmp, tables, stmt.value, binds)
  }

  /** The same tables with the same columns. */
  ghost predicate SameLayout(a: Tables, b: Tables) {
    a.Keys == b.Keys && forall name :: name in a ==> b[name].cols == a[name].cols
  }

  /** Statements change rows only, and keep them in shape. */
  lemma {:induction false} ExecuteKeepsShape(cmp: Comparator, tables: Tables, sql: string, binds: seq<Value>)
    requires TablesOk(tables)
    ensures var o := ExecuteText(cmp, tables, sql, binds);
            o.Done? ==> TablesOk(o.tables) && SameLayout(tables, o.tables)
  {
    hide ParseText, Execute;
    if ParseText(sql).Some? {
      ExecuteStmtKeeps(cmp, tables, ParseText(sql).value, binds);
    }
  }

  /** Storing well-shaped rows keeps the tables in shape. */
  lemma {:induction false} StoreKeeps(tables: Tables, name: string, t: Table, rows: seq<Row>, changes: nat)
    requires TablesOk(tables) && name in tables && t == tables[name] && Shaped(|t.cols|, rows)
    ensures var o := Store(tables, name, t, rows, changes);
            o.Done? ==> TablesOk(o.tables) && SameLayout(tables, o.tables)
  {
    hide Admissible;
  }

  lemma {:induction false} InsertKeeps(tables: Tables, name: string, t: Table, row: Row, conflict: Option<Conflict>)
    requires TablesOk(tables) && name in tables && t == tables[name] && Shaped(|t.cols|, t.rows) && |row| == |t.cols|
    ensures var o := ExecuteInsert(tables, name, t, row, conflict);
            o.Done? ==> TablesOk(o.tables) && SameLayout(tables, o.tables)
  {
    hide Store, TablesOk;
    StoreKeeps(tables, name, t, t.rows + [row], 1);
    var names := ColumnNames(t);
    if conflict.Some? && conflict.value.key in names && SetsOk(names, conflict.value.sets) {
      var k := IndexOf(names, conflict.value.key);
      var j := FindConflict(t.rows, k, row[k]);
      if j >= 0 {
        StoreKeeps(tables, name, t, t.rows[j := Assign(names, t.rows[j], row, conflict.value.sets)], 1);
      }
    }
  }

  lemma {:induction false} ExecuteStmtKeeps(cmp: Comparator, tables: Tables, stmt: Stmt, binds: seq<Value>)
    requires TablesOk(tables)
    ensures var o := Execute(cmp, tables, stmt, binds);
            o.Done? ==> TablesOk(o.tables) && SameLayout(tables, o.tables)
  {
    hide Store, ExecuteInsert, Keep, Mask, FilterOk;
    if stmt.table in tables {
      var t := tables[stmt.table];
      var names := ColumnNames(t);
      match stmt
      case Insert(name, given, params, conflict) =>
        if |given| == |params| && forall i :: 0 <= i < |params| ==> 1 <= params[i] <= |binds| {
          InsertKeeps(tables, name, t, NewRow(names, given, params, binds), conflict);
        }
      case Update(name, col, param, filter) =>
        if FilterOk(filter, names, |binds|) && col in names && 1 <= param <= |binds| {
          var mask := Mask(cmp, names, t.rows, binds, filter);
          StoreKeeps(tables, name, t, SetWhere(t.rows, mask, IndexOf(names, col), binds[param - 1]),
              |Keep(t.rows, mask)|);
        }
      case _ =>
    }
  }

  /** Queries change no table. */
  lemma {:induction false} SelectLeaves(cmp: Comparator, tables: Tables, stmt: Stmt, binds: seq<Value>)
    requires TablesOk(tables) && stmt.Select?
    ensures var o := Execute(cmp, tables, stmt, binds);
            o.Done? ==> o.tables == tables && Shaped(|stmt.names|, o.rows)
  {
    hide Keep, Mask, FilterOk;
  }

  lemma {:induction false} CountLeaves(cmp: Comparator, tables: Tables, stmt: Stmt, binds: seq<Value>)
    requires TablesOk(tables) && stmt.Count?
    ensures var o := Execute(cmp, tables, stmt, binds);
            o.Done? ==> o.tables == tables && exists n: nat :: o.rows == [[IntValue(n)]]
  {
    hide Keep, Mask, FilterOk;
  }
}
