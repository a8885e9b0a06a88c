/**
 * The driver: tables, a stack of named snapshots, and prepared statements with their text, bound
 * values and cursor. A call that fails changes nothing.
 */
module Driving {
  import opened Core
  import opened LruSpec
  import opened Conditions
  import opened SqlStatements
  import opened SqlEngine
  import opened PgParams

  /** The rows a statement returned and how many of them have been left behind. */
  datatype Cursor = Cursor(rows: seq<Row>, pos: nat)

  datatype StmtState = StmtState(sql: string, binds: seq<Value>, cursor: Option<Cursor>)

  /** A transaction or savepoint with the tables as they were when it began. */
  datatype Frame = Frame(name: string, saved: Tables)

  /** The name of the frame that BEGIN opens; savepoints never have it. */
  const BEGIN_FRAME: string := ""

  /** What binding to a placeholder that does not exist reports. */
  function BadIndex(d: Dialect): Status { if d.Postgres? then InvalidArg else DriverError }

  /** The innermost savepoint called `name`, or 0 when there is none. */
  function InnermostNamed(frames: seq<Frame>, name: string): (j: nat)
    ensures j == 0 || (0 < j < |frames| && frames[j].name == name)
    ensures forall i :: j < i < |frames| && i > 0 ==> frames[i].name != name
  {
    if |frames| <= 1 then 0
    else if frames[|frames| - 1].name == name then |frames| - 1
    else InnermostNamed(frames[..|frames| - 1], name)
  }

  class Driver {
    const dialect: Dialect
    const cmp: Comparator
    var tables: Tables
    var frames: seq<Frame>
    var changes: nat
    var stmts: map<StmtId, StmtState>
    var nextId: StmtId
    var finalized: seq<StmtId>

    ghost predicate Valid()
      reads this
    {
      && TablesOk(tables)
      && (forall i :: 0 <= i < |frames| ==> TablesOk(frames[i].saved))
      && (forall id :: id in stmts ==> id < nextId)
    }

    constructor (dialect: Dialect, cmp: Comparator, tables: Tables)
      requires TablesOk(tables)
      ensures Valid() && this.dialect == dialect && this.cmp == cmp && this.tables == tables
      ensures frames == [] && stmts == map[] && nextId == 0 && finalized == []
    {
      this.dialect, this.cmp, this.tables := dialect, cmp, tables;
      frames, changes, stmts, nextId, finalized := [], 0, map[], 0, [];
    }

    // ---- Statements ----------------------------------------------------------------------

    /** SQLite parses when it prepares; PostgreSQL only stores the text. All values start as NULL. */
    method Prepare(sql: string) returns (status: Status, id: StmtId)
      requires Valid()
      modifies this`stmts, this`nextId
      ensures Valid()
      ensures status == if dialect.Sqlite? && ParseText(sql).None? then DriverError else Ok
      ensures status != Ok ==> stmts == old(stmts) && nextId == old(nextId)
      ensures status == Ok ==> id == old(nextId) && nextId == id + 1
      ensures status == Ok ==>
              stmts == old(stmts)[id := StmtState(sql, seq(ParamCount(dialect, sql), _ => NullValue), None)]
    {
      id := nextId;
      if dialect.Sqlite? && ParseText(sql).None? { return DriverError, id; }
      stmts := stmts[id := StmtState(sql, seq(ParamCount(dialect, sql), _ => NullValue), None)];
      nextId := nextId + 1;
      status := Ok;
    }

    /** Placeholders are numbered from 1; SQLite refuses to bind while a cursor is open. */
    method Bind(id: StmtId, index: nat, v: Value) returns (status: Status)
      requires Valid() && id in stmts
      modifies this`stmts
      ensures Valid()
      ensures var st := old(stmts)[id];
              status == if dialect.Sqlite? && st.cursor.Some? then DriverError
                        else if 1 <= index <= |st.binds| then Ok else BadIndex(dialect)
      ensures var st := old(stmts)[id];
              stmts == if status == Ok then old(stmts)[id := st.(binds := st.binds[index - 1 := v])] else old(stmts)
    {
      var st := stmts[id];
      if dialect.Sqlite? && st.cursor.Some? { return DriverError; }
      if !(1 <= index <= |st.binds|) { return BadIndex(dialect); }
      stmts := stmts[id := st.(binds := st.binds[index - 1 := v])];
      return Ok;
    }

    /**
     * The first step runs the statement, later ones walk its rows. SQLite runs a statement again
     * when it is stepped past its end; PostgreSQL stays there.
     */
    method Step(id: StmtId) returns (status: Status, hasRow: bool)
      requires Valid() && id in stmts
      modifies this`stmts, this`tables, this`changes
      ensures Valid()
      ensures var st := old(stmts)[id];
              var starts := st.cursor.None? || (dialect.Sqlite? && st.cursor.value.pos >= |st.cursor.value.rows|);
              if starts then
                var o := ExecuteText(cmp, old(tables), st.sql, st.binds);
                if o.Failed? then status == DriverError && !hasRow && tables == old(tables) && stmts == old(stmts)
                    && changes == old(changes)
                else status == Ok && hasRow == (o.rows != []) && tables == o.tables && changes == o.changes
                     && stmts == old(stmts)[id := st.(cursor := Some(Cursor(o.rows, 0)))]
              else
                var c := st.cursor.value.(pos := st.cursor.value.pos + 1);
                status == Ok && hasRow == (c.pos < |c.rows|) && tables == old(tables) && changes == old(changes)
                && stmts == old(stmts)[id := st.(cursor := Some(c))]
    {
      var st := stmts[id];
      if st.cursor.None? || (dialect.Sqlite? && st.cursor.value.pos >= |st.cursor.value.rows|) {
        var o := ExecuteText(cmp, tables, st.sql, st.binds);
        if o.Failed? { return DriverError, false; }
        ExecuteKeepsShape(cmp, tables, st.sql, st.binds);
        tables, changes := o.tables, o.changes;
        stmts := stmts[id := st.(cursor := Some(Cursor(o.rows, 0)))];
        return Ok, o.rows != [];
      }
      var c := st.cursor.value.(pos := st.cursor.value.pos + 1);
      stmts := stmts[id := st.(cursor := Some(c))];
      return Ok, c.pos < |c.rows|;
    }

    /** The value in a column of the current row. */
    method ColumnValue(id: StmtId, col: nat) returns (v: Value)
      requires id in stmts && stmts[id].cursor.Some?
      requires var c := stmts[id].cursor.value; c.pos < |c.rows| && col < |c.rows[c.pos]|
      ensures var c := stmts[id].cursor.value; v == c.rows[c.pos][col]
    {
      var c := stmts[id].cursor.value;
      return c.rows[c.pos][col];
    }

    /** Closes the cursor. SQLite keeps the bound values, PostgreSQL forgets them. */
    method Reset(id: StmtId)
      requires Valid() && id in stmts
      modifies this`stmts
      ensures Valid()
      ensures var st := old(stmts)[id];
              var binds := if dialect.Postgres? then seq(|st.binds|, _ => NullValue) else st.binds;
              stmts == old(stmts)[id := st.(binds := binds, cursor := None)]
    {
      var st := stmts[id];
      var binds := if dialect.Postgres? then seq(|st.binds|, _ => NullValue) else st.binds;
      stmts := stmts[id := st.(binds := binds, cursor := None)];
    }

    method Finalize(id: StmtId)
      requires id in stmts
      modifies this`stmts, this`finalized
      ensures stmts == old(stmts) - {id} && finalized == old(finalized) + [id]
    {
      stmts := stmts - {id};
      finalized := finalized + [id];
    }

    // ---- Transactions --------------------------------------------------------------------

    /** `up` says whether the backend carries the request out at all. */
    method Begin(up: bool) returns (status: Status)
      requires Valid()
      modifies this`frames
      ensures Valid() && status == if up && old(frames) == [] then Ok else DriverError
      ensures frames == if status == Ok then [Frame(BEGIN_FRAME, tables)] else old(frames)
    {
      if !up || frames != [] { return DriverError; }
      frames := [Frame(BEGIN_FRAME, tables)];
      return Ok;
    }

    method Commit(up: bool) returns (status: Status)
      requires Valid()
      modifies this`frames
      ensures Valid() && status == if up && old(frames) != [] then Ok else DriverError
      ensures frames == if status == Ok then [] else old(frames)
    {
      if !up || frames == [] { return DriverError; }
      frames := [];
      return Ok;
    }

    method Rollback(up: bool) returns (status: Status)
      requires Valid()
      modifies this`frames, this`tables
      ensures Valid() && status == if up && old(frames) != [] then Ok else DriverError
      ensures frames == if status == Ok then [] else old(frames)
      ensures tables == if status == Ok then old(frames)[0].saved else old(tables)
    {
      if !up || frames == [] { return DriverError; }
      tables, frames := frames[0].saved, [];
      return Ok;
    }

    method Savepoint(name: string, up: bool) returns (status: Status)
      requires Valid()
      modifies this`frames
      ensures Valid() && status == if up && old(frames) != [] then Ok else DriverError
      ensures frames == if status == Ok then old(frames) + [Frame(name, tables)] else old(frames)
    {
      if !up || frames == [] { return DriverError; }
      frames := frames + [Frame(name, tables)];
      return Ok;
    }

    /** Keeps the changes since the innermost savepoint of that name and drops it with all above it. */
    method Release(name: string, up: bool) returns (status: Status)
      requires Valid()
      modifies this`frames
      ensures Valid()
      ensures var j := InnermostNamed(old(frames), name);
              && status == (if up && j > 0 then Ok else DriverError)
              && frames == if status == Ok then old(frames)[..j] else old(frames)
    {
      var j := InnermostNamed(frames, name);
      if !up || j == 0 { return DriverError; }
      frames := frames[..j];
      return Ok;
    }

    /** Restores the tables of the innermost savepoint of that name and keeps the savepoint. */
    method RollbackTo(name: string, up: bool) returns (status: Status)
      requires Valid()
      modifies this`frames, this`tables
      ensures Valid()
      ensures var j := InnermostNamed(old(frames), name);
              && status == (if up && j > 0 then Ok else DriverError)
              && frames == (if status == Ok then old(frames)[..j + 1] else old(frames))
              && tables == if status == Ok then old(frames)[j].saved else old(tables)
    {
      var j := InnermostNamed(frames, name);
      if !up || j == 0 { return DriverError; }
      tables, frames := frames[j].saved, frames[..j + 1];
      return Ok;
    }
  }
}
