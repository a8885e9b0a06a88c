/** Bringing a table into line with its schema: create, compare, add columns, compare again. */
module Migration {
  import opened Core
  import opened SqlText
  import opened SqlEngine
  import opened Driving
  import opened Queries
  import opened QueryMeaning
  import opened ApiSpec
  import opened Registry

  const MIG_MAX_NAME: nat := 128

  datatype Config = Config(autoMigrate: bool, requireStrict: bool)

  // ---- Columns ---------------------------------------------------------------------------

  /** Both integer types are one class to the database. */
  function TypeClass(t: SqlType): SqlType { if t == Int32 || t == Int64 then Int64 else t }

  /** A column as introspection reports it; a name that does not fit its buffer is lost. */
  function Seen(c: TableColumn): TableColumn {
    c.(name := if |c.name| < MIG_MAX_NAME then c.name else "")
  }

  /** 0, or which aspect differs first: name, type, NOT NULL, PRIMARY KEY, UNIQUE. */
  function CompareColumns(sc: Column, dc: TableColumn): nat {
    if sc.name != dc.name then 1
    else if TypeClass(sc.typ) != dc.cls then 2
    else if !sc.nullable != dc.notNull then 3
    else if sc.primaryKey != dc.primaryKey then 4
    else if sc.unique && !sc.primaryKey && !dc.unique then 5
    else 0
  }

  /**
   * The stored column is the one the schema wants: its name, the integer class for both integer types and
   * the type itself otherwise, NOT NULL unless nullable, PRIMARY KEY as wanted, UNIQUE where a non-key is to be.
   */
  predicate SameColumn(sc: Column, tc: TableColumn) {
    && tc.name == sc.name
    && (match sc.typ
        case Int32 => tc.cls == Int64
        case Int64 => tc.cls == Int64
        case Real => tc.cls == Real
        case Text => tc.cls == Text
        case Blob => tc.cls == Blob)
    && tc.notNull == !sc.nullable
    && tc.primaryKey == sc.primaryKey
    && (sc.unique && !sc.primaryKey ==> tc.unique)
  }

  predicate Named(s: Schema) { forall i :: 0 <= i < |s.cols| ==> s.cols[i].name != "" }

  /**
   * A key that is NOT NULL whether its DDL says so or not: every PostgreSQL key, and in a STRICT SQLite
   * table every key but an INTEGER one.
   */
  predicate KeyNotNull(d: Dialect, c: Column) {
    c.primaryKey && (d.Postgres? || TypeClass(c.typ) != Int64)
  }

  /** The column that the DDL for `c` makes; a key is UNIQUE by itself. */
  function Declared(d: Dialect, c: Column): TableColumn {
    TableColumn(c.name, TypeClass(c.typ), !c.nullable || KeyNotNull(d, c), c.primaryKey, c.unique && !c.primaryKey)
  }

  predicate Agrees(sc: Column, tc: TableColumn) { CompareColumns(sc, Seen(tc)) == 0 }

  /** The comparison finds nothing to object to exactly in such a column whose name can be read back. */
  lemma {:induction false} AgreesMeans(sc: Column, tc: TableColumn)
    requires sc.name != ""
    ensures Agrees(sc, tc) <==> SameColumn(sc, tc) && |sc.name| < 128
  {
  }

  lemma {:induction false} AllAgreeMeans(s: Schema)
    requires Named(s)
    ensures forall i, tc :: 0 <= i < |s.cols| ==>
              (Agrees(s.cols[i], tc) <==> SameColumn(s.cols[i], tc) && |s.cols[i].name| < MIG_MAX_NAME)
  {
    hide Agrees, SameColumn;
    forall i, tc | 0 <= i < |s.cols|
      ensures Agrees(s.cols[i], tc) <==> SameColumn(s.cols[i], tc) && |s.cols[i].name| < MIG_MAX_NAME
    {
      AgreesMeans(s.cols[i], tc);
    }
  }

  /** The column the DDL makes is read back as the schema has it. */
  predicate ReadsBack(d: Dialect, c: Column) { Agrees(c, Declared(d, c)) }

  /** That fails for a name too long to read back, and for a nullable key that the backend makes NOT NULL. */
  lemma {:induction false} DeclaredAgrees(d: Dialect, c: Column)
    ensures ReadsBack(d, c) <==> |c.name| < MIG_MAX_NAME && !(c.nullable && KeyNotNull(d, c))
  {
  }

  /** A valid name of 128 characters is such a column: its table never matches its schema. */
  lemma {:induction false} LongNameNeverAgrees(d: Dialect)
    ensures var c := Column(seq(128, _ => 'a'), Int64, 0, 8, false, true, false);
            ValidName([], c.name) && !ReadsBack(d, c)
  {
    var c := Column(seq(128, _ => 'a'), Int64, 0, 8, false, true, false);
    assert c.name[0] == 'a';
    DeclaredAgrees(d, c);
  }

  /** The table has exactly the schema's columns. */
  predicate InLine(s: Schema, t: Table) {
    |t.cols| == |s.cols| && forall i :: 0 <= i < |s.cols| ==> Agrees(s.cols[i], t.cols[i])
  }

  // ---- DDL -------------------------------------------------------------------------------

  function Keys(cols: seq<Column>): nat {
    if cols == [] then 0 else (if cols[0].primaryKey then 1 else 0) + Keys(cols[1..])
  }

  function NewTable(d: Dialect, s: Schema): Table {
    Table(seq(|s.cols|, i requires 0 <= i < |s.cols| => Declared(d, s.cols[i])), [])
  }

  function Padded(rows: seq<Row>): (r: seq<Row>)
    ensures |r| == |rows| && forall i :: 0 <= i < |r| ==> r[i] == rows[i] + [NullValue]
  {
    seq(|rows|, i requires 0 <= i < |rows| => rows[i] + [NullValue])
  }

  function AddColumn(d: Dialect, t: Table, c: Column): Table {
    Table(t.cols + [Declared(d, c)], Padded(t.rows))
  }

  /** CREATE TABLE IF NOT EXISTS; a table has at most one PRIMARY KEY column. */
  method Create(drv: Driver, s: Schema, up: bool) returns (status: Status)
    requires drv.Valid()
    modifies drv`tables
    ensures drv.Valid() && status == if up && (s.name in old(drv.tables) || Keys(s.cols) <= 1) then Ok else DriverError
    ensures drv.tables == if status == Ok && s.name !in old(drv.tables)
            then old(drv.tables)[s.name := NewTable(drv.dialect, s)] else old(drv.tables)
  {
    if !up { return DriverError; }
    if s.name in drv.tables { return Ok; }
    if Keys(s.cols) > 1 { return DriverError; }
    drv.tables := drv.tables[s.name := NewTable(drv.dialect, s)];
    return Ok;
  }

  /** Rows there are get NULL in an added column, which a NOT NULL column forbids. */
  predicate Takes(d: Dialect, t: Table, c: Column) { t.rows == [] || !Declared(d, c).notNull }

  /** That is all that stands in the way: the other constraints survive. */
  lemma {:induction false} TakesMeans(d: Dialect, t: Table, c: Column)
    requires Shaped(|t.cols|, t.rows) && Admissible(t.cols, t.rows)
    ensures var grown := AddColumn(d, t, c);
            Shaped(|grown.cols|, grown.rows) && (Admissible(grown.cols, grown.rows) <==> Takes(d, t, c))
  {
    hide Declared;
    var grown := AddColumn(d, t, c);
    assert grown.cols[|t.cols|] == Declared(d, c) && forall i :: 0 <= i < |t.cols| ==> grown.cols[i] == t.cols[i];
    assert forall j :: 0 <= j < |t.rows| ==> grown.rows[j][|t.cols|] == NullValue;
    assert forall i, j :: 0 <= j < |t.rows| && 0 <= i < |t.cols| ==> grown.rows[j][i] == t.rows[j][i];
    if t.rows != [] && Declared(d, c).notNull {
      assert grown.rows[0][|t.cols|] == NullValue;
    }
  }

  /** ALTER TABLE ADD COLUMN. */
  method Alter(drv: Driver, name: string, c: Column, up: bool) returns (status: Status)
    requires drv.Valid() && name in drv.tables
    modifies drv`tables
    ensures drv.Valid() && status == if up && Takes(drv.dialect, old(drv.tables)[name], c) then Ok else DriverError
    ensures drv.tables == if status == Ok then old(drv.tables)[name := AddColumn(drv.dialect, old(drv.tables)[name], c)]
            else old(drv.tables)
  {
    if !up || !Takes(drv.dialect, drv.tables[name], c) { return DriverError; }
    drv.tables := drv.tables[name := AddColumn(drv.dialect, drv.tables[name], c)];
    return Ok;
  }

  // ---- Growing a table -------------------------------------------------------------------

  /** The table with the next `k` columns of the schema added. */
  function Grown(d: Dialect, s: Schema, t: Table, k: nat): (r: Table)
    requires |t.cols| + k <= |s.cols|
    ensures |r.cols| == |t.cols| + k && r.cols[..|t.cols|] == t.cols && |r.rows| == |t.rows|
  {
    if k == 0 then t else AddColumn(d, Grown(d, s, t, k - 1), s.cols[|t.cols| + k - 1])
  }

  /** Growing in two stages is growing at once: a retry takes up where a failure stopped. */
  lemma {:induction false} GrownTwice(d: Dialect, s: Schema, t: Table, j: nat, k: nat)
    requires |t.cols| + j + k <= |s.cols|
    ensures Grown(d, s, Grown(d, s, t, j), k) == Grown(d, s, t, j + k)
  {
    if k > 0 {
      GrownTwice(d, s, t, j, k - 1);
    }
  }

  /** Growing keeps every value there was. */
  lemma {:induction false} GrownRows(d: Dialect, s: Schema, t: Table, k: nat, i: nat)
    requires |t.cols| + k <= |s.cols| && i < |t.rows|
    ensures |Grown(d, s, t, k).rows[i]| == |t.rows[i]| + k && Grown(d, s, t, k).rows[i][..|t.rows[i]|] == t.rows[i]
  {
    if k > 0 {
      GrownRows(d, s, t, k - 1, i);
    }
  }

  /** The added columns are the declared ones. */
  lemma {:induction false} GrownColumns(d: Dialect, s: Schema, t: Table, k: nat, i: nat)
    requires |t.cols| + k <= |s.cols| && |t.cols| <= i < |t.cols| + k
    ensures Grown(d, s, t, k).cols[i] == Declared(d, s.cols[i])
  {
    if i < |t.cols| + k - 1 {
      GrownColumns(d, s, t, k - 1, i);
    }
  }

  /**
   * What any outcome leaves behind: other tables as they were, and this one as before, created, or
   * grown by a prefix of what was missing.
   */
  ghost predicate Advanced(d: Dialect, cfg: Config, s: Schema, was: Tables, now: Tables) {
    now == was
    || (s.name !in was && Keys(s.cols) <= 1 && now == was[s.name := NewTable(d, s)])
    || (s.name in was && exists k: nat :: GrownBy(d, cfg, s, was, now, k))
  }

  ghost predicate GrownBy(d: Dialect, cfg: Config, s: Schema, was: Tables, now: Tables, k: nat)
    requires s.name in was
  {
    var t := was[s.name];
    && |t.cols| + k <= |s.cols| && now == was[s.name := Grown(d, s, t, k)]
    && (k > 0 ==> cfg.autoMigrate && t.cols != [])
    && forall i :: |t.cols| <= i < |t.cols| + k ==> Takes(d, t, s.cols[i])
  }

  // ---- Migration -------------------------------------------------------------------------

  /** Compares the first `n` columns. */
  method CompareFirst(s: Schema, cols: seq<TableColumn>, n: nat) returns (same: bool)
    requires n <= |s.cols| && n <= |cols|
    ensures same <==> forall i :: 0 <= i < n ==> Agrees(s.cols[i], cols[i])
  {
    hide CompareColumns;
    for i := 0 to n
      invariant forall j :: 0 <= j < i ==> Agrees(s.cols[j], cols[j])
    {
      var diff := CompareColumns(s.cols[i], Seen(cols[i]));
      if diff != 0 {
        assert !Agrees(s.cols[i], cols[i]);
        return false;
      }
    }
    return true;
  }

  /** A backend that carries every request out. */
  predicate Always(i: nat) { true }

  /** Every missing column can be added. */
  ghost predicate Growable(d: Dialect, s: Schema, t: Table, alterUp: nat -> bool) {
    forall i :: |t.cols| <= i < |s.cols| ==> alterUp(i) && Takes(d, t, s.cols[i])
  }

  /** Adds the missing trailing columns one by one. */
  method AddMissing(drv: Driver, ghost cfg: Config, s: Schema, alterUp: nat -> bool) returns (status: Status)
    requires drv.Valid() && s.name in drv.tables && 0 < |drv.tables[s.name].cols| <= |s.cols| && cfg.autoMigrate
    modifies drv`tables
    ensures drv.Valid() && (status == Ok || status == DriverError) && s.name in drv.tables
    ensures status == Ok <==> Growable(drv.dialect, s, old(drv.tables)[s.name], alterUp)
    ensures status == Ok ==> drv.tables == Migrated(drv.dialect, s, old(drv.tables))
    ensures exists k: nat :: GrownBy(drv.dialect, cfg, s, old(drv.tables), drv.tables, k)
  {
    hide Grown, Declared, TablesOk;
    ghost var was, d := drv.tables, drv.dialect;
    var n := |drv.tables[s.name].cols|;
    GrownZero(d, s, was);
    for i := n to |s.cols|
      invariant drv.Valid() && s.name in drv.tables && GrownBy(d, cfg, s, was, drv.tables, i - n)
      invariant forall j :: n <= j < i ==> alterUp(j) && Takes(d, was[s.name], s.cols[j])
    {
      status := Alter(drv, s.name, s.cols[i], alterUp(i));
      if status != Ok { return; }
      GrownNext(d, s, was[s.name], i - n);
    }
    status := Ok;
  }

  lemma {:induction false} GrownZero(d: Dialect, s: Schema, was: Tables)
    requires s.name in was && |was[s.name].cols| <= |s.cols|
    ensures was == was[s.name := Grown(d, s, was[s.name], 0)]
  {
  }

  lemma {:induction false} GrownNext(d: Dialect, s: Schema, t: Table, k: nat)
    requires |t.cols| + k < |s.cols|
    ensures Grown(d, s, t, k + 1) == AddColumn(d, Grown(d, s, t, k), s.cols[|t.cols| + k])
  {
  }

  /** A stored SQLite table that is not STRICT although the configuration asks for it. */
  predicate Unstrict(d: Dialect, cfg: Config, strict: bool) { d.Sqlite? && cfg.requireStrict && !strict }

  /** Whether a table counts as STRICT: always in PostgreSQL, and when it was made here. */
  predicate StrictEnough(d: Dialect, cfg: Config, strict: bool, created: bool) {
    d.Postgres? || created || strict || !cfg.requireStrict
  }

  /** When a migration succeeds, in terms of what there is before it. */
  ghost predicate Migratable(d: Dialect, cfg: Config, strict: bool, tables: Tables, s: Schema, createUp: bool,
      alterUp: nat -> bool)
  {
    && createUp
    && if s.name in tables then !Unstrict(d, cfg, strict) && Extendable(d, cfg, s, tables[s.name], alterUp)
       else Keys(s.cols) <= 1 && forall i :: 0 <= i < |s.cols| ==> ReadsBack(d, s.cols[i])
  }

  /** The columns there are agree, and those that are missing can be added and read back. */
  ghost predicate Extendable(d: Dialect, cfg: Config, s: Schema, t: Table, alterUp: nat -> bool) {
    && 0 < |t.cols| <= |s.cols|
    && (forall i :: 0 <= i < |t.cols| ==> Agrees(s.cols[i], t.cols[i]))
    && (|t.cols| < |s.cols| ==> cfg.autoMigrate && Growable(d, s, t, alterUp))
    && forall i :: |t.cols| <= i < |s.cols| ==> ReadsBack(d, s.cols[i])
  }

  /** What a migration that succeeds makes of the tables. */
  ghost function Migrated(d: Dialect, s: Schema, tables: Tables): Tables {
    if s.name !in tables then tables[s.name := NewTable(d, s)]
    else if |tables[s.name].cols| > |s.cols| then tables
    else tables[s.name := Grown(d, s, tables[s.name], |s.cols| - |tables[s.name].cols|)]
  }

  /** The full-grown table matches exactly when it matched before and the added columns read back. */
  lemma {:induction false} MigratedInLine(d: Dialect, s: Schema, tables: Tables)
    requires s.name in tables ==> |tables[s.name].cols| <= |s.cols|
    ensures var n := if s.name in tables then |tables[s.name].cols| else 0;
            InLine(s, Migrated(d, s, tables)[s.name]) <==>
              && (forall i :: 0 <= i < n ==> Agrees(s.cols[i], tables[s.name].cols[i]))
              && (forall i :: n <= i < |s.cols| ==> ReadsBack(d, s.cols[i]))
  {
    hide Agrees, Declared, Grown;
    if s.name in tables {
      GrownAgrees(d, s, tables[s.name], |s.cols| - |tables[s.name].cols|);
    }
  }

  /** The stored table has exactly the schema's columns, field by field. */
  predicate Corresponds(s: Schema, t: Table) {
    |t.cols| == |s.cols| && forall i :: 0 <= i < |s.cols| ==> SameColumn(s.cols[i], t.cols[i])
  }

  /** Some column that both have is not the one the schema wants. */
  predicate Differs(s: Schema, t: Table) {
    exists i :: 0 <= i < |s.cols| && i < |t.cols| && !SameColumn(s.cols[i], t.cols[i])
  }

  /** The backend refuses the CREATE, or one of the ALTERs that are tried. */
  ghost predicate Refused(d: Dialect, cfg: Config, strict: bool, tables: Tables, s: Schema, createUp: bool,
      alterUp: nat -> bool)
  {
    || !createUp
    || (s.name !in tables && Keys(s.cols) > 1)
    || (s.name in tables
        && var t := tables[s.name];
           && 0 < |t.cols| < |s.cols| && !Unstrict(d, cfg, strict) && cfg.autoMigrate
           && !Differs(s, t) && (forall i :: 0 <= i < |t.cols| ==> |s.cols[i].name| < MIG_MAX_NAME)
           && !Growable(d, s, t, alterUp))
  }

  /** What is wrong with a stored table before anything is changed. */
  ghost predicate Mismatched(d: Dialect, cfg: Config, strict: bool, s: Schema, t: Table) {
    || Unstrict(d, cfg, strict)
    || Differs(s, t)
    || |t.cols| > |s.cols|
    || (|t.cols| < |s.cols| && !cfg.autoMigrate)
  }

  /** Which status a migration has, and what it says of the stored columns. */
  ghost predicate Explained(d: Dialect, cfg: Config, strict: bool, was: Tables, s: Schema, createUp: bool,
      alterUp: nat -> bool, status: Status, now: Tables)
  {
    && (status == Ok ==> s.name in now && Corresponds(s, now[s.name]))
    && (status == DriverError <==> Refused(d, cfg, strict, was, s, createUp, alterUp))
    && (createUp && s.name in was && was[s.name].cols != [] && Mismatched(d, cfg, strict, s, was[s.name]) ==>
          status == SchemaMismatch && now == was)
    && (status == Internal <==> createUp && s.name in was && was[s.name].cols == [])
    && (status == Ok || status == DriverError || status == SchemaMismatch || status == Internal)
  }

  /** A stored table that ends the migration before anything is changed. */
  ghost predicate Stops(d: Dialect, cfg: Config, strict: bool, s: Schema, t: Table) {
    || Unstrict(d, cfg, strict) || |t.cols| > |s.cols| || (|t.cols| < |s.cols| && !cfg.autoMigrate)
    || exists i :: 0 <= i < |s.cols| && i < |t.cols| && !Agrees(s.cols[i], t.cols[i])
  }

  /** The status, step by step. */
  ghost function MigrateStatus(d: Dialect, cfg: Config, strict: bool, tables: Tables, s: Schema, createUp: bool,
      alterUp: nat -> bool): Status
  {
    if !createUp || (s.name !in tables && Keys(s.cols) > 1) then DriverError
    else if s.name in tables && tables[s.name].cols == [] then Internal
    else if s.name in tables && Stops(d, cfg, strict, s, tables[s.name]) then SchemaMismatch
    else if s.name in tables && !Growable(d, s, tables[s.name], alterUp) then DriverError
    else if InLine(s, Migrated(d, s, tables)[s.name]) then Ok
    else SchemaMismatch
  }

  lemma {:induction false} StatusMeans(d: Dialect, cfg: Config, strict: bool, tables: Tables, s: Schema, createUp: bool,
      alterUp: nat -> bool)
    ensures MigrateStatus(d, cfg, strict, tables, s, createUp, alterUp) == Ok <==>
            Migratable(d, cfg, strict, tables, s, createUp, alterUp)
  {
    hide Agrees, ReadsBack, NewTable, Grown, Takes, InLine;
    if s.name !in tables || |tables[s.name].cols| <= |s.cols| {
      MigratedInLine(d, s, tables);
    }
  }

  lemma {:induction false} StatusInFields(d: Dialect, cfg: Config, strict: bool, was: Tables, s: Schema, createUp: bool,
      alterUp: nat -> bool, now: Tables)
    requires Named(s)
    requires var status := MigrateStatus(d, cfg, strict, was, s, createUp, alterUp);
             && (status == Ok ==> s.name in now && InLine(s, now[s.name]))
             && (createUp && s.name in was && was[s.name].cols != [] && Stops(d, cfg, strict, s, was[s.name]) ==>
                   now == was)
    ensures var status := MigrateStatus(d, cfg, strict, was, s, createUp, alterUp);
            Explained(d, cfg, strict, was, s, createUp, alterUp, status, now)
  {
    AllAgreeMeans(s);
    hide Agrees, SameColumn, Migrated, Growable;
    if s.name in was {
      StopsInFields(d, cfg, strict, s, was[s.name]);
    }
    hide Stops, Differs;
  }

  lemma {:induction false} StopsInFields(d: Dialect, cfg: Config, strict: bool, s: Schema, t: Table)
    requires Named(s)
    ensures Mismatched(d, cfg, strict, s, t) ==> Stops(d, cfg, strict, s, t)
    ensures |t.cols| == |s.cols| ==> forall up: nat -> bool :: Growable(d, s, t, up)
    ensures |t.cols| < |s.cols| && cfg.autoMigrate && !Unstrict(d, cfg, strict) ==>
              (!Stops(d, cfg, strict, s, t) <==>
                 !Differs(s, t) && forall i :: 0 <= i < |t.cols| ==> |s.cols[i].name| < MIG_MAX_NAME)
  {
    AllAgreeMeans(s);
    hide Agrees, SameColumn;
  }

  /**
   * Makes the table match the schema. `strict` is what the stored table definition says, and the
   * flags say which requests the backend carries out.
   */
  method MigrateTable(drv: Driver, s: Schema, cfg: Config, strict: bool, createUp: bool, alterUp: nat -> bool)
      returns (status: Status)
    requires drv.Valid() && s.cols != []
    modifies drv`tables
    ensures drv.Valid() && Advanced(drv.dialect, cfg, s, old(drv.tables), drv.tables)
    ensures status == Ok <==> Migratable(drv.dialect, cfg, strict, old(drv.tables), s, createUp, alterUp)
    ensures status == Ok ==> drv.tables == Migrated(drv.dialect, s, old(drv.tables)) && InLine(s, drv.tables[s.name])
    ensures Named(s) ==>
              Explained(drv.dialect, cfg, strict, old(drv.tables), s, createUp, alterUp, status, drv.tables)
  {
    hide Explained, Migratable;
    StatusMeans(drv.dialect, cfg, strict, drv.tables, s, createUp, alterUp);
    status := MigrateSteps(drv, s, cfg, strict, createUp, alterUp);
    if Named(s) {
      StatusInFields(drv.dialect, cfg, strict, old(drv.tables), s, createUp, alterUp, drv.tables);
    }
  }

  method MigrateSteps(drv: Driver, s: Schema, cfg: Config, strict: bool, createUp: bool, alterUp: nat -> bool)
      returns (status: Status)
    requires drv.Valid() && s.cols != []
    modifies drv`tables
    ensures drv.Valid() && Advanced(drv.dialect, cfg, s, old(drv.tables), drv.tables)
    ensures status == MigrateStatus(drv.dialect, cfg, strict, old(drv.tables), s, createUp, alterUp)
    ensures status == Ok ==> drv.tables == Migrated(drv.dialect, s, old(drv.tables)) && InLine(s, drv.tables[s.name])
    ensures (createUp && s.name in old(drv.tables) && old(drv.tables)[s.name].cols != []
             && Stops(drv.dialect, cfg, strict, s, old(drv.tables)[s.name])) ==>
              drv.tables == old(drv.tables)
  {
    hide Agrees, ReadsBack, NewTable, Grown, TablesOk;
    ghost var was := drv.tables;
    var created := s.name !in drv.tables;
    status := Create(drv, s, createUp);
    if status != Ok { return; }
    NewTableSize(drv.dialect, s);
    var cols := drv.tables[s.name].cols;
    if cols == [] { return Internal; }
    if !StrictEnough(drv.dialect, cfg, strict, created) { return SchemaMismatch; }
    var same := CompareFirst(s, cols, Min(|cols|, |s.cols|));
    if !same { return SchemaMismatch; }
    if |cols| > |s.cols| { return SchemaMismatch; }
    if |cols| < |s.cols| {
      if !cfg.autoMigrate { return SchemaMismatch; }
      status := AddMissing(drv, cfg, s, alterUp);
      if status != Ok { return; }
      same := CompareFirst(s, drv.tables[s.name].cols, |s.cols|);
      if !same { return SchemaMismatch; }
    } else if !created {
      GrownZero(drv.dialect, s, was);
    }
  }

  lemma {:induction false} NewTableSize(d: Dialect, s: Schema)
    ensures |NewTable(d, s).cols| == |s.cols|
  {
  }

  /** A table in line with a registered schema serves every query on it. */
  lemma {:induction false} InLineServes(reserved: Words, tables: Tables, s: Schema)
    requires TablesOk(tables) && SchemaOk(reserved, s) && s.name in tables && InLine(s, tables[s.name])
    ensures Served(tables, s)
  {
    SchemaIsPlain(reserved, s);
    FirstKeyMeans(s.cols, 0);
    hide FirstKey, ValidName;
    var t := tables[s.name];
    forall i | 0 <= i < |s.cols|
      ensures t.cols[i].name == s.cols[i].name && t.cols[i].primaryKey == s.cols[i].primaryKey
    {
      assert Agrees(s.cols[i], t.cols[i]);
      assert Plain(Names(s)[i]);
    }
    assert ColumnNames(t) == Names(s);
  }

  /** Running a migration again after it succeeded succeeds and changes nothing. */
  method MigrateTwice(drv: Driver, s: Schema, cfg: Config, strict: bool, alterUp: nat -> bool)
      returns (first: Status, second: Status)
    requires drv.Valid() && s.cols != [] && !Unstrict(drv.dialect, cfg, strict)
    modifies drv`tables
    ensures drv.Valid() && (first == Ok ==> second == Ok && drv.tables == Migrated(drv.dialect, s, old(drv.tables)))
  {
    hide Advanced, TablesOk, Agrees, Grown, NewTable, Migratable;
    first := MigrateTable(drv, s, cfg, strict, true, alterUp);
    second := first;
    if first == Ok {
      AgainMigratable(drv.dialect, cfg, strict, drv.tables, s, _ => false);
      second := MigrateTable(drv, s, cfg, strict, true, _ => false);
    }
  }

  lemma {:induction false} AgainMigratable(d: Dialect, cfg: Config, strict: bool, tables: Tables, s: Schema,
      alterUp: nat -> bool)
    requires s.cols != [] && !Unstrict(d, cfg, strict) && s.name in tables && InLine(s, tables[s.name])
    ensures Migratable(d, cfg, strict, tables, s, true, alterUp) && Migrated(d, s, tables) == tables
  {
    hide Agrees;
    GrownZero(d, s, tables);
  }

  /**
   * Whatever a first run came to, a retry on a backend that carries everything out succeeds exactly when
   * it would have at the start, and it ends with the very same tables.
   */
  method MigrateRetry(drv: Driver, s: Schema, cfg: Config, strict: bool, createUp: bool, alterUp: nat -> bool)
      returns (first: Status, second: Status)
    requires drv.Valid() && s.cols != [] && !Unstrict(drv.dialect, cfg, strict)
    modifies drv`tables
    ensures drv.Valid() && (second == Ok <==> Migratable(drv.dialect, cfg, strict, old(drv.tables), s, true, Always))
    ensures second == Ok ==> drv.tables == Migrated(drv.dialect, s, old(drv.tables)) && InLine(s, drv.tables[s.name])
  {
    hide Advanced, TablesOk, Agrees, Grown, NewTable, Migratable;
    ghost var was := drv.tables;
    first := MigrateTable(drv, s, cfg, strict, createUp, alterUp);
    RetryResumes(drv.dialect, cfg, strict, was, drv.tables, s);
    second := MigrateTable(drv, s, cfg, strict, true, Always);
  }

  lemma {:induction false} RetryResumes(d: Dialect, cfg: Config, strict: bool, was: Tables, mid: Tables, s: Schema)
    requires Advanced(d, cfg, s, was, mid) && s.cols != [] && !Unstrict(d, cfg, strict)
    ensures Migratable(d, cfg, strict, mid, s, true, Always) <==> Migratable(d, cfg, strict, was, s, true, Always)
    ensures Migratable(d, cfg, strict, was, s, true, Always) ==> Migrated(d, s, mid) == Migrated(d, s, was)
  {
    hide Agrees, Declared, Extendable, Grown;
    if mid != was {
      if s.name in was {
        var k: nat :| GrownBy(d, cfg, s, was, mid, k);
        if k == 0 { GrownZero(d, s, was); } else { RetryGrown(d, cfg, s, was[s.name], k); }
      } else {
        RetryCreated(d, cfg, s);
        GrownZero(d, s, mid);
      }
    }
  }

  lemma {:induction false} RetryCreated(d: Dialect, cfg: Config, s: Schema)
    requires s.cols != []
    ensures Extendable(d, cfg, s, NewTable(d, s), Always) <==> forall i :: 0 <= i < |s.cols| ==> ReadsBack(d, s.cols[i])
  {
    hide Agrees, Declared;
  }

  /** What a first run added is what the retry finds already there. */
  lemma {:induction false} RetryGrown(d: Dialect, cfg: Config, s: Schema, t: Table, k: nat)
    requires 0 < |t.cols| && |t.cols| + k <= |s.cols| && k > 0 && cfg.autoMigrate
    requires forall i :: |t.cols| <= i < |t.cols| + k ==> Takes(d, t, s.cols[i])
    ensures Extendable(d, cfg, s, Grown(d, s, t, k), Always) <==> Extendable(d, cfg, s, t, Always)
    ensures var rest := |s.cols| - |t.cols| - k; Grown(d, s, Grown(d, s, t, k), rest) == Grown(d, s, t, k + rest)
  {
    hide Agrees, Takes, Grown, ReadsBack;
    GrownTwice(d, s, t, k, |s.cols| - |t.cols| - k);
    GrownAgrees(d, s, t, k);
    GrownTakes(d, s, t, k);
  }

  lemma {:induction false} GrownAgrees(d: Dialect, s: Schema, t: Table, k: nat)
    requires |t.cols| + k <= |s.cols|
    ensures var n, grown := |t.cols|, Grown(d, s, t, k);
            (forall i :: 0 <= i < n + k ==> Agrees(s.cols[i], grown.cols[i])) <==>
              (forall i :: 0 <= i < n ==> Agrees(s.cols[i], t.cols[i]))
                  && (forall i :: n <= i < n + k ==> ReadsBack(d, s.cols[i]))
  {
    var grown := Grown(d, s, t, k);
    forall i | |t.cols| <= i < |t.cols| + k ensures grown.cols[i] == Declared(d, s.cols[i]) {
      GrownColumns(d, s, t, k, i);
    }
    hide Grown, Agrees, Declared;
    assert forall i :: 0 <= i < |t.cols| ==> grown.cols[i] == grown.cols[..|t.cols|][i] == t.cols[i];
  }

  lemma {:induction false} GrownTakes(d: Dialect, s: Schema, t: Table, k: nat)
    requires |t.cols| + k <= |s.cols| && forall i :: |t.cols| <= i < |t.cols| + k ==> Takes(d, t, s.cols[i])
    ensures Growable(d, s, Grown(d, s, t, k), Always) <==> Growable(d, s, t, Always)
  {
    hide Grown, Declared;
    var grown := Grown(d, s, t, k);
    forall i | 0 <= i < |s.cols| ensures Takes(d, grown, s.cols[i]) <==> Takes(d, t, s.cols[i]) { }
    hide Takes;
  }

  /**
   * Registers a struct and brings its table into line. On success the table serves the schema; on
   * failure the registry is the one there was and the table has at most gained columns that are
   * still wanted.
   */
  method RegisterTable(reg: SchemaRegistry, drv: Driver, name: string, cols: seq<Column>, cfg: Config, mem: Memory,
                       strict: bool, createUp: bool, alterUp: nat -> bool) returns (status: Status)
    requires reg.Valid() && drv.Valid()
    modifies reg, reg.entries, drv`tables
    ensures reg.Valid() && drv.Valid()
    ensures status != Ok ==> reg.schemas == old(reg.schemas)
    ensures status == Ok ==>
            reg.schemas == old(reg.schemas) + [NewSchema(name, cols)] && Served(drv.tables, NewSchema(name, cols))
    ensures Advanced(drv.dialect, cfg, NewSchema(name, cols), old(drv.tables), drv.tables)
    ensures RegisterStatus(reg.reserved, old(reg.schemas), name, cols) != Ok ==>
              status == RegisterStatus(reg.reserved, old(reg.schemas), name, cols) && drv.tables == old(drv.tables)
    ensures RegisterStatus(reg.reserved, old(reg.schemas), name, cols) == Ok && mem.grow && mem.copy ==>
              var s := NewSchema(name, cols);
              && (status == Ok <==> Migratable(drv.dialect, cfg, strict, old(drv.tables), s, createUp, alterUp))
              && Explained(drv.dialect, cfg, strict, old(drv.tables), s, createUp, alterUp, status, drv.tables)
  {
    assert Advanced(drv.dialect, cfg, NewSchema(name, cols), drv.tables, drv.tables);
    hide RegistryOk, FirstKey, InLine, TablesOk, Served, Unregistered, FindSchema, ColumnsStatus, ValidName, SchemaOk,
         Migratable, Migrated, Advanced, Explained, Named;
    ghost var was, s := reg.schemas, NewSchema(name, cols);
    if cols == [] { return InvalidArg; }
    status := reg.Register(name, cols, mem);
    if status != Ok { return; }
    FindRegistered(was, s);
    UnregisterUndoes(was, s);
    var schema := reg.Lookup(name);
    if schema.None? { return Internal; }
    LastSchemaOk(reg.reserved, was, s);
    status := MigrateTable(drv, schema.value, cfg, strict, createUp, alterUp);
    if status == Ok {
      InLineServes(reg.reserved, drv.tables, s);
    } else {
      var _ := reg.Unregister(name);
    }
  }

  lemma {:induction false} LastSchemaOk(reserved: Words, schemas: seq<Schema>, s: Schema)
    requires RegistryOk(reserved, schemas + [s])
    ensures SchemaOk(reserved, s) && Named(s)
  {
    hide FirstKey;
    assert (schemas + [s])[|schemas|] == s;
    forall i | 0 <= i < |s.cols| ensures s.cols[i].name != "" { assert ColumnStatus(reserved, s.cols, i) == Ok; }
  }
}
