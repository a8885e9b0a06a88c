/** Opening a handle and registering structs on it. */
module Registration {
  import opened Core
  import opened Conditions
  import opened SqlEngine
  import opened Driving
  import opened StmtCaching
  import opened Ledger
  import opened TxSpec
  import opened TableSpec
  import opened QueryMeaning
  import opened ApiSpec
  import opened Handles
  import opened Registry
  import opened Migration

  const DEFAULT_CACHE_SIZE: nat := 64

  /** A new handle on a database: an empty registry, an empty cache and no transaction. */
  method Init(dialect: Dialect, cmp: Comparator, tables: Tables, memory: nat, reserved: Words)
      returns (h: Handle, reg: SchemaRegistry)
    requires TablesOk(tables)
    ensures fresh(h) && fresh(h.drv) && fresh(h.cache) && fresh(h.cache.buckets) && fresh(h.cache.nodes) && fresh(reg)
    ensures fresh(reg.entries)
    ensures h.Valid() && reg.Valid() && h.schemas == reg.schemas == [] && reg.reserved == reserved
    ensures h.drv.tables == tables && h.drv.dialect == dialect && h.drv.cmp == cmp && h.memory == memory
    ensures h.depth == 0 && h.scans == map[] && h.cache.capacity == 64
  {
    hide StmtCache.Valid, Handle.Sound;
    var drv := new Driver(dialect, cmp, tables);
    var cache := new StmtCache(DEFAULT_CACHE_SIZE);
    h := new Handle(drv, cache, memory);
    reg := new SchemaRegistry(reserved);
  }

  /** A step of one table's layout does not touch the tables of the other schemas. */
  lemma {:induction false} OthersServed(d: Dialect, cfg: Config, s: Schema, was: Tables, now: Tables,
      schemas: seq<Schema>)
    requires Advanced(d, cfg, s, was, now) && TablesOk(now)
    requires now != was ==> forall i :: 0 <= i < |schemas| ==> schemas[i].name != s.name
    ensures forall other :: other in schemas && Served(was, other) ==> Served(now, other)
  {
    hide Fits, Grown, NewTable;
    forall other | other in schemas && Served(was, other) ensures Served(now, other) {
      assert other.name in now && (now != was ==> now[other.name] == was[other.name]);
    }
  }

  lemma {:induction false} NameIsNew(reserved: Words, schemas: seq<Schema>, name: string, cols: seq<Column>)
    ensures RegisterStatus(reserved, schemas, name, cols) == Ok ==>
              forall i :: 0 <= i < |schemas| ==> schemas[i].name != name
    ensures NewSchema(name, cols).name == name
  {
    hide ColumnsStatus, ValidName, FirstKey;
  }

  /**
   * Registers a struct on a handle. On success its schema is found under its name and its table serves it; on
   * failure the handle knows the schemas it knew. Either way every other schema that was served still is.
   */
  method RegisterStruct(h: Handle, reg: SchemaRegistry, name: string, cols: seq<Column>, cfg: Config, mem: Memory,
                        strict: bool, createUp: bool, alterUp: nat -> bool) returns (status: Status)
    requires h.Valid() && reg.Valid() && reg.schemas == h.schemas
    modifies h`schemas, reg, reg.entries, h.drv`tables
    ensures h.Valid() && reg.Valid() && reg.schemas == h.schemas
    ensures h.schemas == if status == Ok then old(h.schemas) + [NewSchema(name, cols)] else old(h.schemas)
    ensures status == Ok ==>
            FindSchema(h.schemas, name) == Some(NewSchema(name, cols)) && Served(h.drv.tables, NewSchema(name, cols))
    ensures forall s :: s in old(h.schemas) && Served(old(h.drv.tables), s) ==> Served(h.drv.tables, s)
    ensures RegisterStatus(reg.reserved, old(h.schemas), name, cols) != Ok ==>
              status == RegisterStatus(reg.reserved, old(h.schemas), name, cols) && h.drv.tables == old(h.drv.tables)
    ensures RegisterStatus(reg.reserved, old(h.schemas), name, cols) == Ok && mem.grow && mem.copy ==>
              var s, d := NewSchema(name, cols), h.drv.dialect;
              && (status == Ok <==> Migratable(d, cfg, strict, old(h.drv.tables), s, createUp, alterUp))
              && Explained(d, cfg, strict, old(h.drv.tables), s, createUp, alterUp, status, h.drv.tables)
  {
    hide StmtCache.Valid, Served, Advanced, RegistryOk, NewSchema, Migratable, Explained, RegisterStatus, SchemasOk,
         InStep, Balanced, Alive, Shelved, Scanning;
    ghost var was, tables, s := h.schemas, h.drv.tables, NewSchema(name, cols);
    status := RegisterTable(reg, h.drv, name, cols, cfg, mem, strict, createUp, alterUp);
    h.schemas := if status == Ok then h.schemas + [NewSchema(name, cols)] else h.schemas;
    RegistryIsPlain(reg.reserved, reg.schemas);
    NameIsNew(reg.reserved, was, name, cols);
    OthersServed(h.drv.dialect, cfg, s, tables, h.drv.tables, was);
    if status == Ok { FindRegistered(was, s); }
  }
}
