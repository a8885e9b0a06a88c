/** The schema registry: what may be registered, and the growing array that holds it. */
module Registry {
  import opened Core
  import opened SqlText
  import opened Queries
  import opened ApiSpec

  const MAX_IDENT_LEN: nat := 128
  const MAX_COLUMNS: nat := 64

  // ---- Names -----------------------------------------------------------------------------

  /** The reserved words, in upper case; nothing below depends on which they are. */
  type Words = seq<string>

  function UpperChar(c: char): char { if 'a' <= c <= 'z' then c - 'a' + 'A' else c }

  function Upper(s: string): (u: string)
    ensures |u| == |s| && forall i :: 0 <= i < |u| ==> u[i] == UpperChar(s[i])
  {
    seq(|s|, i requires 0 <= i < |s| => UpperChar(s[i]))
  }

  /** A letter or underscore, then letters, digits and underscores, at most 128 in all, and no reserved word. */
  predicate ValidName(reserved: Words, name: string) {
    && name != "" && (IsAlpha(name[0]) || name[0] == '_') && |name| <= MAX_IDENT_LEN
    && (forall i :: 1 <= i < |name| ==> IsWordChar(name[i]))
    && Upper(name) !in reserved
  }

  method IdentifierValid(reserved: Words, name: string) returns (valid: bool)
    ensures valid == ValidName(reserved, name)
    ensures valid <==>
              && 1 <= |name| <= 128 && !('0' <= name[0] <= '9')
              && (forall i :: 0 <= i < |name| ==>
                    'a' <= name[i] <= 'z' || 'A' <= name[i] <= 'Z' || '0' <= name[i] <= '9' || name[i] == '_')
              && forall w :: w in reserved ==> w != Upper(name)
  {
    if name == "" { return false; }
    if !IsAlpha(name[0]) && name[0] != '_' { return false; }
    var len := 1;
    while len < |name|
      invariant 1 <= len <= |name| && len <= MAX_IDENT_LEN
      invariant forall i :: 1 <= i < len ==> IsWordChar(name[i])
    {
      if len >= MAX_IDENT_LEN { return false; }
      if !IsAlnum(name[len]) && name[len] != '_' { return false; }
      len := len + 1;
    }
    var upper := Upper(name);
    for i := 0 to |reserved|
      invariant upper !in reserved[..i]
    {
      assert reserved[..i + 1] == reserved[..i] + [reserved[i]];
      if upper == reserved[i] { return false; }
    }
    assert reserved[..|reserved|] == reserved;
    return true;
  }

  // ---- Schemas ---------------------------------------------------------------------------

  /** What is wrong with column `i`, given the columns before it. */
  function ColumnStatus(reserved: Words, cols: seq<Column>, i: nat): Status
    requires i < |cols|
  {
    if !ValidName(reserved, cols[i].name) then InvalidName
    else if exists j :: 0 <= j < i && cols[j].name == cols[i].name then DuplicateColumn
    else if (cols[i].typ == Int32 && cols[i].size != 4) || (cols[i].typ == Int64 && cols[i].size != 8) then InvalidArg
    else Ok
  }

  /** The first thing wrong with the columns from `i` on. */
  function ColumnsStatus(reserved: Words, cols: seq<Column>, i: nat): (status: Status)
    requires i <= |cols|
    ensures status != NoMemory
    decreases |cols| - i
  {
    if i == |cols| then Ok
    else if ColumnStatus(reserved, cols, i) != Ok then ColumnStatus(reserved, cols, i)
    else ColumnsStatus(reserved, cols, i + 1)
  }

  /** The checks of a registration in the order they are made. */
  function RegisterStatus(reserved: Words, schemas: seq<Schema>, name: string, cols: seq<Column>): Status {
    if cols == [] then InvalidArg
    else if |cols| > MAX_COLUMNS then TooManyColumns
    else if !ValidName(reserved, name) then InvalidName
    else if exists i :: 0 <= i < |schemas| && schemas[i].name == name then DuplicateSchema
    else ColumnsStatus(reserved, cols, 0)
  }

  /** The first key column from `i` on, or -1. */
  function FirstKey(cols: seq<Column>, i: nat): int
    requires i <= |cols|
    decreases |cols| - i
  {
    if i == |cols| then -1 else if cols[i].primaryKey then i else FirstKey(cols, i + 1)
  }

  lemma {:induction false} FirstKeyMeans(cols: seq<Column>, i: nat)
    requires i <= |cols|
    ensures var k := FirstKey(cols, i);
            || (k == -1 && forall j :: i <= j < |cols| ==> !cols[j].primaryKey)
            || (i <= k < |cols| && cols[k].primaryKey && forall j :: i <= j < k ==> !cols[j].primaryKey)
    decreases |cols| - i
  {
    if i < |cols| && !cols[i].primaryKey {
      FirstKeyMeans(cols, i + 1);
    }
  }

  function NewSchema(name: string, cols: seq<Column>): Schema { Schema(name, cols, FirstKey(cols, 0)) }

  /** What every registered schema satisfies. */
  ghost predicate SchemaOk(reserved: Words, s: Schema) {
    && ValidName(reserved, s.name) && 1 <= |s.cols| <= MAX_COLUMNS && s.pkIndex == FirstKey(s.cols, 0)
    && (forall i :: 0 <= i < |s.cols| ==> ColumnStatus(reserved, s.cols, i) == Ok)
  }

  ghost predicate RegistryOk(reserved: Words, schemas: seq<Schema>) {
    && (forall i :: 0 <= i < |schemas| ==> SchemaOk(reserved, schemas[i]))
    && (forall i, j :: 0 <= i < j < |schemas| ==> schemas[i].name != schemas[j].name)
  }

  lemma {:induction false} ColumnsOk(reserved: Words, cols: seq<Column>, i: nat)
    requires i <= |cols| && ColumnsStatus(reserved, cols, i) == Ok
    ensures forall j :: i <= j < |cols| ==> ColumnStatus(reserved, cols, j) == Ok
    decreases |cols| - i
  {
    hide ColumnStatus;
    if i < |cols| {
      ColumnsOk(reserved, cols, i + 1);
    }
  }

  /** A struct passes exactly with 1 to 64 columns, valid names, no name twice, and integers of their own size. */
  lemma {:induction false} RegisterStatusMeans(reserved: Words, schemas: seq<Schema>, name: string, cols: seq<Column>)
    ensures RegisterStatus(reserved, schemas, name, cols) == Ok <==>
              && 1 <= |cols| <= 64 && ValidName(reserved, name)
              && (forall i :: 0 <= i < |schemas| ==> schemas[i].name != name)
              && (forall i :: 0 <= i < |cols| ==> ValidName(reserved, cols[i].name))
              && (forall i, j :: 0 <= i < j < |cols| ==> cols[i].name != cols[j].name)
              && (forall i :: 0 <= i < |cols| && cols[i].typ == Int32 ==> cols[i].size == 4)
              && (forall i :: 0 <= i < |cols| && cols[i].typ == Int64 ==> cols[i].size == 8)
  {
    hide ValidName, ColumnsStatus;
    if ColumnsStatus(reserved, cols, 0) == Ok {
      ColumnsOk(reserved, cols, 0);
      forall i, j | 0 <= i < j < |cols| ensures cols[i].name != cols[j].name {
        assert ColumnStatus(reserved, cols, j) == Ok;
      }
      forall i | 0 <= i < |cols|
        ensures ValidName(reserved, cols[i].name)
        ensures (cols[i].typ == Int32 ==> cols[i].size == 4) && (cols[i].typ == Int64 ==> cols[i].size == 8)
      {
        assert ColumnStatus(reserved, cols, i) == Ok;
      }
    } else {
      var j := FirstFault(reserved, cols, 0);
    }
  }

  lemma {:induction false} FirstFault(reserved: Words, cols: seq<Column>, i: nat) returns (j: nat)
    requires i <= |cols| && ColumnsStatus(reserved, cols, i) != Ok
    ensures i <= j < |cols| && ColumnsStatus(reserved, cols, i) == ColumnStatus(reserved, cols, j) != Ok
    ensures forall k :: i <= k < j ==> ColumnStatus(reserved, cols, k) == Ok
    decreases |cols| - i
  {
    hide ColumnStatus;
    j := i;
    if ColumnStatus(reserved, cols, i) == Ok {
      j := FirstFault(reserved, cols, i + 1);
    }
  }

  predicate SizeFine(c: Column) { (c.typ == Int32 ==> c.size == 4) && (c.typ == Int64 ==> c.size == 8) }

  /** The name of column `k` is that of an earlier one. */
  predicate Repeats(cols: seq<Column>, k: nat)
    requires k < |cols|
  {
    exists j :: 0 <= j < k && cols[j].name == cols[k].name
  }

  /** Every struct gets the status of the first check it fails, if any; `k` is its first column at fault. */
  lemma {:induction false} RegisterStatusIs(reserved: Words, schemas: seq<Schema>, name: string, cols: seq<Column>)
      returns (k: nat)
    ensures k <= |cols| && RegisterStatus(reserved, schemas, name, cols) ==
            if |cols| == 0 then InvalidArg
            else if |cols| > 64 then TooManyColumns
            else if !ValidName(reserved, name) then InvalidName
            else if exists i :: 0 <= i < |schemas| && schemas[i].name == name then DuplicateSchema
            else if k == |cols| then Ok
            else if !ValidName(reserved, cols[k].name) then InvalidName
            else if Repeats(cols, k) then DuplicateColumn else InvalidArg
    ensures k < |cols| ==>
              !ValidName(reserved, cols[k].name) || Repeats(cols, k) || !SizeFine(cols[k])
    ensures forall i :: 0 <= i < k ==> ValidName(reserved, cols[i].name) && !Repeats(cols, i) && SizeFine(cols[i])
  {
    hide ValidName, ColumnsStatus;
    k := |cols|;
    if ColumnsStatus(reserved, cols, 0) != Ok {
      k := FirstFault(reserved, cols, 0);
    } else {
      ColumnsOk(reserved, cols, 0);
    }
    forall i | 0 <= i < k ensures ValidName(reserved, cols[i].name) && !Repeats(cols, i) && SizeFine(cols[i]) {
      assert ColumnStatus(reserved, cols, i) == Ok;
    }
  }

  /** Registered names can be quoted as they stand, and columns are told apart by name. */
  lemma {:induction false} SchemaIsPlain(reserved: Words, s: Schema)
    requires SchemaOk(reserved, s)
    ensures PlainSchema(s) && Distinct(Names(s))
  {
    hide FirstKey;
    FirstKeyMeans(s.cols, 0);
    forall i | 0 <= i < |s.cols| ensures Plain(Names(s)[i]) { assert ColumnStatus(reserved, s.cols, i) == Ok; }
    forall i, j | 0 <= i < j < |s.cols| ensures Names(s)[i] != Names(s)[j] {
      assert ColumnStatus(reserved, s.cols, j) == Ok;
    }
  }

  /** A registry's schemas are ones every call can work with. */
  lemma {:induction false} RegistryIsPlain(reserved: Words, schemas: seq<Schema>)
    requires RegistryOk(reserved, schemas)
    ensures SchemasOk(schemas)
  {
    hide SchemaOk, PlainSchema;
    forall s | s in schemas ensures PlainSchema(s) {
      var i :| 0 <= i < |schemas| && schemas[i] == s;
      SchemaIsPlain(reserved, schemas[i]);
    }
  }

  lemma {:induction false} RegisterKeeps(reserved: Words, schemas: seq<Schema>, name: string, cols: seq<Column>)
    requires RegistryOk(reserved, schemas) && RegisterStatus(reserved, schemas, name, cols) == Ok
    ensures RegistryOk(reserved, schemas + [NewSchema(name, cols)])
  {
    hide ValidName, FirstKey, ColumnStatus;
    ColumnsOk(reserved, cols, 0);
  }

  /** The schemas without the one called `name`. */
  function Unregistered(schemas: seq<Schema>, name: string): seq<Schema> {
    if schemas == [] then [] else if schemas[0].name == name then schemas[1..]
        else [schemas[0]] + Unregistered(schemas[1..], name)
  }

  /** Taking back a registration gives the registry there was. */
  lemma {:induction false} UnregisterUndoes(schemas: seq<Schema>, s: Schema)
    requires forall i :: 0 <= i < |schemas| ==> schemas[i].name != s.name
    ensures Unregistered(schemas + [s], s.name) == schemas
  {
    if schemas != [] {
      UnregisterUndoes(schemas[1..], s);
      assert (schemas + [s])[1..] == schemas[1..] + [s];
    }
  }

  /** A registered schema is found under its name. */
  lemma {:induction false} FindRegistered(schemas: seq<Schema>, s: Schema)
    requires forall i :: 0 <= i < |schemas| ==> schemas[i].name != s.name
    ensures FindSchema(schemas + [s], s.name) == Some(s)
  {
    if schemas != [] {
      FindRegistered(schemas[1..], s);
      assert (schemas + [s])[1..] == schemas[1..] + [s];
    }
  }

  /** Which allocations of a registration succeed: the larger array, and the copies of the names and columns. */
  datatype Memory = Memory(grow: bool, copy: bool)

  class SchemaRegistry {
    const reserved: Words
    var entries: array<Schema>
    var count: nat
    ghost var schemas: seq<Schema> // the registered schemas, oldest first

    ghost predicate Valid()
      reads this, entries
    {
      count <= entries.Length && schemas == entries[..count] && RegistryOk(reserved, schemas)
    }

    constructor (reserved: Words)
      ensures Valid() && schemas == [] && this.reserved == reserved && fresh(entries)
    {
      this.reserved := reserved;
      entries := new Schema[0](_ => Schema("", [], -1));
      count := 0;
      schemas := [];
    }

    /** Checks the columns in order and reports the first fault. */
    method CheckColumns(cols: seq<Column>) returns (status: Status)
      ensures status == ColumnsStatus(reserved, cols, 0)
    {
      hide ValidName;
      for i := 0 to |cols|
        invariant ColumnsStatus(reserved, cols, 0) == ColumnsStatus(reserved, cols, i)
      {
        var valid := IdentifierValid(reserved, cols[i].name);
        if !valid { return InvalidName; }
        for j := 0 to i
          invariant forall k :: 0 <= k < j ==> cols[k].name != cols[i].name
        {
          if cols[j].name == cols[i].name { return DuplicateColumn; }
        }
        if cols[i].typ == Int32 && cols[i].size != 4 { return InvalidArg; }
        if cols[i].typ == Int64 && cols[i].size != 8 { return InvalidArg; }
      }
      return Ok;
    }

    method HasName(name: string) returns (found: bool)
      requires Valid()
      ensures found <==> exists i :: 0 <= i < |schemas| && schemas[i].name == name
    {
      hide RegistryOk;
      for i := 0 to count
        invariant forall j :: 0 <= j < i ==> schemas[j].name != name
      {
        if entries[i].name == name {
          assert schemas[i].name == name;
          return true;
        }
      }
      return false;
    }

    /** Doubles the array, from 8 on; the schemas move to the new one. */
    method Grow(ok: bool) returns (status: Status)
      requires Valid() && count == entries.Length
      modifies this`entries
      ensures Valid() && (fresh(entries) || entries == old(entries)) && status == if ok then Ok else NoMemory
      ensures status == Ok ==> count < entries.Length
    {
      hide RegistryOk;
      if !ok { return NoMemory; }
      var capacity := if entries.Length == 0 then 8 else 2 * entries.Length;
      var bigger := new Schema[capacity](_ => Schema("", [], -1));
      forall i | 0 <= i < count { bigger[i] := entries[i]; }
      entries := bigger;
      assert entries[..count] == schemas;
      return Ok;
    }

    /** Index of the first key column. */
    method KeyIndex(cols: seq<Column>) returns (k: int)
      ensures k == FirstKey(cols, 0)
    {
      for i := 0 to |cols|
        invariant FirstKey(cols, 0) == FirstKey(cols, i)
      {
        if cols[i].primaryKey { return i; }
      }
      return -1;
    }

    /** Appends a schema that passes all checks; otherwise the registry stays as it is. */
    method Register(name: string, cols: seq<Column>, mem: Memory) returns (status: Status)
      requires Valid()
      modifies this, entries
      ensures Valid() && (fresh(entries) || entries == old(entries))
      ensures status == NoMemory || status == RegisterStatus(reserved, old(schemas), name, cols)
      ensures status == NoMemory <==>
                && RegisterStatus(reserved, old(schemas), name, cols) == Ok
                && (!mem.copy || (!mem.grow && old(count) == old(entries.Length)))
      ensures schemas == if status == Ok then old(schemas) + [NewSchema(name, cols)] else old(schemas)
    {
      hide RegistryOk, ValidName, ColumnsStatus;
      if cols == [] { return InvalidArg; }
      if |cols| > MAX_COLUMNS { return TooManyColumns; }
      var valid := IdentifierValid(reserved, name);
      if !valid { return InvalidName; }
      var found := HasName(name);
      if found { return DuplicateSchema; }
      status := CheckColumns(cols);
      if status != Ok { return; }
      if count == entries.Length {
        status := Grow(mem.grow);
        if status != Ok { return; }
      }
      if !mem.copy { return NoMemory; }
      Append(name, cols);
    }

    method Append(name: string, cols: seq<Column>)
      requires Valid() && count < entries.Length && RegisterStatus(reserved, schemas, name, cols) == Ok
      modifies this`count, this`schemas, entries
      ensures Valid() && schemas == old(schemas) + [NewSchema(name, cols)]
    {
      RegisterKeeps(reserved, schemas, name, cols);
      hide RegistryOk, ValidName, ColumnsStatus, RegisterStatus;
      var k := KeyIndex(cols);
      entries[count] := Schema(name, cols, k);
      count := count + 1;
      schemas := schemas + [NewSchema(name, cols)];
      assert entries[..count] == entries[..count - 1] + [entries[count - 1]];
    }

    method Lookup(name: string) returns (s: Option<Schema>)
      requires Valid()
      ensures s == FindSchema(schemas, name)
    {
      hide RegistryOk;
      assert schemas[0..] == schemas;
      for i := 0 to count
        invariant FindSchema(schemas, name) == FindSchema(schemas[i..], name)
      {
        assert schemas[i..][0] == entries[i] && schemas[i..][1..] == schemas[i + 1..];
        if entries[i].name == name { return Some(entries[i]); }
      }
      return None;
    }

    /** The first schema of that name, or -1. */
    method IndexOfName(name: string) returns (i: int)
      requires Valid()
      ensures -1 <= i < |schemas| && (i >= 0 ==> schemas[i].name == name)
      ensures forall j :: 0 <= j < (if i >= 0 then i else |schemas|) ==> schemas[j].name != name
    {
      hide RegistryOk;
      for k := 0 to count
        invariant forall j :: 0 <= j < k ==> schemas[j].name != name
      {
        if entries[k].name == name { return k; }
      }
      return -1;
    }

    method RemoveAt(i: nat)
      requires Valid() && i < count
      modifies this`count, this`schemas, entries
      ensures Valid() && schemas == old(schemas[..i] + schemas[i + 1..])
    {
      RemoveKeeps(reserved, schemas, i);
      hide RegistryOk;
      ShiftDown(entries, i, count);
      count := count - 1;
      schemas := schemas[..i] + schemas[i + 1..];
    }

    /** Removes a schema and closes the gap. */
    method Unregister(name: string) returns (status: Status)
      requires Valid()
      modifies this`count, this`schemas, entries
      ensures Valid() && schemas == Unregistered(old(schemas), name)
      ensures status == if exists i :: 0 <= i < |old(schemas)| && old(schemas)[i].name == name then Ok
              else UnknownStruct
    {
      hide RegistryOk, Unregistered;
      var i := IndexOfName(name);
      if i < 0 {
        UnregisteredNone(schemas, name);
        return UnknownStruct;
      }
      UnregisteredAt(schemas, i);
      RemoveAt(i);
      return Ok;
    }
  }

  /** Moves the entries after `i` down by one. */
  method ShiftDown(entries: array<Schema>, i: nat, count: nat)
    requires i < count <= entries.Length
    modifies entries
    ensures entries[..count - 1] == old(entries[..i] + entries[i + 1..count])
  {
    for j := i + 1 to count
      invariant forall k :: 0 <= k < count ==> entries[k] == old(entries[if i <= k < j - 1 then k + 1 else k])
    {
      entries[j - 1] := entries[j];
    }
  }

  lemma {:induction false} UnregisteredAt(schemas: seq<Schema>, i: nat)
    requires i < |schemas| && forall j :: 0 <= j < i ==> schemas[j].name != schemas[i].name
    ensures Unregistered(schemas, schemas[i].name) == schemas[..i] + schemas[i + 1..]
  {
    if i > 0 {
      UnregisteredAt(schemas[1..], i - 1);
      assert [schemas[0]] + (schemas[1..][..i - 1] + schemas[1..][i..]) == schemas[..i] + schemas[i + 1..];
    }
  }

  lemma {:induction false} UnregisteredNone(schemas: seq<Schema>, name: string)
    requires forall j :: 0 <= j < |schemas| ==> schemas[j].name != name
    ensures Unregistered(schemas, name) == schemas
  {
    if schemas != [] {
      UnregisteredNone(schemas[1..], name);
    }
  }

  lemma {:induction false} RemoveKeeps(reserved: Words, schemas: seq<Schema>, i: nat)
    requires RegistryOk(reserved, schemas) && i < |schemas|
    ensures RegistryOk(reserved, schemas[..i] + schemas[i + 1..])
  {
    hide SchemaOk;
  }
}
