/** Types shared by every component: result codes, columns, schemas and SQL values. */
module Core {

  datatype Option<+T> = None | Some(value: T)

  datatype Status =
    | Ok
    | WarnTruncated
    | InvalidArg
    | InvalidName
    | NoMemory
    | DuplicateSchema
    | DuplicateColumn
    | TooManyColumns
    | UnknownStruct
    | UnknownColumn
    | SchemaMismatch
    | NotFound
    | MultipleRows
    | NotNullViolation
    | CapacityExceeded
    | NoActiveTx
    | NestedTx
    | DriverError
    | Internal

  type byte = b: int | 0 <= b < 256

  datatype SqlType = Int32 | Int64 | Real | Text | Blob

  datatype Dialect = Sqlite | Postgres

  datatype CmpOp = Eq | Ne | Lt | Le | Gt | Ge

  /** A column definition; the three flags are the bits of the source's `flags` word. */
  datatype Column = Column(
    name: string, typ: SqlType, offset: nat, size: nat,
    primaryKey: bool, nullable: bool, unique: bool)

  /** A registered schema; `pkIndex` is the index of the key column, or -1. */
  datatype Schema = Schema(name: string, cols: seq<Column>, pkIndex: int)

  /** A value as it crosses the driver boundary. A REAL is its eight raw bytes. */
  datatype Value =
    | NullValue
    | IntValue(i: int)
    | RealValue(bits: seq<byte>)
    | TextValue(text: seq<byte>)
    | BlobValue(bytes: seq<byte>)

  type Row = seq<Value>

  function Min(a: int, b: int): (m: int)
    ensures m <= a && m <= b && (m == a || m == b)
  {
    if a <= b then a else b
  }

  function Max(a: int, b: int): (m: int)
    ensures a <= m && b <= m && (m == a || m == b)
  {
    if a <= b then b else a
  }

  ghost predicate Distinct<T>(s: seq<T>) {
    forall i, j :: 0 <= i < j < |s| ==> s[i] != s[j]
  }
}
