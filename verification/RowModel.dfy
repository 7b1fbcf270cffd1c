/** The connector-neutral column layout, its Arrow storage, and the reserved namespace. */
module RowModel {

  datatype Option<+T> = None | Some(value: T)

  datatype Logical =
    | Unknown | Bool | Int16 | Int32 | Int64 | Float32 | Float64 | Decimal | String | Bytes
    | Date | Time | Timestamp | TimestampTZ | JSON | UUID | Array | Other(spelling: string)

  datatype Field = Field(name: string, nullable: bool, logical: Logical, native: string, precision: int, scale: int)

  datatype Schema = Schema(
    resource: string, destination: string, fields: seq<Field>, primaryKey: seq<string>,
    engine: string, envelope: bool, projectedEnvelope: bool)

  /** A value's type as the transform compiler tracks it. */
  datatype ValueType = ValueType(logical: Logical, precision: int, scale: int)

  function TypeOf(f: Field): ValueType { ValueType(f.logical, f.precision, f.scale) }

  /** Arrow storage types. */
  datatype ArrowType =
    | ABool | AInt16 | AInt32 | AInt64 | AFloat32 | AFloat64 | ADecimal128(precision: int, scale: int)
    | AUtf8 | ABinary | ADate32 | ATime64 | ATimestamp(utc: bool)

  const MAX_DECIMAL_PRECISION := 38

  /** arrowbatch.Type: what a logical type is stored as. */
  function StorageOf(t: ValueType): ArrowType {
    match t.logical
    case Bool => ABool
    case Int16 => AInt16
    case Int32 => AInt32
    case Int64 => AInt64
    case Float32 => AFloat32
    case Float64 => AFloat64
    case Decimal =>
      if 0 < t.precision <= MAX_DECIMAL_PRECISION then ADecimal128(t.precision, t.scale) else AUtf8
    case Bytes => ABinary
    case Date => ADate32
    case Time => ATime64
    case Timestamp => ATimestamp(false)
    case TimestampTZ => ATimestamp(true)
    case _ => AUtf8
  }

  function Names(fields: seq<Field>): (names: set<string>) {
    set i | 0 <= i < |fields| :: fields[i].name
  }

  ghost predicate DistinctNames(fields: seq<Field>) {
    forall i, j :: 0 <= i < j < |fields| ==> fields[i].name != fields[j].name
  }

  function LowerChar(c: char): char {
    if 'A' <= c <= 'Z' then (c as int - 'A' as int + 'a' as int) as char else c
  }

  function Lower(s: string): (t: string)
    ensures |t| == |s|
  {
    seq(|s|, i requires 0 <= i < |s| => LowerChar(s[i]))
  }

  const RESERVED_PREFIX := "_filament_"

  /** Names Filament keeps for its own columns. */
  predicate IsReserved(name: string) { RESERVED_PREFIX <= Lower(name) }
}
