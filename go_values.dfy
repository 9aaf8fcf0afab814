/** Dynamically typed values as the registry sees them. Go's reflection
    (`reflect.Type`, `ConvertibleTo`/`Convert`, `Zero`, the `sql.Scanner`
    interface) is replaced by a closed set of type tags and a `Reflection`
    record of abstract capabilities. */
module GoValues {
  import opened Wrappers

  /** Go's `int64`. */
  type int64 = i: int | -0x8000_0000_0000_0000 <= i < 0x8000_0000_0000_0000

  /** The in-memory Go type of a field (`structField.Type`) or of a value. */
  datatype GoType =
    | BoolType
    | Int64Type
    | Int64SliceType
      /** `*interface{}`: the type of the "no value" marker */
    | NoValueType
      /** the concrete type of a record-set handle */
    | RecordCollectionType
      /** any other Go type, by name (for example a date type that implements `sql.Scanner`) */
    | NamedType(name: string)

  /** A record-set handle: all this core asks of it is `Ids()`. */
  datatype RecordSet = RecordSet(ids: seq<int64>)

  /** A value held by a `FieldMap` entry (a Go `interface{}`). */
  datatype Value =
      /** the untyped `nil` interface, which is also what a SQL NULL scans to */
    | Nil
      /** `(*interface{})(nil)`: a typed nil pointer, the explicit "no value" marker
          of a nullable foreign-key relation; it is not the untyped `nil` */
    | NoValue
    | Bool(b: bool)
    | Int64(i: int64)
    | Int64Slice(ids: seq<int64>)
    | Records(records: RecordSet)
      /** a value of `NamedType(typeName)`, its contents left opaque */
    | Other(typeName: string, repr: seq<int>)

  /** `reflect.TypeOf(v)`: the dynamic type of `v`, `None` for untyped `nil`. */
  function TypeOf(v: Value): Option<GoType>
  {
    match v
    case Nil => None
    case NoValue => Some(NoValueType)
    case Bool(_) => Some(BoolType)
    case Int64(_) => Some(Int64Type)
    case Int64Slice(_) => Some(Int64SliceType)
    case Records(_) => Some(RecordCollectionType)
    case Other(n, _) => Some(NamedType(n))
  }

  /** `reflect.Zero(t)`: the zero value of `t`, which is a value of type `t`. */
  function Zero(t: GoType): (z: Value)
    ensures TypeOf(z) == Some(t)
  {
    match t
    case BoolType => Bool(false)
    case Int64Type => Int64(0)
    case Int64SliceType => Int64Slice([])
    case NoValueType => NoValue
    case RecordCollectionType => Records(RecordSet([]))
    case NamedType(n) => Other(n, [])
  }

  /** The reflection capabilities the conversion consults, left abstract:
      - `implementsScanner(t)`: `reflect.PtrTo(t)` implements `sql.Scanner`;
      - `scan(t, v)`: the value of type `t` that `(*t).Scan(v)` produces;
      - `convert(v, t)`: `Some(v.Convert(t))` when `v`'s type is `ConvertibleTo(t)`, else `None`. */
  datatype Reflection = Reflection(
    implementsScanner: GoType -> bool,
    scan: (GoType, Value) -> Value,
    convert: (Value, GoType) -> Option<Value>)

  /** The kind of a field (package `fieldtype`). */
  datatype FieldType =
    | Binary | Boolean | Char | Date | DateTime | Float | HTML | Integer
    | Many2Many | Many2One | One2Many | One2One | Rev2One | Selection | Text

  /** `fieldtype.Type.IsFKRelationType`: the kinds stored as a foreign-key column. */
  predicate IsFKRelationType(t: FieldType)
  {
    t == Many2One || t == One2One
  }
}
