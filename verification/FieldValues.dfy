/** Member values and the D-Bus values they come from. */
module FieldValues {
  import opened Options

  datatype IntKind = Int64 | UInt64 | Int32 | UInt32 | Int16 | UInt16 | UInt8

  datatype FieldValue =
    | StrValue(text: string)
    | IntValue(kind: IntKind, n: int)
    | DoubleValue(r: real)
    | BoolValue(flag: bool)

  datatype Association = Association(source: string, destination: string, endpoint: string)

  /** A D-Bus property value; `Values` is a list of strings or of doubles. */
  datatype Variant =
    | Scalar(value: FieldValue)
    | Values(values: seq<FieldValue>)
    | Associations(list: seq<Association>)

  type Properties = map<string, Variant>

  type Members = map<string, FieldValue>

  const NOT_AVAILABLE := StrValue("N/A")

  /** `getField(name)->getValue()`: a missing member reads as the not-available value. */
  function Field(members: Members, name: string): FieldValue {
    if name in members then members[name] else NOT_AVAILABLE
  }

  const META_OBJECT_PATH := "__meta_field__object_path"
  const META_OBJECT_SERVICE := "__meta_field__object_service"

  /** A formatter; `None` stands for the exception about a value of the wrong type. */
  type Formatter = FieldValue -> Option<FieldValue>

  /** The formatters of one property, from position `i` on. */
  function Format(formatters: seq<Formatter>, i: nat, value: FieldValue): Option<FieldValue>
    decreases |formatters| - i
  {
    if i >= |formatters| then Some(value)
    else match formatters[i](value)
      case None => None
      case Some(next) => Format(formatters, i + 1, next)
  }
}
