/**
 * The values an option can hold once parsed: `None`, a boolean, an
 * integer, a string or a list of strings, with Python's truth test.
 */
module PyValues {
  datatype Value =
    | NoneValue
    | Bool(b: bool)
    | Int(i: int)
    | Str(s: string)
    | List(items: seq<string>)

  /** `bool(v)`: `None`, `False`, `0`, `""` and `[]` are false, everything else true. */
  predicate Truthy(v: Value)
  {
    match v
    case NoneValue => false
    case Bool(b) => b
    case Int(i) => i != 0
    case Str(s) => s != ""
    case List(items) => items != []
  }
}
