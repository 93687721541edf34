/**
 * The opaque leaf values of a document: everything that is neither a map
 * nor a list (numbers, strings, booleans, timestamps, null, ...). The model
 * only compares them for equality and renders them in error messages.
 */
module Scalars {
  import Decimal

  datatype Scalar =
    | Nil
    | Bool(b: bool)
    | Int(i: int)
    | Str(s: string)
      /** Any other value (a float, a timestamp, ...), known by its type name and its rendering. */
    | Other(typeName: string, text: string)

  /** The dynamic type name of a scalar (Go's `%T`). */
  function TypeName(v: Scalar): string {
    match v
    case Nil => "<nil>"
    case Bool(_) => "bool"
    case Int(_) => "int"
    case Str(_) => "string"
    case Other(t, _) => t
  }

  /** The default rendering of a scalar (Go's `%v`). */
  function Text(v: Scalar): string {
    match v
    case Nil => "<nil>"
    case Bool(b) => if b then "true" else "false"
    case Int(i) => Decimal.FormatInt(i)
    case Str(s) => s
    case Other(_, t) => t
  }

  /** `type(value)`, the description a value node puts in its "has no key" error. */
  function Describe(v: Scalar): string {
    TypeName(v) + "(" + Text(v) + ")"
  }
}
