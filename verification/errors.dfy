/**
 * The three error kinds of the accessor: a path that does not resolve
 * against the tree, a map key that is not a string, and a malformed path.
 */
module Errors {
  import opened Scalars
  import Strings

  datatype Error =
      /**
       * `key` is the key that could not be resolved; `stack` holds the keys of
       * the enclosing frames, nearest ancestor first, one appended per frame
       * as the error travels back up the recursion.
       */
    | NoSuchPath(message: string, key: string, stack: seq<string>)
      /** A map key that is not a string, carried for the diagnostic. */
    | InvalidKey(value: Scalar)
    | InvalidPath(message: string)

  /** A resolution failure at the frame that found it: no ancestors yet. */
  function NewNoSuchPathError(message: string, key: string): (r: Error)
    ensures r.NoSuchPath? && r.message == message && r.key == key && r.stack == []
  {
    NoSuchPath(message, key, [])
  }

  /** Records one more enclosing frame: its key goes to the end of the stack. */
  function PushPath(e: Error, key: string): (r: Error)
    requires e.NoSuchPath?
    ensures r.NoSuchPath? && r.message == e.message && r.key == e.key
    ensures r.stack == e.stack + [key]
  {
    e.(stack := e.stack + [key])
  }

  /** Go's `%q` for a key made of printable characters other than quote and backslash. */
  function Quote(s: string): string {
    "\"" + s + "\""
  }

  /** The text of `Error()` for each kind. */
  function Render(e: Error): (r: string)
    ensures e.NoSuchPath? ==> |r| > |e.message| && r[..|e.message|] == e.message && r[|r| - 1] == '/'
    ensures e.InvalidPath? ==> r == "path is invalid: " + e.message
    ensures e.InvalidKey? ==> |r| > |TypeName(e.value)| && r[..|TypeName(e.value)|] == TypeName(e.value)
  {
    match e
    case NoSuchPath(message, key, stack) =>
      message + ": about " + Quote(key) + ": at " + Strings.Join(stack) + "/"
    case InvalidKey(v) => TypeName(v) + " is not a string"
    case InvalidPath(message) => "path is invalid: " + message
  }
}
