/**
 * The package-level entry points: look up or update a plain document by a
 * textual path, going through path parsing, tree construction, resolution
 * and unwrapping in that order.
 */
module Util {
  import opened Wrappers
  import opened Errors
  import opened Paths
  import opened Trees
  import opened Construction
  import Accessors

  /** The document `Update` produces when the path resolves and the value converts. */
  ghost function Updated(d: Dynamic, keys: seq<string>, v: Dynamic): Dynamic
    requires Constructible(d) && Constructible(v) && At(Build(d), keys).Some?
  {
    Unwrapped(Replace(Build(d), keys, Build(v)).value)
  }

  /**
   * The value at `text` in `d`: the whole document for "/", otherwise the
   * unwrapped node the parsed path resolves to, or the first error met.
   */
  method Get(d: Dynamic, text: string) returns (r: Result<Dynamic, Error>)
    ensures text == "/" ==> r == Success(d)
    ensures text != "/" && !ValidKeys(Segments(text)) ==> r == Failure(InvalidPath("empty key found"))
    ensures text != "/" && ValidKeys(Segments(text)) && !Constructible(d) ==>
      r.Failure? && r.error.InvalidKey? && r.error.value in Culprits(d)
    ensures text != "/" && ValidKeys(Segments(text)) && Constructible(d) ==>
      && (r.Success? <==> At(Build(d), Segments(text)).Some?)
      && (r.Success? ==> r.value == Unwrapped(At(Build(d), Segments(text)).value))
      && (r.Failure? ==> Accessors.StopsAt(Build(d), Segments(text), r.error))
  {
    if text == "/" {
      return Success(d);
    }
    var p := ParsePath(text);
    if p.Failure? {
      return Failure(p.error);
    }
    var acc := NewAccessor(d);
    if acc.Failure? {
      return Failure(acc.error);
    }
    var node := Accessors.Get(acc.value, p.value);
    if node.Failure? {
      return Failure(node.error);
    }
    var u := Accessors.Unwrap(node.value);
    r := Success(u);
  }

  /**
   * `d` with `v` stored at `text`: "/" is refused, and otherwise the first
   * error met is returned, from parsing, converting `d`, resolving the path or
   * converting `v`.
   */
  method Update(d: Dynamic, text: string, v: Dynamic) returns (r: Result<Dynamic, Error>)
    ensures text == "/" ==> r == Failure(InvalidPath("/"))
    ensures text != "/" && !ValidKeys(Segments(text)) ==> r == Failure(InvalidPath("empty key found"))
    ensures text != "/" && ValidKeys(Segments(text)) && !Constructible(d) ==>
      r.Failure? && r.error.InvalidKey? && r.error.value in Culprits(d)
    ensures text != "/" && ValidKeys(Segments(text)) && Constructible(d) && At(Build(d), Segments(text)).None? ==>
      r.Failure? && Accessors.StopsAt(Build(d), Segments(text), r.error)
    ensures text != "/" && ValidKeys(Segments(text)) && Constructible(d) && At(Build(d), Segments(text)).Some? ==>
      && (Constructible(v) ==> r == Success(Updated(d, Segments(text), v)))
      && (!Constructible(v) ==> r.Failure? && r.error.InvalidKey? && r.error.value in Culprits(v))
  {
    if text == "/" {
      return Failure(InvalidPath("/"));
    }
    var p := ParsePath(text);
    if p.Failure? {
      return Failure(p.error);
    }
    var acc := NewAccessor(d);
    if acc.Failure? {
      return Failure(acc.error);
    }
    var updated, err := Accessors.Set(acc.value, p.value, v);
    if err.Some? {
      return Failure(err.value);
    }
    var u := Accessors.Unwrap(updated);
    r := Success(u);
  }

  /**
   * After a successful update, the path resolves to the tree built from the
   * stored value, so looking it up gives back `Unwrap(NewAccessor(v))`;
   * this holds for any convertible document and value, any-keyed maps and
   * accessors included.
   */
  lemma UpdateThenGet(d: Dynamic, keys: seq<string>, v: Dynamic)
    requires Constructible(d) && Constructible(v) && At(Build(d), keys).Some?
    ensures Constructible(Updated(d, keys, v))
    ensures At(Build(Updated(d, keys, v)), keys) == Some(Build(v))
    ensures Unwrapped(At(Build(Updated(d, keys, v)), keys).value) == Unwrapped(Build(v))
  {
    var a := Replace(Build(d), keys, Build(v)).value;
    BuildAfterUnwrap(a);
    ReplaceAt(Build(d), keys, Build(v));
  }

  /** For a plain document and a plain value, the lookup after the update gives the value itself. */
  lemma UpdateThenGetPlain(d: Dynamic, keys: seq<string>, v: Dynamic)
    requires Plain(d) && Plain(v)
    requires DocAt(d, keys).Some?
    ensures Constructible(d) && Constructible(v) && At(Build(d), keys).Some?
    ensures Constructible(Updated(d, keys, v))
    ensures At(Build(Updated(d, keys, v)), keys).Some?
    ensures Unwrapped(At(Build(Updated(d, keys, v)), keys).value) == v
  {
    BuildAt(d, keys);
    UnwrapAfterBuild(v);
    UpdateThenGet(d, keys, v);
  }

  /** An update leaves the nodes along every diverging path as they were. */
  lemma UpdateKeepsOthers(d: Dynamic, keys: seq<string>, v: Dynamic, q: seq<string>)
    requires Constructible(d) && Constructible(v) && At(Build(d), keys).Some?
    requires Diverge(Build(d), keys, q)
    ensures Constructible(Updated(d, keys, v))
    ensures At(Build(Updated(d, keys, v)), q) == At(Build(d), q)
  {
    var a := Replace(Build(d), keys, Build(v)).value;
    BuildAfterUnwrap(a);
    ReplaceFrame(Build(d), keys, Build(v), q);
  }
}
