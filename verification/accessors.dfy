/**
 * The accessor operations, dispatched over the three node kinds: `Get` and
 * `Set` resolve a path one key per level, `Unwrap` flattens a tree back to a
 * document, and `Foreach` visits every scalar leaf.
 */
module Accessors {
  import opened Wrappers
  import opened Scalars
  import opened Decimal
  import opened Errors
  import opened Paths
  import opened Trees
  import opened Construction

  // ---------------------------------------------------------------- Get

  /**
   * `r` is what resolving the keys `ks` from `a` yields: the node that
   * direct indexing reaches when there is one, and otherwise an error that
   * says where and why the resolution stopped.
   */
  ghost predicate Resolution(a: Accessor, ks: seq<string>, r: Result<Accessor, Error>) {
    && (r.Success? <==> At(a, ks).Some?)
    && (r.Success? ==> r.value == At(a, ks).value)
    && (r.Failure? ==> StopsAt(a, ks, r.error))
  }

  /**
   * `e` reports that resolving `ks` from `a` stopped at key number
   * `|e.stack|`: the keys above it are the stack, nearest ancestor first, and
   * the message says why the node reached there has no such child.
   */
  ghost predicate StopsAt(a: Accessor, ks: seq<string>, e: Error) {
    && e.NoSuchPath? && |e.stack| < |ks| && e.key == ks[|e.stack|]
    && e.stack == Reversed(ks[..|e.stack|])
    && At(a, ks[..|e.stack|]).Some?
    && Child(At(a, ks[..|e.stack|]).value, e.key).None?
    && e.message == Reason(At(a, ks[..|e.stack|]).value, e.key)
  }

  /** Why `key` names no child of `a`, in the words the accessor reports. */
  function Reason(a: Accessor, key: string): string {
    match a
    case MapAccessor(_) => "no such key"
    case SliceAccessor(_) => if Atoi(key).None? then "not a number" else "index out of range"
    case ValueAccessor(v) => Describe(v) + " has no key"
  }

  /** The keys in reverse order: the stack lists the innermost ancestor first. */
  function Reversed(s: seq<string>): (r: seq<string>)
    ensures |r| == |s|
    ensures forall k :: 0 <= k < |s| ==> r[k] == s[|s| - 1 - k]
  {
    if s == [] then [] else Reversed(s[1..]) + [s[0]]
  }

  /**
   * The node at `path`, or the error that stopped the resolution: resolving
   * "a/b/x" in {"a": {"b": {"c": 1}}} fails about "x" with the stack
   * ["b", "a"].
   */
  function Get(a: Accessor, path: Path): (r: Result<Accessor, Error>)
    ensures Resolution(a, Route(path), r)
    decreases a, 2
  {
    match a
    case MapAccessor(m) => MapGet(m, path)
    case SliceAccessor(s) => SliceGet(s, path)
    case ValueAccessor(v) => ValueGet(v, path)
  }

  /** A map looks its head key up; an absent key is "no such key". */
  function MapGet(m: map<string, Accessor>, path: Path): (r: Result<Accessor, Error>)
    ensures Resolution(MapAccessor(m), Route(path), r)
    decreases MapAccessor(m), 1
  {
    if Key(path) !in m then
      StopsHere(MapAccessor(m), path);
      Failure(NewNoSuchPathError("no such key", Key(path)))
    else
      var r := GetFromChild(m[Key(path)], path);
      ChildStep(MapAccessor(m), m[Key(path)], path, r);
      r
  }

  /** A slice reads its head key as a decimal index and checks it against the length. */
  function SliceGet(s: seq<Accessor>, path: Path): (r: Result<Accessor, Error>)
    ensures Resolution(SliceAccessor(s), Route(path), r)
    decreases SliceAccessor(s), 1
  {
    match Atoi(Key(path))
    case None =>
      StopsHere(SliceAccessor(s), path);
      Failure(NewNoSuchPathError("not a number", Key(path)))
    case Some(i) =>
      if i < 0 || i >= |s| then
        StopsHere(SliceAccessor(s), path);
        Failure(NewNoSuchPathError("index out of range", Key(path)))
      else
        var r := GetFromChild(s[i], path);
        ChildStep(SliceAccessor(s), s[i], path, r);
        r
  }

  /** A scalar has no keys, so every path stops at it. */
  function ValueGet(v: Scalar, path: Path): (r: Result<Accessor, Error>)
    ensures Resolution(ValueAccessor(v), Route(path), r)
  {
    StopsHere(ValueAccessor(v), path);
    Failure(NewNoSuchPathError(Describe(v) + " has no key", Key(path)))
  }

  /** An error passing through the frame of `key`: resolution errors record the key. */
  function Annotate(e: Error, key: string): Error {
    if e.NoSuchPath? then PushPath(e, key) else e
  }

  /**
   * `r` resolves `ks` below `child`, as reported from the frame of `key`: a
   * failure carries `key` as its outermost stack entry, under the stop the
   * child reported.
   */
  ghost predicate ResolutionBelow(child: Accessor, key: string, ks: seq<string>, r: Result<Accessor, Error>) {
    && (r.Success? <==> At(child, ks).Some?)
    && (r.Success? ==> r.value == At(child, ks).value)
    && (r.Failure? ==>
          && r.error.NoSuchPath? && |r.error.stack| > 0
          && r.error.stack[|r.error.stack| - 1] == key
          && StopsAt(child, ks, r.error.(stack := r.error.stack[..|r.error.stack| - 1])))
  }

  /** The child itself when the path ends here, else the child's resolution of the rest. */
  function GetFromChild(child: Accessor, path: Path): (r: Result<Accessor, Error>)
    ensures SubPath(path).None? ==> r == Success(child)
    ensures SubPath(path).Some? ==> ResolutionBelow(child, Key(path), Route(path)[1..], r)
    decreases child, 3
  {
    match SubPath(path)
    case None => Success(child)
    case Some(sub) =>
      match Get(child, sub)
      case Success(r) => Success(r)
      case Failure(e) =>
        var pushed := Annotate(e, Key(path));
        assert pushed.stack[..|pushed.stack| - 1] == e.stack;
        Failure(pushed)
  }

  /** When the head key names no child, resolution stops right here, with an empty stack. */
  lemma StopsHere(a: Accessor, path: Path)
    requires Child(a, Key(path)).None?
    ensures StopsAt(a, Route(path), NewNoSuchPathError(Reason(a, Key(path)), Key(path)))
  {
    assert Route(path)[..0] == [];
  }

  /** A stop below the child `c` of `a` is a stop below `a`, one key deeper. */
  lemma StopsAtStep(a: Accessor, c: Accessor, ks: seq<string>, e: Error)
    requires |ks| >= 1 && Child(a, ks[0]) == Some(c)
    requires StopsAt(c, ks[1..], e)
    ensures StopsAt(a, ks, PushPath(e, ks[0]))
  {
    var j := |e.stack|;
    assert ks[..j + 1][1..] == ks[1..][..j];
    assert ks[..j + 1][0] == ks[0];
    assert At(a, ks[..j + 1]) == At(c, ks[1..][..j]);
  }

  /** What `getFromChild` reports for the child under the head key is the resolution from the parent. */
  lemma ChildStep(a: Accessor, c: Accessor, path: Path, r: Result<Accessor, Error>)
    requires Child(a, Key(path)) == Some(c)
    requires SubPath(path).None? ==> r == Success(c)
    requires SubPath(path).Some? ==> ResolutionBelow(c, Key(path), Route(path)[1..], r)
    ensures Resolution(a, Route(path), r)
  {
    if SubPath(path).None? {
      LastStep(a, c, Route(path), r);
    } else {
      DeeperStep(a, c, Route(path), r);
    }
  }

  /** The child under the last key is what the parent resolves the keys to. */
  lemma LastStep(a: Accessor, c: Accessor, ks: seq<string>, r: Result<Accessor, Error>)
    requires |ks| == 1 && Child(a, ks[0]) == Some(c) && r == Success(c)
    ensures Resolution(a, ks, r)
  {
    AtThroughChild(a, c, ks);
    assert ks[1..] == [];
  }

  /** The child's resolution of the remaining keys, reported from the head key's frame, is the parent's. */
  lemma DeeperStep(a: Accessor, c: Accessor, ks: seq<string>, r: Result<Accessor, Error>)
    requires |ks| >= 1 && Child(a, ks[0]) == Some(c)
    requires ResolutionBelow(c, ks[0], ks[1..], r)
    ensures Resolution(a, ks, r)
  {
    AtThroughChild(a, c, ks);
    if r.Failure? {
      StopsBelow(a, c, ks, r.error);
    }
  }

  lemma AtThroughChild(a: Accessor, c: Accessor, ks: seq<string>)
    requires |ks| >= 1 && Child(a, ks[0]) == Some(c)
    ensures At(a, ks) == At(c, ks[1..])
  {
  }

  /** An error whose outermost stack entry is the head key, over a stop below the child, is a stop below the parent. */
  lemma StopsBelow(a: Accessor, c: Accessor, ks: seq<string>, e: Error)
    requires |ks| >= 1 && Child(a, ks[0]) == Some(c)
    requires e.NoSuchPath? && |e.stack| > 0 && e.stack[|e.stack| - 1] == ks[0]
    requires StopsAt(c, ks[1..], e.(stack := e.stack[..|e.stack| - 1]))
    ensures StopsAt(a, ks, e)
  {
    var inner := e.(stack := e.stack[..|e.stack| - 1]);
    assert inner.stack + [ks[0]] == e.stack;
    StopsAtStep(a, c, ks, inner);
  }

  // ---------------------------------------------------------------- Set

  /**
   * What setting `v` at `path` in `a` yields: when the path resolves and `v`
   * converts, the tree with the node at the path replaced by the converted
   * value; otherwise `a` unchanged, with the resolution error `Get` reports
   * or a conversion error naming a key that is not a string.
   */
  ghost predicate SetOutcome(a: Accessor, path: Path, v: Dynamic, r: Accessor, err: Option<Error>) {
    SetOutcomeWith(a, path, v, Get(a, path), r, err)
  }

  /** `SetOutcome`, for a resolution that reported `got` for the path. */
  ghost predicate SetOutcomeWith(a: Accessor, path: Path, v: Dynamic, got: Result<Accessor, Error>,
                                 r: Accessor, err: Option<Error>) {
    && (err.Some? ==> r == a)
    && (got.Failure? ==> err == Some(got.error))
    && (got.Success? && Constructible(v) ==>
          err.None? && Replace(a, Route(path), Build(v)) == Some(r))
    && (got.Success? && !Constructible(v) ==>
          err.Some? && err.value.InvalidKey? && err.value.value in Culprits(v))
  }

  method Set(a: Accessor, path: Path, v: Dynamic) returns (r: Accessor, err: Option<Error>)
    ensures SetOutcome(a, path, v, r, err)
    decreases a, 2
  {
    match a
    case MapAccessor(m) => r, err := MapSet(m, path, v);
    case SliceAccessor(s) => r, err := SliceSet(s, path, v);
    case ValueAccessor(x) => r, err := ValueSet(x, path, v);
  }

  method MapSet(m: map<string, Accessor>, path: Path, v: Dynamic) returns (r: Accessor, err: Option<Error>)
    ensures SetOutcome(MapAccessor(m), path, v, r, err)
    decreases MapAccessor(m), 1
  {
    var key := Key(path);
    if key !in m {
      return MapAccessor(m), Some(NewNoSuchPathError("no such key", key));
    }
    assert Route(path)[0] == key;
    assert Get(MapAccessor(m), path) == GetFromChild(m[key], path);
    match SubPath(path)
    case None =>
      var acc := NewAccessor(v);
      if acc.Failure? {
        return MapAccessor(m), Some(acc.error);
      }
      assert Route(path)[1..] == [];
      r, err := MapAccessor(m[key := acc.value]), None;
    case Some(sub) =>
      var c, e := SetToChild(m[key], v, key, sub);
      if e.Some? {
        return MapAccessor(m), e;
      }
      r, err := MapAccessor(m[key := c]), None;
  }

  method SliceSet(s: seq<Accessor>, path: Path, v: Dynamic) returns (r: Accessor, err: Option<Error>)
    ensures SetOutcome(SliceAccessor(s), path, v, r, err)
    decreases SliceAccessor(s), 1
  {
    var key := Key(path);
    var n := Atoi(key);
    if n.None? {
      return SliceAccessor(s), Some(NewNoSuchPathError("not a number", key));
    }
    var i := n.value;
    if i < 0 || i >= |s| {
      return SliceAccessor(s), Some(NewNoSuchPathError("index out of range", key));
    }
    assert Route(path)[0] == key && Index(key, |s|) == Some(i);
    assert Get(SliceAccessor(s), path) == GetFromChild(s[i], path);
    match SubPath(path)
    case None =>
      var acc := NewAccessor(v);
      if acc.Failure? {
        return SliceAccessor(s), Some(acc.error);
      }
      assert Route(path)[1..] == [];
      r, err := SliceAccessor(s[i := acc.value]), None;
    case Some(sub) =>
      var c, e := SetToChild(s[i], v, key, sub);
      if e.Some? {
        return SliceAccessor(s), e;
      }
      r, err := SliceAccessor(s[i := c]), None;
  }

  /** A scalar has no keys to set, whatever the value. */
  method ValueSet(x: Scalar, path: Path, v: Dynamic) returns (r: Accessor, err: Option<Error>)
    ensures SetOutcome(ValueAccessor(x), path, v, r, err)
  {
    r := ValueAccessor(x);
    err := Some(NewNoSuchPathError(Describe(x) + " has no key", Key(path)));
  }

  /** Sets `v` at `sub` below `child`; a resolution error records `key` on its way up. */
  method SetToChild(child: Accessor, v: Dynamic, key: string, sub: Path) returns (r: Accessor, err: Option<Error>)
    ensures err.Some? ==> r == child
    ensures Get(child, sub).Failure? ==> err == Some(Annotate(Get(child, sub).error, key))
    ensures Get(child, sub).Success? && Constructible(v) ==>
      err.None? && Replace(child, Route(sub), Build(v)) == Some(r)
    ensures Get(child, sub).Success? && !Constructible(v) ==>
      err.Some? && err.value.InvalidKey? && err.value.value in Culprits(v)
    decreases child, 3
  {
    var e;
    r, e := Set(child, sub, v);
    err := if e.Some? then Some(Annotate(e.value, key)) else None;
  }

  // ------------------------------------------------------------- Unwrap

  method Unwrap(a: Accessor) returns (d: Dynamic)
    ensures d == Unwrapped(a)
    decreases a, 2
  {
    match a
    case MapAccessor(m) => d := MapUnwrap(m);
    case SliceAccessor(s) => d := SliceUnwrap(s);
    case ValueAccessor(x) => d := Atom(x);
  }

  /** A fresh string-keyed map holding every child's unwrapped value. */
  method MapUnwrap(m: map<string, Accessor>) returns (d: Dynamic)
    ensures d == Unwrapped(MapAccessor(m))
    decreases MapAccessor(m), 1
  {
    var result: map<string, Dynamic> := map[];
    var todo := m.Keys;
    while todo != {}
      invariant todo <= m.Keys
      invariant result.Keys == m.Keys - todo
      invariant forall k :: k in result ==> result[k] == Unwrapped(m[k])
      decreases todo
    {
      var k :| k in todo;
      var u := Unwrap(m[k]);
      result := result[k := u];
      todo := todo - {k};
    }
    assert result == map k | k in m :: Unwrapped(m[k]);
    d := StringMap(result);
  }

  /** A fresh list of the same length holding every element's unwrapped value. */
  method SliceUnwrap(s: seq<Accessor>) returns (d: Dynamic)
    ensures d == Unwrapped(SliceAccessor(s))
    decreases SliceAccessor(s), 1
  {
    var result := new Dynamic[|s|](_ => Atom(Nil));
    for i := 0 to |s|
      invariant forall j :: 0 <= j < i ==> result[j] == Unwrapped(s[j])
    {
      result[i] := Unwrap(s[i]);
    }
    assert result[..] == seq(|s|, i requires 0 <= i < |s| => Unwrapped(s[i]));
    d := List(result[..]);
  }

  // ------------------------------------------------------------ Foreach

  /** The leaves a trace of visitor calls has seen, as key lists with their scalars. */
  ghost function Visited(calls: seq<(Path, Scalar)>): set<(seq<string>, Scalar)> {
    set i | 0 <= i < |calls| :: (Keys(calls[i].0), calls[i].1)
  }

  /** The leaves `ls` seen from one level up, through the key `key`. */
  ghost function Prefixed(key: string, ls: set<(seq<string>, Scalar)>): set<(seq<string>, Scalar)> {
    set l | l in ls :: ([key] + l.0, l.1)
  }

  /**
   * `calls` is the trace of a visit of the leaves `ls` with visitor `f` that
   * ended with `err`: each call is at a distinct leaf, every call before the
   * last one returned no error, a visit that ends without error has called
   * `f` once on every leaf, and one that ends with an error stopped at the
   * first call that returned it.
   */
  ghost predicate Traversal<E>(ls: set<(seq<string>, Scalar)>, f: (Path, Scalar) -> Option<E>,
                               calls: seq<(Path, Scalar)>, err: Option<E>) {
    && Visited(calls) <= ls
    && Distinct(calls)
    && (forall i :: 0 <= i < |calls| - 1 ==> f(calls[i].0, calls[i].1).None?)
    && (err.None? ==> Visited(calls) == ls && Quiet(f, calls))
    && (err.Some? ==> |calls| > 0 && err == f(calls[|calls| - 1].0, calls[|calls| - 1].1))
  }

  method Foreach<E>(a: Accessor, f: (Path, Scalar) -> Option<E>) returns (calls: seq<(Path, Scalar)>, err: Option<E>)
    ensures Traversal(Leaves(a), f, calls, err)
    decreases a, 2
  {
    match a
    case MapAccessor(m) => calls, err := MapForeach(m, f);
    case SliceAccessor(s) => calls, err := SliceForeach(s, f);
    case ValueAccessor(x) => calls, err := ValueForeach(x, f);
  }

  /** A scalar is visited once, at the phantom path. */
  method ValueForeach<E>(x: Scalar, f: (Path, Scalar) -> Option<E>) returns (calls: seq<(Path, Scalar)>, err: Option<E>)
    ensures Traversal(Leaves(ValueAccessor(x)), f, calls, err)
    ensures calls == [(PhantomPath, x)]
  {
    calls := [(PhantomPath, x)];
    err := f(PhantomPath, x);
    assert Keys(PhantomPath) == [];
    assert (Keys(calls[0].0), calls[0].1) in Visited(calls);
  }

  /** Visits the leaves below `child`, each reported to `f` with `key` pushed on its path. */
  method ForeachChild<E>(child: Accessor, key: string, f: (Path, Scalar) -> Option<E>)
    returns (calls: seq<(Path, Scalar)>, err: Option<E>)
    ensures Traversal(Prefixed(key, Leaves(child)), f, calls, err)
    ensures forall i :: 0 <= i < |calls| ==> Keys(calls[i].0) != [] && Keys(calls[i].0)[0] == key
    decreases child, 3
  {
    var g := (p: Path, x: Scalar) => f(PushKey(p, key), x);
    var inner;
    inner, err := Foreach(child, g);
    calls := seq(|inner|, i requires 0 <= i < |inner| => (PushKey(inner[i].0, key), inner[i].1));
    VisitedLifted(inner, key, calls);
    forall i, j | 0 <= i < j < |calls| ensures Keys(calls[i].0) != Keys(calls[j].0) {
      assert Keys(calls[i].0)[1..] == Keys(inner[i].0);
      assert Keys(calls[j].0)[1..] == Keys(inner[j].0);
    }
  }

  lemma VisitedLifted(inner: seq<(Path, Scalar)>, key: string, calls: seq<(Path, Scalar)>)
    requires |calls| == |inner|
    requires forall i :: 0 <= i < |inner| ==> calls[i] == (PushKey(inner[i].0, key), inner[i].1)
    ensures Visited(calls) == Prefixed(key, Visited(inner))
  {
    forall x | x in Visited(calls) ensures x in Prefixed(key, Visited(inner)) {
      var i :| 0 <= i < |calls| && x == (Keys(calls[i].0), calls[i].1);
      assert (Keys(inner[i].0), inner[i].1) in Visited(inner);
    }
    forall x | x in Prefixed(key, Visited(inner)) ensures x in Visited(calls) {
      var l :| l in Visited(inner) && x == ([key] + l.0, l.1);
      var i :| 0 <= i < |inner| && l == (Keys(inner[i].0), inner[i].1);
      assert x == (Keys(calls[i].0), calls[i].1);
    }
  }

  lemma VisitedAppend(xs: seq<(Path, Scalar)>, ys: seq<(Path, Scalar)>)
    ensures Visited(xs + ys) == Visited(xs) + Visited(ys)
  {
    forall x | x in Visited(xs + ys) ensures x in Visited(xs) + Visited(ys) {
      var i :| 0 <= i < |xs + ys| && x == (Keys((xs + ys)[i].0), (xs + ys)[i].1);
      if i >= |xs| {
        assert x == (Keys(ys[i - |xs|].0), ys[i - |xs|].1);
      }
    }
    forall x | x in Visited(xs) ensures x in Visited(xs + ys) {
      var i :| 0 <= i < |xs| && x == (Keys(xs[i].0), xs[i].1);
      assert (xs + ys)[i] == xs[i];
    }
    forall x | x in Visited(ys) ensures x in Visited(xs + ys) {
      var i :| 0 <= i < |ys| && x == (Keys(ys[i].0), ys[i].1);
      assert (xs + ys)[|xs| + i] == ys[i];
    }
  }

  /** The leaves below the keys `ks` of a map node. */
  ghost function LeavesUnder(m: map<string, Accessor>, ks: set<string>): set<(seq<string>, Scalar)> {
    set k, l | k in ks && k in m && l in Leaves(m[k]) :: ([k] + l.0, l.1)
  }

  lemma LeavesUnderAdd(m: map<string, Accessor>, ks: set<string>, k: string)
    requires k in m
    ensures LeavesUnder(m, ks + {k}) == LeavesUnder(m, ks) + Prefixed(k, Leaves(m[k]))
  {
  }

  lemma LeavesUnderAll(m: map<string, Accessor>)
    ensures LeavesUnder(m, m.Keys) == Leaves(MapAccessor(m))
  {
  }

  /** Calls below a new key appended after calls below other keys keep distinct paths. */
  lemma HeadsAppend(calls: seq<(Path, Scalar)>, sub: seq<(Path, Scalar)>, done: set<string>, k: string)
    requires k !in done && Distinct(calls) && Distinct(sub)
    requires forall i :: 0 <= i < |calls| ==> Keys(calls[i].0) != [] && Keys(calls[i].0)[0] in done
    requires forall i :: 0 <= i < |sub| ==> Keys(sub[i].0) != [] && Keys(sub[i].0)[0] == k
    ensures Distinct(calls + sub)
    ensures forall i :: 0 <= i < |calls + sub| ==> Keys((calls + sub)[i].0) != [] && Keys((calls + sub)[i].0)[0] in done + {k}
  {
    var all := calls + sub;
    forall i | 0 <= i < |all| ensures Keys(all[i].0) != [] && Keys(all[i].0)[0] in done + {k} {
      if i >= |calls| {
        assert all[i] == sub[i - |calls|];
      }
    }
    forall i, j | 0 <= i < j < |all| ensures Keys(all[i].0) != Keys(all[j].0) {
      if i >= |calls| {
        assert all[i] == sub[i - |calls|] && all[j] == sub[j - |calls|];
      } else if j >= |calls| {
        assert all[j] == sub[j - |calls|];
        assert Keys(all[i].0)[0] in done;
      }
    }
  }

  /** Visits the children in some order, stopping at the first error. */
  method MapForeach<E>(m: map<string, Accessor>, f: (Path, Scalar) -> Option<E>)
    returns (calls: seq<(Path, Scalar)>, err: Option<E>)
    ensures Traversal(Leaves(MapAccessor(m)), f, calls, err)
    decreases MapAccessor(m), 1
  {
    calls, err := [], None;
    var todo := m.Keys;
    LeavesUnderAll(m);
    while todo != {}
      invariant todo <= m.Keys && err.None?
      invariant Visited(calls) == LeavesUnder(m, m.Keys - todo)
      invariant forall i :: 0 <= i < |calls| ==> Keys(calls[i].0) != [] && Keys(calls[i].0)[0] in m.Keys - todo
      invariant Distinct(calls) && Quiet(f, calls)
      decreases todo
    {
      var k :| k in todo;
      var sub, e := ForeachChild(m[k], k, f);
      ghost var done := m.Keys - todo;
      VisitedAppend(calls, sub);
      LeavesUnderAdd(m, done, k);
      LeavesUnderMono(m, done + {k}, m.Keys);
      HeadsAppend(calls, sub, done, k);
      CallsAppend(f, calls, sub, e);
      calls := calls + sub;
      todo := todo - {k};
      assert m.Keys - todo == done + {k};
      if e.Some? {
        err := e;
        return;
      }
    }
  }

  lemma LeavesUnderMono(m: map<string, Accessor>, ks: set<string>, ls: set<string>)
    requires ks <= ls
    ensures LeavesUnder(m, ks) <= LeavesUnder(m, ls)
  {
  }

  /** The leaves below the first `n` elements of a slice node. */
  ghost function LeavesBefore(s: seq<Accessor>, n: int): set<(seq<string>, Scalar)> {
    set i, l | 0 <= i < n && i < |s| && l in Leaves(s[i]) :: ([Itoa(i)] + l.0, l.1)
  }

  lemma LeavesBeforeNext(s: seq<Accessor>, n: nat)
    requires n < |s|
    ensures LeavesBefore(s, n + 1) == LeavesBefore(s, n) + Prefixed(Itoa(n), Leaves(s[n]))
  {
    forall x | x in LeavesBefore(s, n + 1)
      ensures x in LeavesBefore(s, n) + Prefixed(Itoa(n), Leaves(s[n]))
    {
      var i, l :| 0 <= i < n + 1 && i < |s| && l in Leaves(s[i]) && x == ([Itoa(i)] + l.0, l.1);
      if i == n {
        assert x in Prefixed(Itoa(n), Leaves(s[n]));
      }
    }
  }

  lemma LeavesBeforeMono(s: seq<Accessor>, m: int, n: int)
    requires m <= n
    ensures LeavesBefore(s, m) <= LeavesBefore(s, n)
  {
  }

  /** The element index a visitor call's path starts with, or -1. */
  ghost function Slot(c: (Path, Scalar)): int {
    if Keys(c.0) != [] && Atoi(Keys(c.0)[0]).Some? then Atoi(Keys(c.0)[0]).value else -1
  }

  /** Every call's path starts with an element index below `n`, and the indices never decrease. */
  ghost predicate InIndexOrder(calls: seq<(Path, Scalar)>, n: int) {
    && (forall i :: 0 <= i < |calls| ==> 0 <= Slot(calls[i]) < n)
    && (forall i, j :: 0 <= i < j < |calls| ==> Slot(calls[i]) <= Slot(calls[j]))
  }

  /** No two calls are at the same key list. */
  ghost predicate Distinct(calls: seq<(Path, Scalar)>) {
    forall i, j :: 0 <= i < j < |calls| ==> Keys(calls[i].0) != Keys(calls[j].0)
  }

  /** No call returned an error. */
  ghost predicate Quiet<E>(f: (Path, Scalar) -> Option<E>, calls: seq<(Path, Scalar)>) {
    forall i :: 0 <= i < |calls| ==> f(calls[i].0, calls[i].1).None?
  }

  /** Calls below element `n` appended after calls below earlier elements keep index order and distinct paths. */
  lemma SlotsAppend(calls: seq<(Path, Scalar)>, sub: seq<(Path, Scalar)>, n: nat)
    requires InIndexOrder(calls, n) && Distinct(calls) && Distinct(sub)
    requires forall i :: 0 <= i < |sub| ==> Keys(sub[i].0) != [] && Keys(sub[i].0)[0] == Itoa(n)
    ensures InIndexOrder(calls + sub, n + 1) && Distinct(calls + sub)
  {
    AtoiItoa(n);
    var all := calls + sub;
    forall i | |calls| <= i < |all| ensures Slot(all[i]) == n {
      assert all[i] == sub[i - |calls|];
    }
    forall i, j | 0 <= i < j < |all| ensures Keys(all[i].0) != Keys(all[j].0) {
      if j >= |calls| && i < |calls| {
        assert Slot(all[i]) < n == Slot(all[j]);
      } else if i >= |calls| {
        assert all[i] == sub[i - |calls|] && all[j] == sub[j - |calls|];
      }
    }
  }

  /** A quiet trace followed by the trace of one more child chains into one trace. */
  lemma CallsAppend<E>(f: (Path, Scalar) -> Option<E>, calls: seq<(Path, Scalar)>, sub: seq<(Path, Scalar)>, e: Option<E>)
    requires Quiet(f, calls)
    requires forall i :: 0 <= i < |sub| - 1 ==> f(sub[i].0, sub[i].1).None?
    requires e.None? ==> Quiet(f, sub)
    requires e.Some? ==> |sub| > 0 && e == f(sub[|sub| - 1].0, sub[|sub| - 1].1)
    ensures forall i :: 0 <= i < |calls + sub| - 1 ==> f((calls + sub)[i].0, (calls + sub)[i].1).None?
    ensures e.None? ==> Quiet(f, calls + sub)
    ensures e.Some? ==> |calls + sub| > 0 && e == f((calls + sub)[|calls + sub| - 1].0, (calls + sub)[|calls + sub| - 1].1)
  {
    var all := calls + sub;
    forall i | 0 <= i < |all| - 1 ensures f(all[i].0, all[i].1).None? {
      if i >= |calls| {
        assert all[i] == sub[i - |calls|];
      }
    }
    if e.None? {
      forall i | 0 <= i < |all| ensures f(all[i].0, all[i].1).None? {
        if i >= |calls| {
          assert all[i] == sub[i - |calls|];
        }
      }
    } else {
      assert all[|all| - 1] == sub[|sub| - 1];
    }
  }

  /** Visits the elements in index order, stopping at the first error. */
  method SliceForeach<E>(s: seq<Accessor>, f: (Path, Scalar) -> Option<E>)
    returns (calls: seq<(Path, Scalar)>, err: Option<E>)
    ensures Traversal(Leaves(SliceAccessor(s)), f, calls, err)
    ensures InIndexOrder(calls, |s|)
    decreases SliceAccessor(s), 1
  {
    calls, err := [], None;
    assert LeavesBefore(s, |s|) == Leaves(SliceAccessor(s));
    for n := 0 to |s|
      invariant err.None? && Quiet(f, calls) && InIndexOrder(calls, n) && Distinct(calls)
      invariant Visited(calls) == LeavesBefore(s, n)
    {
      var sub, e := ForeachChild(s[n], Itoa(n), f);
      VisitedAppend(calls, sub);
      LeavesBeforeNext(s, n);
      LeavesBeforeMono(s, n + 1, |s|);
      SlotsAppend(calls, sub, n);
      CallsAppend(f, calls, sub, e);
      InIndexOrderWeaken(calls + sub, n + 1, |s|);
      calls := calls + sub;
      if e.Some? {
        err := e;
        return;
      }
    }
  }

  lemma InIndexOrderWeaken(calls: seq<(Path, Scalar)>, m: int, n: int)
    requires InIndexOrder(calls, m) && m <= n
    ensures InIndexOrder(calls, n)
  {
  }

  // ----------------------------------------------------------- Examples

  /** Resolving "a/b/x" in {"a": {"b": {"c": 1}}} fails about "x" with the stack ["b", "a"]. */
  lemma NestedMissingKey()
    ensures var t := MapAccessor(map["a" := MapAccessor(map["b" := MapAccessor(map["c" := ValueAccessor(Int(1))])])]);
      Get(t, FromKeys(["a", "b", "x"])) == Failure(NoSuchPath("no such key", "x", ["b", "a"]))
  {
    var tc := MapAccessor(map["c" := ValueAccessor(Int(1))]);
    var tb := MapAccessor(map["b" := tc]);
    var t := MapAccessor(map["a" := tb]);
    var p0 := FromKeys(["a", "b", "x"]);
    assert Keys(p0) == ["a", "b", "x"];
    var p1 := SubPath(p0).value;
    var p2 := SubPath(p1).value;
    assert Keys(p1) == ["b", "x"] && Keys(p2) == ["x"];
    assert Key(p0) == "a" && Key(p1) == "b" && Key(p2) == "x";
    assert Get(tc, p2) == Failure(NoSuchPath("no such key", "x", []));
    assert Get(tb, p1) == GetFromChild(tc, p1);
    assert SubPath(p1) == Some(p2) && SubPath(p0) == Some(p1);
    assert [] + ["b"] == ["b"] && ["b"] + ["a"] == ["b", "a"];
    assert Get(tb, p1) == Failure(NoSuchPath("no such key", "x", ["b"]));
    assert Get(t, p0) == GetFromChild(tb, p0);
  }

  /** Setting at "a/b/x" in {"a": {"b": {"c": 1}}} fails about "x" with the stack ["b", "a"] and changes nothing. */
  method NestedMissingKeySet() returns (r: Accessor, err: Option<Error>)
    ensures r == MapAccessor(map["a" := MapAccessor(map["b" := MapAccessor(map["c" := ValueAccessor(Int(1))])])])
    ensures err == Some(NoSuchPath("no such key", "x", ["b", "a"]))
  {
    var t := MapAccessor(map["a" := MapAccessor(map["b" := MapAccessor(map["c" := ValueAccessor(Int(1))])])]);
    NestedMissingKey();
    r, err := Set(t, FromKeys(["a", "b", "x"]), Atom(Int(2)));
  }

  /** Resolving "0/0/1" in [[[1]]] fails about "1", out of range, with the stack ["0", "0"]. */
  lemma NestedIndexOutOfRange()
    ensures var t := SliceAccessor([SliceAccessor([SliceAccessor([ValueAccessor(Int(1))])])]);
      Get(t, FromKeys(["0", "0", "1"])) == Failure(NoSuchPath("index out of range", "1", ["0", "0"]))
  {
    var t2 := SliceAccessor([ValueAccessor(Int(1))]);
    var t1 := SliceAccessor([t2]);
    var p0 := FromKeys(["0", "0", "1"]);
    var p1 := FromKeys(["0", "1"]);
    var p2 := FromKeys(["1"]);
    AtoiItoa(1);
    assert Get(t2, p2) == Failure(NoSuchPath("index out of range", "1", []));
    ThroughOnlyElement(t2, p1, p2, NoSuchPath("index out of range", "1", []));
    assert [] + ["0"] == ["0"] && ["0"] + ["0"] == ["0", "0"];
    ThroughOnlyElement(t1, p0, p1, NoSuchPath("index out of range", "1", ["0"]));
  }

  /** A failure below the only element of a one-element slice, reached through key "0", gets "0" pushed. */
  lemma ThroughOnlyElement(c: Accessor, path: Path, sub: Path, e: Error)
    requires path.Basic? && Key(path) == "0" && SubPath(path) == Some(sub)
    requires Get(c, sub) == Failure(e) && e.NoSuchPath?
    ensures Get(SliceAccessor([c]), path) == Failure(PushPath(e, "0"))
  {
    AtoiItoa(0);
    ThroughSlot(c, path);
    assert GetFromChild(c, path) == Failure(Annotate(e, "0"));
  }

  /** A slice of one element hands a key that reads as 0 on to that element. */
  lemma ThroughSlot(c: Accessor, path: Path)
    requires Atoi(Key(path)) == Some(0)
    ensures Get(SliceAccessor([c]), path) == GetFromChild(c, path)
  {
    assert SliceGet([c], path) == GetFromChild(c, path);
  }

  // ---------------------------------------------- Resolution as written

  /*
   * The annotation step as the package is written: an error coming up from
   * a child is annotated only when it has a `PushKey(string)` method, but the
   * resolution error's method is named `PushPath`, so no error the package
   * produces qualifies and every error is passed up as it is.
   */

  function GetAsWritten(a: Accessor, path: Path): Result<Accessor, Error>
    decreases a, 2
  {
    match a
    case MapAccessor(m) =>
      if Key(path) !in m then Failure(NewNoSuchPathError("no such key", Key(path)))
      else GetFromChildAsWritten(m[Key(path)], path)
    case SliceAccessor(s) =>
      (match Atoi(Key(path))
       case None => Failure(NewNoSuchPathError("not a number", Key(path)))
       case Some(i) =>
         if i < 0 || i >= |s| then Failure(NewNoSuchPathError("index out of range", Key(path)))
         else GetFromChildAsWritten(s[i], path))
    case ValueAccessor(v) => ValueGet(v, path)
  }

  function GetFromChildAsWritten(child: Accessor, path: Path): Result<Accessor, Error>
    decreases child, 3
  {
    match SubPath(path)
    case None => Success(child)
    case Some(sub) => GetAsWritten(child, sub)
  }

  /**
   * As written, resolution finds the same nodes and fails with the same
   * message and key, but every failure reports an empty stack.
   */
  lemma {:induction false} AsWrittenLosesStack(a: Accessor, path: Path)
    ensures Get(a, path).Success? <==> GetAsWritten(a, path).Success?
    ensures Get(a, path).Success? ==> GetAsWritten(a, path) == Get(a, path)
    ensures Get(a, path).Failure? ==>
      Get(a, path).error.NoSuchPath? && GetAsWritten(a, path).error == Get(a, path).error.(stack := [])
    decreases a
  {

    var c := Child(a, Key(path));
    if c.Some? {
      assert Get(a, path) == GetFromChild(c.value, path);
      assert GetAsWritten(a, path) == GetFromChildAsWritten(c.value, path);
      match SubPath(path)
      case None =>
      case Some(sub) => AsWrittenLosesStack(c.value, sub);
    }
  }

  /** The nested example as written: the stack ["b", "a"] comes back empty. */
  lemma NestedMissingKeyAsWritten()
    ensures var t := MapAccessor(map["a" := MapAccessor(map["b" := MapAccessor(map["c" := ValueAccessor(Int(1))])])]);
      GetAsWritten(t, FromKeys(["a", "b", "x"])) == Failure(NoSuchPath("no such key", "x", []))
  {
    var t := MapAccessor(map["a" := MapAccessor(map["b" := MapAccessor(map["c" := ValueAccessor(Int(1))])])]);
    NestedMissingKey();
    AsWrittenLosesStack(t, FromKeys(["a", "b", "x"]));
  }

  /*
   * `setToChild` makes the same `keyPusher` assertion, so as written a
   * failed `Set` passes the child's error up untouched as well.
   */

  /** `Set` as written: on failure, the error resolution as written reports. */
  method SetAsWritten(a: Accessor, path: Path, v: Dynamic) returns (r: Accessor, err: Option<Error>)
    ensures SetOutcomeWith(a, path, v, GetAsWritten(a, path), r, err)
    decreases a, 2
  {
    match a
    case MapAccessor(m) => r, err := MapSetAsWritten(m, path, v);
    case SliceAccessor(s) => r, err := SliceSetAsWritten(s, path, v);
    case ValueAccessor(x) => r, err := ValueSet(x, path, v);
  }

  method MapSetAsWritten(m: map<string, Accessor>, path: Path, v: Dynamic) returns (r: Accessor, err: Option<Error>)
    ensures SetOutcomeWith(MapAccessor(m), path, v, GetAsWritten(MapAccessor(m), path), r, err)
    decreases MapAccessor(m), 1
  {
    var key := Key(path);
    if key !in m {
      return MapAccessor(m), Some(NewNoSuchPathError("no such key", key));
    }
    assert Route(path)[0] == key;
    assert GetAsWritten(MapAccessor(m), path) == GetFromChildAsWritten(m[key], path);
    match SubPath(path)
    case None =>
      var acc := NewAccessor(v);
      if acc.Failure? {
        return MapAccessor(m), Some(acc.error);
      }
      assert Route(path)[1..] == [];
      r, err := MapAccessor(m[key := acc.value]), None;
    case Some(sub) =>
      var c, e := SetToChildAsWritten(m[key], v, key, sub);
      if e.Some? {
        return MapAccessor(m), e;
      }
      r, err := MapAccessor(m[key := c]), None;
  }

  method SliceSetAsWritten(s: seq<Accessor>, path: Path, v: Dynamic) returns (r: Accessor, err: Option<Error>)
    ensures SetOutcomeWith(SliceAccessor(s), path, v, GetAsWritten(SliceAccessor(s), path), r, err)
    decreases SliceAccessor(s), 1
  {
    var key := Key(path);
    var n := Atoi(key);
    if n.None? {
      return SliceAccessor(s), Some(NewNoSuchPathError("not a number", key));
    }
    var i := n.value;
    if i < 0 || i >= |s| {
      return SliceAccessor(s), Some(NewNoSuchPathError("index out of range", key));
    }
    assert Route(path)[0] == key && Index(key, |s|) == Some(i);
    assert GetAsWritten(SliceAccessor(s), path) == GetFromChildAsWritten(s[i], path);
    match SubPath(path)
    case None =>
      var acc := NewAccessor(v);
      if acc.Failure? {
        return SliceAccessor(s), Some(acc.error);
      }
      assert Route(path)[1..] == [];
      r, err := SliceAccessor(s[i := acc.value]), None;
    case Some(sub) =>
      var c, e := SetToChildAsWritten(s[i], v, key, sub);
      if e.Some? {
        return SliceAccessor(s), e;
      }
      r, err := SliceAccessor(s[i := c]), None;
  }

  /** The nested `Set` example as written: the stack ["b", "a"] comes back empty. */
  method NestedMissingKeySetAsWritten() returns (r: Accessor, err: Option<Error>)
    ensures r == MapAccessor(map["a" := MapAccessor(map["b" := MapAccessor(map["c" := ValueAccessor(Int(1))])])])
    ensures err == Some(NoSuchPath("no such key", "x", []))
  {
    var t := MapAccessor(map["a" := MapAccessor(map["b" := MapAccessor(map["c" := ValueAccessor(Int(1))])])]);
    NestedMissingKeyAsWritten();
    r, err := SetAsWritten(t, FromKeys(["a", "b", "x"]), Atom(Int(2)));
  }

  /** `setToChild` as written: the child's error comes back without `key`. */
  method SetToChildAsWritten(child: Accessor, v: Dynamic, key: string, sub: Path) returns (r: Accessor, err: Option<Error>)
    ensures SetOutcomeWith(child, sub, v, GetAsWritten(child, sub), r, err)
    decreases child, 3
  {
    r, err := SetAsWritten(child, sub, v);
  }
}
