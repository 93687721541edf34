/**
 * The data model: the accessor tree, the decoded documents it is built from
 * and unwrapped to, and reference definitions of indexing, replacement and
 * leaves that the accessor operations are proved against.
 */
module Trees {
  import opened Wrappers
  import opened Scalars
  import opened Decimal

  /** A tree node: a string-keyed map, an ordered slice, or a scalar leaf. */
  datatype Accessor =
    | MapAccessor(entries: map<string, Accessor>)
    | SliceAccessor(items: seq<Accessor>)
    | ValueAccessor(value: Scalar)

  /**
   * A key of a map whose keys are of any type, as some decoders produce:
   * a string key, or a key of another dynamic type. `OtherKey(Str(_))`
   * stands for no Go value; nothing in the model excludes it.
   */
  datatype MapKey = StrKey(s: string) | OtherKey(v: Scalar)

  /** A decoded document as the format decoders hand it over. */
  datatype Dynamic =
    | StringMap(fields: map<string, Dynamic>)
    | AnyMap(pairs: map<MapKey, Dynamic>)
    | List(elems: seq<Dynamic>)
    | Atom(scalar: Scalar)
      /** A value that already is an accessor tree. */
    | Wrapped(acc: Accessor)

  /** The slot a slice key names: a decimal integer in `[0, len)`. */
  function Index(key: string, len: nat): (r: Option<nat>)
    ensures r.Some? ==> r.value < len && Atoi(key) == Some(r.value as int)
    ensures Atoi(key).Some? && 0 <= Atoi(key).value < len ==> r.Some?
  {
    match Atoi(key)
    case Some(i) => if 0 <= i < len then Some(i) else None
    case None => None
  }

  /** The child of `a` under `key`, if there is one. */
  function Child(a: Accessor, key: string): Option<Accessor> {
    match a
    case MapAccessor(m) => if key in m then Some(m[key]) else None
    case SliceAccessor(s) =>
      (match Index(key, |s|)
       case Some(i) => Some(s[i])
       case None => None)
    case ValueAccessor(_) => None
  }

  /** Direct structural indexing: the node reached by following `keys` from `a`. */
  function At(a: Accessor, keys: seq<string>): Option<Accessor>
    decreases |keys|
  {
    if keys == [] then Some(a)
    else
      match Child(a, keys[0])
      case None => None
      case Some(c) => At(c, keys[1..])
  }

  /** `a` and `b` are the same kind of node with the same keys or the same length. */
  predicate SameShape(a: Accessor, b: Accessor) {
    match a
    case MapAccessor(m) => b.MapAccessor? && b.entries.Keys == m.Keys
    case SliceAccessor(s) => b.SliceAccessor? && |b.items| == |s|
    case ValueAccessor(_) => b.ValueAccessor?
  }

  /**
   * `a` with the node at `keys` replaced by `sub`, or nothing when `keys`
   * does not lead to a node. No key is added and no slot is created.
   */
  function Replace(a: Accessor, keys: seq<string>, sub: Accessor): (r: Option<Accessor>)
    decreases |keys|
    ensures r.Some? <==> At(a, keys).Some?
    ensures r.Some? && keys != [] ==> SameShape(a, r.value)
  {
    if keys == [] then Some(sub)
    else
      match a
      case MapAccessor(m) =>
        if keys[0] in m then
          match Replace(m[keys[0]], keys[1..], sub)
          case Some(c) => Some(MapAccessor(m[keys[0] := c]))
          case None => None
        else None
      case SliceAccessor(s) =>
        (match Index(keys[0], |s|)
         case Some(i) =>
           (match Replace(s[i], keys[1..], sub)
            case Some(c) => Some(SliceAccessor(s[i := c]))
            case None => None)
         case None => None)
      case ValueAccessor(_) => None
  }

  /** After a replacement, the path leads to the new node. */
  lemma {:induction false} ReplaceAt(a: Accessor, keys: seq<string>, sub: Accessor)
    requires At(a, keys).Some?
    ensures At(Replace(a, keys, sub).value, keys) == Some(sub)
    decreases |keys|
  {
    if keys != [] {
      var c := Child(a, keys[0]).value;
      ReplaceAt(c, keys[1..], sub);
    }
  }

  /** `k1` and `k2` name the same child slot of `a`. */
  predicate SameSlot(a: Accessor, k1: string, k2: string) {
    match a
    case MapAccessor(_) => k1 == k2
    case SliceAccessor(s) => Index(k1, |s|) == Index(k2, |s|)
    case ValueAccessor(_) => true
  }

  /**
   * `q` leaves the route of `keys` through `a`: at some level it names a
   * different slot than `keys` does (possibly a missing one).
   */
  predicate Diverge(a: Accessor, keys: seq<string>, q: seq<string>)
    decreases |keys|
  {
    && keys != [] && q != [] && Child(a, keys[0]).Some?
    && (SameSlot(a, keys[0], q[0]) ==> Diverge(Child(a, keys[0]).value, keys[1..], q[1..]))
  }

  /** A replacement changes nothing that is reached by a diverging path. */
  lemma {:induction false} ReplaceFrame(a: Accessor, keys: seq<string>, sub: Accessor, q: seq<string>)
    requires At(a, keys).Some?
    requires Diverge(a, keys, q)
    ensures At(Replace(a, keys, sub).value, q) == At(a, q)
    decreases |keys|
  {
    var c := Child(a, keys[0]).value;
    var r := Replace(a, keys, sub).value;
    if SameSlot(a, keys[0], q[0]) {
      ReplaceFrame(c, keys[1..], sub, q[1..]);
      assert Child(r, q[0]) == Some(Replace(c, keys[1..], sub).value);
    } else {
      assert Child(r, q[0]) == Child(a, q[0]);
    }
  }

  /** Every scalar leaf of `a` with the keys leading to it; slice slots are keyed by their decimal index. */
  ghost function Leaves(a: Accessor): set<(seq<string>, Scalar)> {
    match a
    case ValueAccessor(v) => {([], v)}
    case MapAccessor(m) => set k, l | k in m && l in Leaves(m[k]) :: ([k] + l.0, l.1)
    case SliceAccessor(s) => set i, l | 0 <= i < |s| && l in Leaves(s[i]) :: ([Itoa(i)] + l.0, l.1)
  }

  /** Each leaf is reached by indexing along its keys and holds its scalar. */
  lemma {:induction false} LeavesAreReachable(a: Accessor, l: (seq<string>, Scalar))
    requires l in Leaves(a)
    ensures At(a, l.0) == Some(ValueAccessor(l.1))
  {
    match a
    case ValueAccessor(v) =>
    case MapAccessor(m) =>
      var k, l' :| k in m && l' in Leaves(m[k]) && l == ([k] + l'.0, l'.1);
      LeavesAreReachable(m[k], l');
      assert l.0[1..] == l'.0;
    case SliceAccessor(s) =>
      var i, l' :| 0 <= i < |s| && l' in Leaves(s[i]) && l == ([Itoa(i)] + l'.0, l'.1);
      AtoiItoa(i);
      LeavesAreReachable(s[i], l');
      assert l.0[1..] == l'.0;
  }

  /** The plain document a tree stands for: maps, lists and scalars. */
  function Unwrapped(a: Accessor): (d: Dynamic) {
    match a
    case MapAccessor(m) => StringMap(map k | k in m :: Unwrapped(m[k]))
    case SliceAccessor(s) => List(seq(|s|, i requires 0 <= i < |s| => Unwrapped(s[i])))
    case ValueAccessor(v) => Atom(v)
  }

  /** Documents built only of string-keyed maps, lists and scalars. */
  ghost predicate Plain(d: Dynamic) {
    match d
    case StringMap(m) => forall k :: k in m ==> Plain(m[k])
    case List(s) => forall i :: 0 <= i < |s| ==> Plain(s[i])
    case Atom(_) => true
    case AnyMap(_) => false
    case Wrapped(_) => false
  }

  /** Direct structural indexing into a plain document. */
  function DocAt(d: Dynamic, keys: seq<string>): Option<Dynamic>
    decreases |keys|
  {
    if keys == [] then Some(d)
    else
      match d
      case StringMap(m) => if keys[0] in m then DocAt(m[keys[0]], keys[1..]) else None
      case List(s) =>
        (match Index(keys[0], |s|)
         case Some(i) => DocAt(s[i], keys[1..])
         case None => None)
      case _ => None
  }

  /** What `Unwrapped` produces is plain. */
  lemma {:induction false} UnwrappedIsPlain(a: Accessor)
    ensures Plain(Unwrapped(a))
  {
    match a
    case MapAccessor(m) =>
      forall k | k in m ensures Plain(Unwrapped(m[k])) { UnwrappedIsPlain(m[k]); }
    case SliceAccessor(s) =>
      forall i | 0 <= i < |s| ensures Plain(Unwrapped(s[i])) { UnwrappedIsPlain(s[i]); }
    case ValueAccessor(_) =>
  }
}
