/**
 * The constructor: classifies a decoded document into accessor nodes,
 * recursively, failing as a whole when some map key is not a string.
 */
module Construction {
  import opened Wrappers
  import opened Scalars
  import opened Errors
  import opened Trees

  /** Every map reachable in `d` has string keys only: construction succeeds. */
  ghost predicate Constructible(d: Dynamic) {
    match d
    case StringMap(m) => forall k :: k in m ==> Constructible(m[k])
    case AnyMap(m) => forall k :: k in m ==> k.StrKey? && Constructible(m[k])
    case List(s) => forall i :: 0 <= i < |s| ==> Constructible(s[i])
    case Atom(_) => true
    case Wrapped(_) => true
  }

  /** The string keys of a map with keys of any type. */
  function StringKeys(m: map<MapKey, Dynamic>): set<string> {
    set k | k in m && k.StrKey? :: k.s
  }

  /** The tree a constructible document becomes. */
  ghost function Build(d: Dynamic): Accessor
    requires Constructible(d)
  {
    match d
    case StringMap(m) => MapAccessor(map k | k in m :: Build(m[k]))
    case AnyMap(m) => MapAccessor(map s | s in StringKeys(m) :: Build(m[StrKey(s)]))
    case List(s) => SliceAccessor(seq(|s|, i requires 0 <= i < |s| => Build(s[i])))
    case Atom(v) => ValueAccessor(v)
    case Wrapped(a) => a
  }

  /**
   * The non-string keys construction may report. Map entries are visited in
   * no fixed order, so any bad key of any entry may be met first; list
   * elements are visited in order, so only the first failing element counts.
   */
  ghost function Culprits(d: Dynamic): set<Scalar> {
    match d
    case StringMap(m) => set k, x | k in m && x in Culprits(m[k]) :: x
    case AnyMap(m) =>
      (set k | k in m && k.OtherKey? :: k.v)
      + (set k, x | k in m && k.StrKey? && x in Culprits(m[k]) :: x)
    case List(s) =>
      set i, x | 0 <= i < |s| && x in Culprits(s[i]) && (forall j | 0 <= j < i :: Constructible(s[j])) :: x
    case Atom(_) => {}
    case Wrapped(_) => {}
  }

  /** Construction fails exactly when there is a key to blame. */
  lemma {:induction false} CulpritsExactlyWhenNotConstructible(d: Dynamic)
    ensures Constructible(d) <==> Culprits(d) == {}
  {
    match d
    case StringMap(m) =>
      forall k | k in m ensures Constructible(m[k]) <==> Culprits(m[k]) == {} {
        CulpritsExactlyWhenNotConstructible(m[k]);
      }
      if !Constructible(d) {
        var k :| k in m && !Constructible(m[k]);
        var x :| x in Culprits(m[k]);
        assert x in Culprits(d);
      }
    case AnyMap(m) =>
      forall k | k in m ensures Constructible(m[k]) <==> Culprits(m[k]) == {} {
        CulpritsExactlyWhenNotConstructible(m[k]);
      }
      if !Constructible(d) {
        var k :| k in m && !(k.StrKey? && Constructible(m[k]));
        if k.OtherKey? {
          assert k.v in Culprits(d);
        } else {
          var x :| x in Culprits(m[k]);
          assert x in Culprits(d);
        }
      }
    case List(s) =>
      forall i | 0 <= i < |s| ensures Constructible(s[i]) <==> Culprits(s[i]) == {} {
        CulpritsExactlyWhenNotConstructible(s[i]);
      }
      if !Constructible(d) {
        var i :| 0 <= i < |s| && !Constructible(s[i]) && forall j | 0 <= j < i :: Constructible(s[j]) by {
          FirstFailing(s);
        }
        var x :| x in Culprits(s[i]);
        assert x in Culprits(d);
      }
    case Atom(_) =>
    case Wrapped(_) =>
  }

  lemma {:induction false} FirstFailing(s: seq<Dynamic>)
    requires exists i :: 0 <= i < |s| && !Constructible(s[i])
    ensures exists i :: 0 <= i < |s| && !Constructible(s[i]) && forall j | 0 <= j < i :: Constructible(s[j])
  {
    if Constructible(s[0]) {
      var t := s[1..];
      var k :| 0 <= k < |s| && !Constructible(s[k]);
      assert t[k - 1] == s[k];
      FirstFailing(t);
      var i :| 0 <= i < |t| && !Constructible(t[i]) && forall j | 0 <= j < i :: Constructible(t[j]);
      assert s[i + 1] == t[i];
      forall j | 0 <= j < i + 1 ensures Constructible(s[j]) {
        if j > 0 { assert s[j] == t[j - 1]; }
      }
    }
  }

  /** A list's construction blames exactly the keys of its first failing element. */
  lemma ListBlamesFirstFailing(s: seq<Dynamic>, i: int)
    requires 0 <= i < |s| && !Constructible(s[i])
    requires forall j | 0 <= j < i :: Constructible(s[j])
    ensures Culprits(List(s)) == Culprits(s[i])
  {
    forall x | x in Culprits(List(s)) ensures x in Culprits(s[i]) {
      var i' :| 0 <= i' < |s| && x in Culprits(s[i']) && (forall j | 0 <= j < i' :: Constructible(s[j]));
      if i' < i {
        CulpritsExactlyWhenNotConstructible(s[i']);
      }
    }
  }

  /**
   * Builds the accessor tree for `d`: an accessor is kept as it is, maps and
   * lists are built entry by entry, everything else becomes a value node.
   * The first failing entry aborts the construction and no tree is returned.
   */
  method NewAccessor(d: Dynamic) returns (r: Result<Accessor, Error>)
    ensures r.Success? <==> Constructible(d)
    ensures r.Success? ==> r.value == Build(d)
    ensures r.Failure? ==> r.error.InvalidKey? && r.error.value in Culprits(d)
    decreases d, 1
  {
    match d
    case Wrapped(a) =>
      return Success(a);
    case StringMap(m) =>
      r := NewStringMapAccessor(m);
    case AnyMap(m) =>
      r := NewAnyMapAccessor(m);
    case List(s) =>
      r := NewListAccessor(s);
    case Atom(v) =>
      return Success(ValueAccessor(v));
  }

  /** The `map[string]interface{}` case: each value converted, the first failure returned. */
  method NewStringMapAccessor(m: map<string, Dynamic>) returns (r: Result<Accessor, Error>)
    ensures r.Success? <==> Constructible(StringMap(m))
    ensures r.Success? ==> r.value == Build(StringMap(m))
    ensures r.Failure? ==> r.error.InvalidKey? && r.error.value in Culprits(StringMap(m))
    decreases StringMap(m), 0
  {
    var ma: map<string, Accessor> := map[];
    var todo := m.Keys;
    while todo != {}
      invariant todo <= m.Keys
      invariant ma.Keys == m.Keys - todo
      invariant forall k :: k in ma ==> Constructible(m[k]) && ma[k] == Build(m[k])
      decreases todo
    {
      var k :| k in todo;
      var o := NewAccessor(m[k]);
      if o.Failure? {
        assert o.error.value in Culprits(StringMap(m));
        return o;
      }
      ma := ma[k := o.value];
      todo := todo - {k};
    }
    return Success(MapAccessor(ma));
  }

  /** The `map[interface{}]interface{}` case: a key that is not a string fails, else as for string maps. */
  method NewAnyMapAccessor(m: map<MapKey, Dynamic>) returns (r: Result<Accessor, Error>)
    ensures r.Success? <==> Constructible(AnyMap(m))
    ensures r.Success? ==> r.value == Build(AnyMap(m))
    ensures r.Failure? ==> r.error.InvalidKey? && r.error.value in Culprits(AnyMap(m))
    decreases AnyMap(m), 0
  {
    var ma: map<string, Accessor> := map[];
    var todo := m.Keys;
    while todo != {}
      invariant todo <= m.Keys
      invariant forall k :: k in m && k !in todo ==> k.StrKey? && k.s in ma && Constructible(m[k]) && ma[k.s] == Build(m[k])
      invariant forall s :: s in ma ==> StrKey(s) in m && StrKey(s) !in todo
      decreases todo
    {
      var k :| k in todo;
      if k.OtherKey? {
        return Failure(InvalidKey(k.v));
      }
      var o := NewAccessor(m[k]);
      if o.Failure? {
        assert o.error.value in Culprits(AnyMap(m));
        return o;
      }
      ma := ma[k.s := o.value];
      todo := todo - {k};
    }
    assert Constructible(AnyMap(m));
    ghost var built := Build(AnyMap(m)).entries;
    assert forall k :: k in m ==> k.s in built;
    assert ma == built;
    return Success(MapAccessor(ma));
  }

  /** The `[]interface{}` case: the elements converted in order into a fresh slice, the first failure returned. */
  method NewListAccessor(s: seq<Dynamic>) returns (r: Result<Accessor, Error>)
    ensures r.Success? <==> Constructible(List(s))
    ensures r.Success? ==> r.value == Build(List(s))
    ensures r.Failure? ==> r.error.InvalidKey? && r.error.value in Culprits(List(s))
    decreases List(s), 0
  {
    var sa := new Accessor[|s|](_ => ValueAccessor(Nil));
    for i := 0 to |s|
      invariant forall j :: 0 <= j < i ==> Constructible(s[j]) && sa[j] == Build(s[j])
    {
      var o := NewAccessor(s[i]);
      if o.Failure? {
        assert o.error.value in Culprits(List(s));
        return o;
      }
      sa[i] := o.value;
    }
    return Success(SliceAccessor(sa[..]));
  }

  /** Constructing a plain document and unwrapping the tree gives the document back. */
  lemma {:induction false} UnwrapAfterBuild(d: Dynamic)
    requires Plain(d)
    ensures Constructible(d) && Unwrapped(Build(d)) == d
  {
    match d
    case StringMap(m) =>
      forall k | k in m ensures Constructible(m[k]) && Unwrapped(Build(m[k])) == m[k] {
        UnwrapAfterBuild(m[k]);
      }
      assert Unwrapped(Build(d)).fields == m;
    case List(s) =>
      forall i | 0 <= i < |s| ensures Constructible(s[i]) && Unwrapped(Build(s[i])) == s[i] {
        UnwrapAfterBuild(s[i]);
      }
      assert Unwrapped(Build(d)).elems == s;
    case Atom(_) =>
  }

  /** Unwrapping a tree and constructing again gives the same tree. */
  lemma {:induction false} BuildAfterUnwrap(a: Accessor)
    ensures Constructible(Unwrapped(a)) && Build(Unwrapped(a)) == a
  {
    match a
    case MapAccessor(m) =>
      forall k | k in m ensures Constructible(Unwrapped(m[k])) && Build(Unwrapped(m[k])) == m[k] {
        BuildAfterUnwrap(m[k]);
      }
      assert Build(Unwrapped(a)).entries == m;
    case SliceAccessor(s) =>
      forall i | 0 <= i < |s| ensures Constructible(Unwrapped(s[i])) && Build(Unwrapped(s[i])) == s[i] {
        BuildAfterUnwrap(s[i]);
      }
      assert Build(Unwrapped(a)).items == s;
    case ValueAccessor(_) =>
  }

  /**
   * A map with keys of any type whose keys are all strings constructs to the
   * same tree as the string-keyed map with the same entries.
   */
  lemma AnyMapLikeStringMap(m: map<MapKey, Dynamic>, sm: map<string, Dynamic>)
    requires forall k :: k in m ==> k.StrKey?
    requires forall s :: s in sm <==> StrKey(s) in m
    requires forall s :: s in sm ==> sm[s] == m[StrKey(s)]
    ensures Constructible(AnyMap(m)) <==> Constructible(StringMap(sm))
    ensures Constructible(AnyMap(m)) ==> Build(AnyMap(m)) == Build(StringMap(sm))
  {
    assert forall k :: k in m ==> k == StrKey(k.s) && k.s in sm;
    if Constructible(AnyMap(m)) {
      assert StringKeys(m) == sm.Keys;
      assert Build(AnyMap(m)).entries == Build(StringMap(sm)).entries;
    }
  }

  /**
   * Resolving keys in the tree built from a plain document agrees with
   * indexing the document itself: the node found unwraps to the sub-document.
   */
  lemma {:induction false} BuildAt(d: Dynamic, keys: seq<string>)
    requires Plain(d)
    ensures Constructible(d)
    ensures At(Build(d), keys).Some? <==> DocAt(d, keys).Some?
    ensures DocAt(d, keys).Some? ==> Unwrapped(At(Build(d), keys).value) == DocAt(d, keys).value
    decreases |keys|
  {
    UnwrapAfterBuild(d);
    if keys != [] {
      match d
      case StringMap(m) =>
        if keys[0] in m {
          BuildAt(m[keys[0]], keys[1..]);
        }
      case List(s) =>
        if Index(keys[0], |s|).Some? {
          BuildAt(s[Index(keys[0], |s|).value], keys[1..]);
        }
      case Atom(_) =>
    }
  }
}
