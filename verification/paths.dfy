/**
 * Paths: immutable sequences of string keys, built by pushing keys onto the
 * head, plus the distinguished phantom path that has no key at all.
 */
module Paths {
  import opened Wrappers
  import opened Errors
  import Strings

  /**
   * `Basic(key, tail)` is a path whose head is `key`; a `Phantom` tail marks
   * the last key (the source's nil tail). A `Phantom` path on its own is the
   * path without a key, which renders as "???".
   */
  datatype Path = Phantom | Basic(key: string, tail: Path)

  const PhantomPath: Path := Phantom

  /** The keys of a path, head first. */
  function Keys(p: Path): seq<string> {
    match p
    case Phantom => []
    case Basic(k, t) => [k] + Keys(t)
  }

  /** The path whose keys are `keys`, in order. */
  function FromKeys(keys: seq<string>): (p: Path)
    ensures Keys(p) == keys
    ensures keys != [] <==> p.Basic?
  {
    if keys == [] then Phantom else Basic(keys[0], FromKeys(keys[1..]))
  }

  /** A new path with `key` in front; the original is a value and does not change. */
  function PushKey(p: Path, key: string): (r: Path)
    ensures Keys(r) == [key] + Keys(p)
    ensures SubPath(r) == (if p.Phantom? then None else Some(p))
  {
    Basic(key, p)
  }

  /** The head key; the phantom path answers "???". */
  function Key(p: Path): (k: string)
    ensures p.Basic? ==> k == Keys(p)[0]
    ensures p.Phantom? ==> k == "???"
  {
    match p
    case Phantom => "???"
    case Basic(k, _) => k
  }

  /** The path without its head, or nothing when at most one key is left. */
  function SubPath(p: Path): (r: Option<Path>)
    ensures r.None? <==> |Keys(p)| <= 1
    ensures r.Some? ==> r.value.Basic? && Keys(r.value) == Keys(p)[1..]
  {
    match p
    case Phantom => None
    case Basic(_, t) => if t.Phantom? then None else Some(t)
  }

  /**
   * The keys that resolving `p` against a tree consumes, one per level:
   * `Key` then `SubPath` repeatedly. The phantom path answers the key "???"
   * and has no sub-path, so it resolves like the one-key path "???".
   */
  function Route(p: Path): (r: seq<string>)
    ensures |r| >= 1 && r[0] == Key(p)
    ensures SubPath(p).None? ==> |r| == 1
    ensures SubPath(p).Some? ==> Route(SubPath(p).value) == r[1..]
    ensures p.Basic? ==> r == Keys(p)
  {
    if p.Phantom? then ["???"] else Keys(p)
  }

  /** The key lists `NewPath` accepts: at least one key, and no empty key. */
  predicate ValidKeys(keys: seq<string>) {
    keys != [] && forall i :: 0 <= i < |keys| ==> keys[i] != ""
  }

  /** The canonical rendering: the keys joined by "/", or "???" for the phantom path. */
  method String(p: Path) returns (s: string)
    ensures p.Phantom? ==> s == "???"
    ensures p.Basic? ==> s == Strings.Join(Keys(p))
  {
    if p.Phantom? {
      return "???";
    }
    s := p.key;
    ghost var done := [p.key];
    var tail := SubPath(p);
    while tail.Some?
      invariant tail.Some? ==> tail.value.Basic?
      invariant done + (if tail.Some? then Keys(tail.value) else []) == Keys(p)
      invariant |done| >= 1 && s == Strings.Join(done)
      decreases if tail.Some? then |Keys(tail.value)| else 0
    {
      var t := tail.value;
      s := s + "/" + Key(t);
      JoinAppend(done, Key(t));
      done := done + [Key(t)];
      tail := SubPath(t);
    }
    assert done == Keys(p);
  }

  lemma {:induction false} JoinAppend(xs: seq<string>, x: string)
    requires |xs| >= 1
    ensures Strings.Join(xs + [x]) == Strings.Join(xs) + "/" + x
  {
    if |xs| > 1 {
      assert (xs + [x])[1..] == xs[1..] + [x];
      JoinAppend(xs[1..], x);
    } else {
      assert (xs + [x])[1..] == [x];
    }
  }

  /** Builds a path from a key list, pushing the keys from the last to the first. */
  method NewPath(keys: seq<string>) returns (r: Result<Path, Error>)
    ensures keys == [] ==> r == Failure(InvalidPath("path is empty"))
    ensures keys != [] && !ValidKeys(keys) ==> r == Failure(InvalidPath("empty key found"))
    ensures ValidKeys(keys) ==> r == Success(FromKeys(keys))
  {
    if |keys| == 0 {
      return Failure(InvalidPath("path is empty"));
    }
    var p := PhantomPath;
    var i := |keys| - 1;
    while i >= 0
      invariant -1 <= i < |keys|
      invariant forall j :: i < j < |keys| ==> keys[j] != ""
      invariant Keys(p) == keys[i + 1..]
    {
      if keys[i] == "" {
        return Failure(InvalidPath("empty key found"));
      }
      p := PushKey(p, keys[i]);
      i := i - 1;
    }
    assert Keys(p) == keys;
    KeysDetermine(p, FromKeys(keys));
    return Success(p);
  }

  lemma {:induction false} KeysDetermine(p: Path, q: Path)
    requires Keys(p) == Keys(q)
    ensures p == q
  {
    match p
    case Phantom =>
      assert Keys(q) == [];
    case Basic(k, t) =>
      assert q.Basic? && Keys(q) == [q.key] + Keys(q.tail);
      assert Keys(p) == [k] + Keys(t);
      assert Keys(t) == Keys(p)[1..] == Keys(q)[1..] == Keys(q.tail);
      KeysDetermine(t, q.tail);
  }

  /** The keys `ParsePath` reads from a text: trim slashes and spaces, then split on "/". */
  function Segments(text: string): seq<string> {
    Strings.Split(Strings.Trim(text))
  }

  /** Parses a slash-separated path, tolerating leading and trailing slashes and spaces. */
  method ParsePath(text: string) returns (r: Result<Path, Error>)
    ensures ValidKeys(Segments(text)) ==> r == Success(FromKeys(Segments(text)))
    ensures !ValidKeys(Segments(text)) ==> r == Failure(InvalidPath("empty key found"))
  {
    var keys := Strings.Split(Strings.Trim(text));
    r := NewPath(keys);
  }

  /** Surrounding slashes and spaces do not change the parsed keys. */
  lemma SegmentsIgnoreSurrounding(pre: string, text: string, suf: string)
    requires Strings.AllCutset(pre) && Strings.AllCutset(suf)
    ensures Segments(pre + text + suf) == Segments(text)
  {
    Strings.TrimSurrounding(pre, text, suf);
  }

  /** A text made only of slashes and spaces leaves one empty segment, so parsing it fails. */
  lemma CutsetOnly(text: string)
    requires Strings.AllCutset(text)
    ensures Segments(text) == [""]
    ensures !ValidKeys(Segments(text))
  {
    Strings.TrimSurrounding(text, "", "");
    assert text + "" + "" == text;
    assert Strings.Trim("") == "";
    assert Segments(text)[0] == "";
  }

  /** "", "/" and "//" leave no key: parsing them fails. */
  lemma RejectedTexts()
    ensures !ValidKeys(Segments(""))
    ensures !ValidKeys(Segments("/"))
    ensures !ValidKeys(Segments("//"))
  {
    assert Strings.AllCutset("/") && Strings.AllCutset("//");
    CutsetOnly("");
    CutsetOnly("/");
    CutsetOnly("//");
  }

  /**
   * A text without surrounding slashes or spaces and without empty segments
   * parses to a path that renders as the same text.
   */
  lemma ParseRender(text: string)
    requires Strings.Trim(text) == text
    requires ValidKeys(Strings.Split(text))
    ensures ValidKeys(Segments(text))
    ensures Strings.Join(Keys(FromKeys(Segments(text)))) == text
  {
    Strings.JoinSplit(text);
  }

  /**
   * A path whose keys have no slash, and whose first and last characters are
   * not slash or space, renders to a text that parses back to the same path.
   */
  lemma RenderParse(p: Path)
    requires p.Basic?
    requires ValidKeys(Keys(p))
    requires forall i :: 0 <= i < |Keys(p)| ==> Strings.NoSlash(Keys(p)[i])
    requires Strings.Trim(Strings.Join(Keys(p))) == Strings.Join(Keys(p))
    ensures Segments(Strings.Join(Keys(p))) == Keys(p)
    ensures FromKeys(Segments(Strings.Join(Keys(p)))) == p
  {
    Strings.SplitJoin(Keys(p));
    KeysDetermine(p, FromKeys(Keys(p)));
  }
}
