/**
 * The three string operations path parsing relies on, with the behaviour of
 * Go's `strings.Trim(s, "/ ")`, `strings.Split(s, "/")` and
 * `strings.Join(xs, "/")`.
 */
module Strings {

  /** The characters `ParsePath` trims from both ends: slash and space. */
  predicate InCutset(c: char) {
    c == '/' || c == ' '
  }

  predicate AllCutset(s: string) {
    forall i :: 0 <= i < |s| ==> InCutset(s[i])
  }

  predicate NoSlash(s: string) {
    forall i :: 0 <= i < |s| ==> s[i] != '/'
  }

  /** Removes every leading slash and space. */
  function TrimLeft(s: string): (r: string)
    ensures |r| <= |s| && r == s[|s| - |r|..]
    ensures AllCutset(s[..|s| - |r|])
    ensures r == [] || !InCutset(r[0])
  {
    if s != [] && InCutset(s[0]) then TrimLeft(s[1..]) else s
  }

  /** Removes every trailing slash and space. */
  function TrimRight(s: string): (r: string)
    ensures |r| <= |s| && r == s[..|r|]
    ensures AllCutset(s[|r|..])
    ensures r == [] || !InCutset(r[|r| - 1])
  {
    if s != [] && InCutset(s[|s| - 1]) then TrimRight(s[..|s| - 1]) else s
  }

  /** `r` is the part of `s` from `i` on, with only slashes and spaces cut off before and after it. */
  predicate TrimmedAt(s: string, r: string, i: int) {
    0 <= i <= |s| - |r| && r == s[i..i + |r|] && AllCutset(s[..i]) && AllCutset(s[i + |r|..])
  }

  /** Removes every leading and trailing slash and space: what is left neither starts nor ends with one. */
  function Trim(s: string): (r: string)
    ensures exists i :: TrimmedAt(s, r, i)
    ensures r == [] || (!InCutset(r[0]) && !InCutset(r[|r| - 1]))
  {
    var l := TrimLeft(s);
    var r := TrimRight(l);
    TrimBothEnds(s, l, r);
    r
  }

  /**
   * A cutset run cut off the front, then one off the back, with no slash or
   * space left at either end: what is left is trimmed out of `s`.
   */
  lemma TrimBothEnds(s: string, l: string, r: string)
    requires |l| <= |s| && l == s[|s| - |l|..] && AllCutset(s[..|s| - |l|])
    requires l == [] || !InCutset(l[0])
    requires |r| <= |l| && r == l[..|r|] && AllCutset(l[|r|..])
    requires r == [] || !InCutset(r[|r| - 1])
    ensures TrimmedAt(s, r, |s| - |l|)
    ensures r == [] || (!InCutset(r[0]) && !InCutset(r[|r| - 1]))
  {
    CutBothEnds(s, |s| - |l|, l, r);
    if r != [] {
      assert r[0] == l[0];
    }
  }

  /** Cutting a cutset run off the front, then one off the back, leaves an infix with cutset runs around it. */
  lemma CutBothEnds(s: string, i: int, l: string, r: string)
    requires 0 <= i <= |s| && l == s[i..] && |r| <= |l| && r == l[..|r|] && AllCutset(l[|r|..])
    ensures i + |r| <= |s| && r == s[i..i + |r|] && AllCutset(s[i + |r|..])
  {
    assert s[i + |r|..] == l[|r|..];
  }

  /** The elements of `xs` separated by single slashes; the empty list gives "". */
  function Join(xs: seq<string>): string {
    if xs == [] then ""
    else if |xs| == 1 then xs[0]
    else xs[0] + "/" + Join(xs[1..])
  }

  /**
   * The pieces of `s` between slashes, in order: one more piece than `s`
   * has slashes, so "" gives [""] and "/" gives ["", ""].
   */
  function Split(s: string): (r: seq<string>)
    ensures |r| >= 1
    ensures forall i :: 0 <= i < |r| ==> NoSlash(r[i])
  {
    if s == [] then [""]
    else
      var rest := Split(s[1..]);
      if s[0] == '/' then [""] + rest else [[s[0]] + rest[0]] + rest[1..]
  }

  /** Joining the pieces of a split restores the string. */
  lemma {:induction false} JoinSplit(s: string)
    ensures Join(Split(s)) == s
  {
    if s != [] {
      var rest := Split(s[1..]);
      JoinSplit(s[1..]);
      if s[0] == '/' {
        assert Split(s) == [""] + rest;
        assert ([""] + rest)[1..] == rest;
      } else {
        var r := [[s[0]] + rest[0]] + rest[1..];
        assert Split(s) == r;
        if |rest| == 1 {
          assert Join(r) == [s[0]] + rest[0];
        } else {
          assert r[1..] == rest[1..];
          assert Join(r) == [s[0]] + rest[0] + "/" + Join(rest[1..]);
        }
        assert [s[0]] + s[1..] == s;
      }
    }
  }

  lemma {:induction false} SplitPrefix(x: string, t: string)
    requires NoSlash(x)
    ensures Split(x + t) == [x + Split(t)[0]] + Split(t)[1..]
  {
    if x != [] {
      assert (x + t)[0] == x[0] != '/';
      assert (x + t)[1..] == x[1..] + t;
      SplitPrefix(x[1..], t);
      var rest := Split(x[1..] + t);
      assert Split(x + t) == [[x[0]] + rest[0]] + rest[1..];
      assert [x[0]] + (x[1..] + Split(t)[0]) == x + Split(t)[0];
    } else {
      assert x + t == t;
      assert x + Split(t)[0] == Split(t)[0];
      assert [Split(t)[0]] + Split(t)[1..] == Split(t);
    }
  }

  /** Splitting slash-free keys joined by slashes gives the keys back. */
  lemma {:induction false} SplitJoin(xs: seq<string>)
    requires |xs| >= 1
    requires forall i :: 0 <= i < |xs| ==> NoSlash(xs[i])
    ensures Split(Join(xs)) == xs
  {
    if |xs| == 1 {
      SplitPrefix(xs[0], "");
      assert xs[0] + "" == xs[0];
    } else {
      SplitJoin(xs[1..]);
      var j := Join(xs[1..]);
      assert ("/" + j)[1..] == j;
      assert Split("/" + j) == [""] + xs[1..];
      SplitPrefix(xs[0], "/" + j);
      assert xs[0] + "/" + j == xs[0] + ("/" + j);
      assert Split(Join(xs)) == [xs[0] + ""] + xs[1..];
      assert xs[0] + "" == xs[0];
      assert [xs[0]] + xs[1..] == xs;
    }
  }

  lemma {:induction false} TrimLeftPrefix(pre: string, s: string)
    requires AllCutset(pre)
    ensures TrimLeft(pre + s) == TrimLeft(s)
  {
    if pre != [] {
      assert (pre + s)[1..] == pre[1..] + s;
      TrimLeftPrefix(pre[1..], s);
    } else {
      assert pre + s == s;
    }
  }

  lemma {:induction false} TrimRightSuffix(s: string, suf: string)
    requires AllCutset(suf)
    ensures TrimRight(s + suf) == TrimRight(s)
  {
    if suf != [] {
      var n := |suf| - 1;
      assert (s + suf)[..|s + suf| - 1] == s + suf[..n];
      TrimRightSuffix(s, suf[..n]);
    } else {
      assert s + suf == s;
    }
  }

  lemma {:induction false} TrimLeftAppend(s: string, suf: string)
    requires AllCutset(suf)
    ensures TrimLeft(s + suf) == TrimLeft(s) + suf || (TrimLeft(s) == [] && AllCutset(TrimLeft(s + suf)))
  {
    if s == [] {
      assert s + suf == suf;
    } else if InCutset(s[0]) {
      assert (s + suf)[1..] == s[1..] + suf;
      TrimLeftAppend(s[1..], suf);
    }
  }

  /**
   * Leading and trailing runs of slashes and spaces do not change the trimmed
   * text, so "/a/b/0/" and "a/b/0" trim alike.
   */
  lemma TrimSurrounding(pre: string, s: string, suf: string)
    requires AllCutset(pre) && AllCutset(suf)
    ensures Trim(pre + s + suf) == Trim(s)
  {
    assert pre + s + suf == pre + (s + suf);
    assert Trim(pre + s + suf) == TrimRight(TrimLeft(pre + s + suf));
    assert Trim(s) == TrimRight(TrimLeft(s));
    TrimLeftPrefix(pre, s + suf);
    TrimLeftAppend(s, suf);
    if TrimLeft(s + suf) == TrimLeft(s) + suf {
      TrimRightSuffix(TrimLeft(s), suf);
    } else {
      TrimRightAllCutset(TrimLeft(s + suf));
    }
  }

  lemma {:induction false} TrimRightAllCutset(s: string)
    requires AllCutset(s)
    ensures TrimRight(s) == []
  {
    if s != [] {
      TrimRightAllCutset(s[..|s| - 1]);
    }
  }
}
