/** Unix path strings as java.io.File treats them: the separator, joining a
    name onto a directory, absoluteness and the parent path. Paths are taken
    as already normalised (no doubled or trailing separators). */
module Paths {
  import opened Wrappers

  /** File.separatorChar on Android. */
  const Separator: char := '/'

  /** `dir + File.separator + name`. */
  function Join(dir: string, name: string): (p: string)
    ensures |p| == |dir| + 1 + |name|
    ensures p[..|dir|] == dir && p[|dir|] == Separator && p[|dir| + 1..] == name
  {
    dir + [Separator] + name
  }

  /** File.isAbsolute on Unix: the path starts with the separator. */
  predicate IsAbsolute(p: string)
  {
    |p| > 0 && p[0] == Separator
  }

  /** The length of the path's prefix: 1 for an absolute path, 0 otherwise. */
  function PrefixLength(p: string): (n: nat)
    ensures n <= |p|
    ensures n == 1 <==> IsAbsolute(p)
  {
    if IsAbsolute(p) then 1 else 0
  }

  /** String.lastIndexOf(char): the last position of `c` in `s`, or -1. */
  function LastIndexOf(s: string, c: char): (r: int)
    ensures -1 <= r < |s|
    ensures r == -1 ==> forall k :: 0 <= k < |s| ==> s[k] != c
    ensures r >= 0 ==> s[r] == c && forall k :: r < k < |s| ==> s[k] != c
  {
    LastIndexBefore(s, c, |s|)
  }

  /** The scan behind `LastIndexOf`, over the positions below `to`. */
  function LastIndexBefore(s: string, c: char, to: nat): (r: int)
    requires to <= |s|
    requires forall k :: to <= k < |s| ==> s[k] != c
    ensures -1 <= r < to
    ensures r == -1 ==> forall k :: 0 <= k < |s| ==> s[k] != c
    ensures r >= 0 ==> s[r] == c && forall k :: r < k < |s| ==> s[k] != c
  {
    if to == 0 then -1
    else if s[to - 1] == c then to - 1
    else LastIndexBefore(s, c, to - 1)
  }

  /** The last occurrence is the only position with the LastIndexOf property. */
  lemma LastIndexOfIs(s: string, c: char, i: int)
    requires 0 <= i < |s| && s[i] == c && forall k :: i < k < |s| ==> s[k] != c
    ensures LastIndexOf(s, c) == i
  {
    var r := LastIndexOf(s, c);
    assert r >= 0 by {
      assert s[i] == c;
    }
  }

  /** File.getParent: the path up to its last separator; for a separator
      inside the prefix, the prefix itself when something follows it and
      null otherwise. */
  function Parent(p: string): (r: Option<string>)
    ensures r.Some? ==> |r.value| < |p|
    ensures IsAbsolute(p) ==> (r.None? <==> p == [Separator])
    ensures IsAbsolute(p) && r.Some? ==> IsAbsolute(r.value)
    ensures IsAbsolute(p) && p != [Separator] ==>
      r == Some(if LastIndexOf(p, Separator) == 0 then [Separator] else p[..LastIndexOf(p, Separator)])
    ensures !IsAbsolute(p) ==>
      r == (if LastIndexOf(p, Separator) == -1 then None else Some(p[..LastIndexOf(p, Separator)]))
    ensures r.Some? && |r.value| > PrefixLength(p) ==>
      p[|r.value|] == Separator && Separator !in p[|r.value| + 1..]
  {
    var index := LastIndexOf(p, Separator);
    var prefix := PrefixLength(p);
    if index < prefix then
      if prefix > 0 && |p| > prefix then
        assert p[..prefix] == [p[0]];
        Some(p[..prefix])
      else None
    else Some(p[..index])
  }

  /** The parent of a directory joined with a plain name is that directory. */
  lemma ParentOfJoin(dir: string, name: string)
    requires IsAbsolute(dir)
    requires Separator !in name
    ensures Parent(Join(dir, name)) == Some(dir)
  {
    var p := Join(dir, name);
    forall k | |dir| < k < |p|
      ensures p[k] != Separator
    {
      assert p[k] == name[k - |dir| - 1];
    }
    LastIndexOfIs(p, Separator, |dir|);
  }
}
