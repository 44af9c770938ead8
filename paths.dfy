/**
  POSIX path handling as Python's `posixpath` does it for the calls the monitor makes:
  `os.path.join`, `os.path.normpath`, `os.path.basename` and `path.split(os.sep)[-1]`.
*/
module Paths {
  import opened Wrappers
  import opened Text

  /** `os.sep` on POSIX. */
  const Sep: string := "/"

  /** A single directory entry name: non-empty, no separator, and neither `.` nor `..`. */
  predicate PlainName(name: string) {
    |name| > 0 && !Contains(name, Sep) && name != "." && name != ".."
  }

  /** `os.path.join(a, b)`: an absolute `b` replaces `a`; otherwise one separator is inserted unless `a` is empty or already ends in one. */
  function Join(a: string, b: string): (r: string)
    ensures EndsWith(r, b)
    ensures StartsWith(b, Sep) ==> r == b
    ensures !StartsWith(b, Sep) ==> r == a + (if |a| == 0 || a[|a| - 1] == '/' then "" else Sep) + b
  {
    if StartsWith(b, Sep) then b
    else if |a| == 0 || a[|a| - 1] == '/' then a + b
    else a + Sep + b
  }

  /** `os.path.basename(p)`, which is also `p.split(os.sep)[-1]`: the text after the last separator. */
  function Basename(p: string): string {
    var fields := Split(p, Sep);
    fields[|fields| - 1]
  }

  /** `p.rstrip(os.sep)`. */
  function RStripSep(p: string): (r: string)
    ensures |r| <= |p| && r == p[..|r|]
    ensures |r| > 0 ==> r[|r| - 1] != '/'
    ensures forall k :: |r| <= k < |p| ==> p[k] == '/'
    decreases |p|
  {
    if |p| > 0 && p[|p| - 1] == '/' then RStripSep(p[..|p| - 1]) else p
  }

  /** `n` separators in a row. */
  function Slashes(n: nat): (r: string)
    ensures |r| == n && forall k :: 0 <= k < n ==> r[k] == '/'
  {
    seq(n, _ => '/')
  }

  /** How many leading separators `normpath` keeps: POSIX reserves exactly two; three or more collapse to one. */
  function LeadingSlashes(p: string): nat {
    if StartsWith(p, "//") && !StartsWith(p, "///") then 2
    else if StartsWith(p, Sep) then 1
    else 0
  }

  /** One turn of `normpath`'s component loop: drop empty and `.` parts, let `..` cancel the previous part where it can. */
  function NormStep(acc: seq<string>, comp: string, rooted: bool): seq<string> {
    if comp == "" || comp == "." then acc
    else if comp != ".." || (!rooted && acc == []) || (acc != [] && acc[|acc| - 1] == "..") then acc + [comp]
    else if acc != [] then acc[..|acc| - 1]
    else acc
  }

  /** `normpath`'s component loop run over `comps` from left to right. */
  function NormComps(comps: seq<string>, rooted: bool): seq<string>
    decreases |comps|
  {
    if comps == [] then []
    else NormStep(NormComps(comps[..|comps| - 1], rooted), comps[|comps| - 1], rooted)
  }

  /** `os.path.normpath(p)` on POSIX. */
  function Normpath(p: string): (r: string)
    ensures |r| > 0
  {
    if p == "" then "."
    else
      var slashes := LeadingSlashes(p);
      var q := Slashes(slashes) + JoinWith(NormComps(Split(p, Sep), slashes > 0), Sep);
      if q == "" then "." else q
  }

  /** A first occurrence in `a` stays the first occurrence once anything is appended. */
  lemma FindExtends(a: string, pat: string, t: string, i: nat)
    requires Find(a, pat) == Some(i)
    ensures Find(a + t, pat) == Some(i)
  {
    var s := a + t;
    forall j | 0 <= j <= i ensures OccursAt(a, pat, j) == OccursAt(s, pat, j) {
      if j + |pat| <= |a| { assert a[j..j + |pat|] == s[j..j + |pat|]; }
    }
  }

  /** Appending a separator and a separator-free field adds exactly that field to the split. */
  lemma {:induction false} SplitAppendField(a: string, b: string)
    requires !Contains(b, Sep)
    ensures Split(a + Sep + b, Sep) == Split(a, Sep) + [b]
    decreases |a|
  {
    match Find(a, Sep)
    case None =>
      SplitAfterPrefix(a, Sep, b);
      assert Split(b, Sep) == [b];
    case Some(i) =>
      SplitAppendField(a[i + 1..], b);
      SplitAppendAfterFirst(a, b, i);
  }

  /** The inductive step of `SplitAppendField`: past the first separator of `a`, the rest carries the claim. */
  lemma SplitAppendAfterFirst(a: string, b: string, i: nat)
    requires Find(a, Sep) == Some(i)
    requires Split(a[i + 1..] + Sep + b, Sep) == Split(a[i + 1..], Sep) + [b]
    ensures Split(a + Sep + b, Sep) == Split(a, Sep) + [b]
  {
    var w, h, t := a + Sep + b, a[..i], a[i + 1..];
    FirstSepAfterAppend(a, b, i);
    SplitStep(w, Sep, i);
    SplitStep(a, Sep, i);
    ConsThenSnoc(Split(w, Sep), Split(a, Sep), h, Split(t, Sep), b);
  }

  /** Putting a field in front commutes with appending one at the back. */
  lemma ConsThenSnoc(whole: seq<string>, front: seq<string>, h: string, tail: seq<string>, b: string)
    requires whole == [h] + (tail + [b]) && front == [h] + tail
    ensures whole == front + [b]
  {
  }

  /** The first separator of `a` is still the first one of `a/b`, with the same text on either side within `a`. */
  lemma FirstSepAfterAppend(a: string, b: string, i: nat)
    requires Find(a, Sep) == Some(i)
    ensures Find(a + Sep + b, Sep) == Some(i)
    ensures (a + Sep + b)[..i] == a[..i] && (a + Sep + b)[i + 1..] == a[i + 1..] + Sep + b
  {
    assert a + Sep + b == a + (Sep + b);
    FindExtends(a, Sep, Sep + b, i);
  }

  /** The base name of `a/b` is `b` when `b` holds no separator. */
  lemma BasenameAfterSep(a: string, b: string)
    requires !Contains(b, Sep)
    ensures Basename(a + Sep + b) == b
  {
    SplitAppendField(a, b);
  }

  /** `'/'.join(xs + [x])` puts one separator before `x`. */
  lemma {:induction false} JoinWithAppend(xs: seq<string>, x: string, sep: string)
    requires xs != []
    ensures JoinWith(xs + [x], sep) == JoinWith(xs, sep) + sep + x
    decreases |xs|
  {
    if |xs| > 1 {
      assert (xs + [x])[1..] == xs[1..] + [x];
      JoinWithAppend(xs[1..], x, sep);
    }
  }

  /** The split of `os.path.join(root, name)` ends with `name` as its own field. */
  lemma SplitOfJoin(root: string, name: string) returns (front: seq<string>)
    requires PlainName(name)
    ensures Split(Join(root, name), Sep) == front + [name]
  {
    if |root| == 0 {
      front := [];
    } else if root[|root| - 1] == '/' {
      var r := root[..|root| - 1];
      assert root == r + Sep;
      assert Join(root, name) == r + Sep + name;
      SplitAppendField(r, name);
      front := Split(r, Sep);
    } else {
      SplitAppendField(root, name);
      front := Split(root, Sep);
    }
  }

  /** A plain name survives `normpath`'s component loop as the last component. */
  lemma NormCompsAppendPlain(front: seq<string>, name: string, rooted: bool)
    requires PlainName(name)
    ensures NormComps(front + [name], rooted) == NormComps(front, rooted) + [name]
  {
    var comps := front + [name];
    assert comps[..|comps| - 1] == front;
  }

  /** Leading separators followed by components ending in a plain name have that name as base name. */
  lemma BasenameOfRebuilt(k: nat, kept: seq<string>, name: string)
    requires PlainName(name)
    ensures Basename(Slashes(k) + JoinWith(kept + [name], Sep)) == name
  {
    var q := Slashes(k) + JoinWith(kept + [name], Sep);
    if kept == [] {
      assert kept + [name] == [name];
      if k == 0 {
        assert q == name;
      } else {
        assert Slashes(k) == Slashes(k - 1) + Sep;
        assert q == Slashes(k - 1) + Sep + name;
        BasenameAfterSep(Slashes(k - 1), name);
      }
    } else {
      JoinWithAppend(kept, name, Sep);
      assert q == (Slashes(k) + JoinWith(kept, Sep)) + Sep + name;
      BasenameAfterSep(Slashes(k) + JoinWith(kept, Sep), name);
    }
  }

  /**
    Normalising a path built by joining a plain entry name to any directory keeps that name as
    the last path segment, whatever the directory's spelling (extra separators, `.`, `..`).
  */
  lemma NormpathKeepsName(root: string, name: string)
    requires PlainName(name)
    ensures Basename(Normpath(Join(root, name))) == name
  {
    var p := Join(root, name);
    var front := SplitOfJoin(root, name);
    var k := LeadingSlashes(p);
    NormCompsAppendPlain(front, name, k > 0);
    var kept := NormComps(front, k > 0);
    BasenameOfRebuilt(k, kept, name);
    assert |p| > 0;
  }
}
