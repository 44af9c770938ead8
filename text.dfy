/**
  The handful of Python `str` operations the monitor relies on: substring search
  (`in`, `find`), `split`, `join`, and stripping.  Strings are `seq<char>`.
*/
module Text {
  import opened Wrappers

  /** `pat` occurs in `s` starting at index `i`. */
  predicate OccursAt(s: string, pat: string, i: int) {
    0 <= i && i + |pat| <= |s| && s[i..i + |pat|] == pat
  }

  /** `s.find(pat)`: the index of the first occurrence of `pat` in `s`, if any. */
  function Find(s: string, pat: string): (r: Option<nat>)
    ensures r.Some? ==> OccursAt(s, pat, r.value)
    ensures r.Some? ==> forall j :: 0 <= j < r.value ==> !OccursAt(s, pat, j)
    ensures r.None? ==> forall j :: !OccursAt(s, pat, j)
    decreases |s|
  {
    if |s| < |pat| then None
    else if s[..|pat|] == pat then Some(0)
    else
      assert forall j :: 1 <= j ==> (OccursAt(s, pat, j) <==> OccursAt(s[1..], pat, j - 1)) by {
        forall j | 1 <= j ensures OccursAt(s, pat, j) == OccursAt(s[1..], pat, j - 1) {
          if j + |pat| <= |s| {
            var u, v := s[1..][j - 1..j - 1 + |pat|], s[j..j + |pat|];
            assert forall k :: 0 <= k < |pat| ==> u[k] == v[k];
            assert u == v;
          }
        }
      }
      match Find(s[1..], pat)
      case None => None
      case Some(k) => Some(k + 1)
  }

  /** Python's `pat in s`. */
  predicate Contains(s: string, pat: string) {
    Find(s, pat).Some?
  }

  /** `s.split(sep)`: the fields between successive non-overlapping occurrences of `sep`. */
  function Split(s: string, sep: string): (fields: seq<string>)
    requires |sep| > 0
    ensures |fields| >= 1
    decreases |s|
  {
    match Find(s, sep)
    case None => [s]
    case Some(i) => [s[..i]] + Split(s[i + |sep|..], sep)
  }

  /** A split has a single field exactly when the separator does not occur. */
  lemma SplitSingle(s: string, sep: string)
    requires |sep| > 0
    ensures |Split(s, sep)| == 1 <==> !Contains(s, sep)
  {
    match Find(s, sep)
    case None =>
    case Some(i) =>
      assert |Split(s, sep)| == 1 + |Split(s[i + |sep|..], sep)|;
  }

  /** `sep.join(parts)`. */
  function JoinWith(parts: seq<string>, sep: string): string
    decreases |parts|
  {
    if |parts| == 0 then ""
    else if |parts| == 1 then parts[0]
    else parts[0] + sep + JoinWith(parts[1..], sep)
  }

  /** Separators for which no occurrence can straddle the front of a fresh occurrence. */
  predicate SimpleSep(sep: string) {
    |sep| == 1 || (|sep| == 2 && sep[0] != sep[1])
  }

  /** One step of a split: the field before the first separator, then the split of the rest. */
  lemma SplitStep(s: string, sep: string, i: nat)
    requires |sep| > 0 && Find(s, sep) == Some(i)
    ensures Split(s, sep) == [s[..i]] + Split(s[i + |sep|..], sep)
  {
  }

  /** The first field of a split is the text up to the first separator, or all of it when there is none. */
  lemma FirstField(s: string, sep: string)
    requires |sep| > 0
    ensures var f := Split(s, sep)[0];
      |f| <= |s| && s[..|f|] == f && (|f| == |s| || OccursAt(s, sep, |f|))
  {
    match Find(s, sep)
    case None =>
    case Some(i) => SplitStep(s, sep, i);
  }

  /** Joining a field in front of at least one more puts the separator between them. */
  lemma JoinStep(a: string, fields: seq<string>, sep: string)
    requires |fields| >= 1
    ensures JoinWith([a] + fields, sep) == a + sep + JoinWith(fields, sep)
  {
    assert ([a] + fields)[1..] == fields;
  }

  /** Joining the fields of a split gives back the original string. */
  lemma {:induction false} SplitThenJoin(s: string, sep: string)
    requires |sep| > 0
    ensures JoinWith(Split(s, sep), sep) == s
    decreases |s|
  {
    match Find(s, sep)
    case None =>
    case Some(i) =>
      var rest := s[i + |sep|..];
      SplitThenJoin(rest, sep);
      SplitStep(s, sep, i);
      JoinStep(s[..i], Split(rest, sep), sep);
      CutTwice(s, i, i + |sep|);
  }

  /** A string is its three pieces cut at `i` and `j`. */
  lemma CutTwice(s: string, i: nat, j: nat)
    requires i <= j <= |s|
    ensures s == s[..i] + s[i..j] + s[j..]
  {
  }

  /** No field of a split contains the separator. */
  lemma {:induction false} SplitFieldsAvoidSep(s: string, sep: string)
    requires |sep| > 0
    ensures forall f :: f in Split(s, sep) ==> !Contains(f, sep)
    decreases |s|
  {
    match Find(s, sep)
    case None =>
    case Some(i) =>
      var rest := s[i + |sep|..];
      SplitFieldsAvoidSep(rest, sep);
      forall j | 0 <= j ensures !OccursAt(s[..i], sep, j) {
        if j + |sep| <= i {
          var inField, inWhole := s[..i][j..j + |sep|], s[j..j + |sep|];
          forall k | 0 <= k < |sep| ensures inField[k] == inWhole[k] {
            assert s[..i][j + k] == s[j + k];
          }
          assert inField == inWhole;
          assert !OccursAt(s, sep, j);
        }
      }
      assert !Contains(s[..i], sep);
      assert Split(s, sep) == [s[..i]] + Split(rest, sep);
  }

  /** When `a` does not contain `sep`, the first occurrence of `sep` in `a + sep + b` is the one right after `a`. */
  lemma FindAfterPrefix(a: string, sep: string, b: string)
    requires SimpleSep(sep) && !Contains(a, sep)
    ensures Find(a + sep + b, sep) == Some(|a|)
  {
    var s := a + sep + b;
    assert s[|a|..|a| + |sep|] == sep;
    assert OccursAt(s, sep, |a|);
    forall j | 0 <= j && j + |sep| <= |a| ensures OccursAt(a, sep, j) == OccursAt(s, sep, j) {
      var inA, inS := a[j..j + |sep|], s[j..j + |sep|];
      forall k | 0 <= k < |sep| ensures inA[k] == inS[k] {
        assert s[j + k] == a[j + k];
      }
      assert inA == inS;
    }
    assert s[|a|] == sep[0];
    assert forall j :: 0 <= j < |a| ==> !OccursAt(s, sep, j);
  }

  /** The first field of `a + sep + b` is `a` and the rest is the split of `b`. */
  lemma SplitAfterPrefix(a: string, sep: string, b: string)
    requires SimpleSep(sep) && !Contains(a, sep)
    ensures Split(a + sep + b, sep) == [a] + Split(b, sep)
  {
    FindAfterPrefix(a, sep, b);
    var s := a + sep + b;
    assert s[..|a|] == a;
    assert s[|a| + |sep|..] == b;
  }

  /** Two strings free of a simple separator stay free of it when concatenated, unless it straddles the seam. */
  lemma ConcatAvoidsSep(a: string, b: string, sep: string)
    requires SimpleSep(sep) && !Contains(a, sep) && !Contains(b, sep)
    requires |sep| == 2 && |a| > 0 && |b| > 0 ==> !(a[|a| - 1] == sep[0] && b[0] == sep[1])
    ensures !Contains(a + b, sep)
  {
    var s := a + b;
    forall j | 0 <= j && j + |sep| <= |a| ensures OccursAt(a, sep, j) == OccursAt(s, sep, j) {
      var inA, inS := a[j..j + |sep|], s[j..j + |sep|];
      forall k | 0 <= k < |sep| ensures inA[k] == inS[k] {
        assert s[j + k] == a[j + k];
      }
      assert inA == inS;
    }
    forall j | |a| <= j ensures OccursAt(b, sep, j - |a|) == OccursAt(s, sep, j) {
      if j + |sep| <= |s| {
        var inB, inS := b[j - |a|..j - |a| + |sep|], s[j..j + |sep|];
        forall k | 0 <= k < |sep| ensures inB[k] == inS[k] {
          assert s[j + k] == b[j - |a| + k];
        }
        assert inB == inS;
      }
    }
    if |sep| == 2 && |a| > 0 && |b| > 0 {
      assert s[|a| - 1] == a[|a| - 1] && s[|a|] == b[0];
    }
    assert forall j :: !OccursAt(s, sep, j);
  }

  /** A string none of whose characters starts `pat` does not contain `pat`. */
  lemma NoLeadNoContains(s: string, pat: string)
    requires |pat| > 0 && forall k :: 0 <= k < |s| ==> s[k] != pat[0]
    ensures !Contains(s, pat)
  {
    forall j | 0 <= j ensures !OccursAt(s, pat, j) {
      if j + |pat| <= |s| { assert s[j..j + |pat|][0] == s[j]; }
    }
  }

  /** The characters `str.isspace` accepts, which is what Python's argument-less `strip` family removes. */
  predicate IsSpace(c: char) {
    || '\t' <= c <= '\r'                // tab, line feed, vertical tab, form feed, carriage return
    || '\U{1C}' <= c <= '\U{1F}'        // the file, group, record and unit separators
    || c == ' ' || c == '\U{85}' || c == '\U{A0}' || c == '\U{1680}'
    || '\U{2000}' <= c <= '\U{200A}'
    || c == '\U{2028}' || c == '\U{2029}' || c == '\U{202F}' || c == '\U{205F}' || c == '\U{3000}'
  }

  /** `s.rstrip()`. */
  function RStrip(s: string): (r: string)
    ensures |r| <= |s|
    decreases |s|
  {
    if |s| > 0 && IsSpace(s[|s| - 1]) then RStrip(s[..|s| - 1]) else s
  }

  /** `rstrip` removes a run of trailing whitespace and nothing else. */
  lemma {:induction false} RStripSpec(s: string)
    ensures RStrip(s) == s[..|RStrip(s)|]
    ensures |RStrip(s)| > 0 ==> !IsSpace(RStrip(s)[|RStrip(s)| - 1])
    ensures forall k :: |RStrip(s)| <= k < |s| ==> IsSpace(s[k])
    decreases |s|
  {
    if |s| > 0 && IsSpace(s[|s| - 1]) {
      var front := s[..|s| - 1];
      RStripSpec(front);
      assert front[..|RStrip(front)|] == s[..|RStrip(front)|];
      forall k | |RStrip(s)| <= k < |s| ensures IsSpace(s[k]) {
        if k < |s| - 1 {
          assert s[k] == front[k];
        }
      }
    }
  }

  /** `s.lstrip()`. */
  function LStrip(s: string): (r: string)
    ensures |r| <= |s|
    decreases |s|
  {
    if |s| > 0 && IsSpace(s[0]) then LStrip(s[1..]) else s
  }

  /** `lstrip` removes a run of leading whitespace and nothing else. */
  lemma {:induction false} LStripSpec(s: string)
    ensures LStrip(s) == s[|s| - |LStrip(s)|..]
    ensures |LStrip(s)| > 0 ==> !IsSpace(LStrip(s)[0])
    ensures forall k :: 0 <= k < |s| - |LStrip(s)| ==> IsSpace(s[k])
    decreases |s|
  {
    if |s| > 0 && IsSpace(s[0]) {
      var rest := s[1..];
      LStripSpec(rest);
      assert rest[|rest| - |LStrip(rest)|..] == s[|s| - |LStrip(rest)|..];
      forall k | 0 <= k < |s| - |LStrip(s)| ensures IsSpace(s[k]) {
        if k > 0 {
          assert s[k] == rest[k - 1];
        }
      }
    }
  }

  /** `s.strip()`. */
  function Strip(s: string): string {
    LStrip(RStrip(s))
  }

  /** `s.endswith(suffix)`. */
  predicate EndsWith(s: string, suffix: string) {
    |suffix| <= |s| && s[|s| - |suffix|..] == suffix
  }

  /** `s.startswith(prefix)`. */
  predicate StartsWith(s: string, prefix: string) {
    |prefix| <= |s| && s[..|prefix|] == prefix
  }
}
