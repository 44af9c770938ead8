/**
  `sorted(all_items, key=lambda x: x['item'][2])`: Python's sort is stable, so inventory items are
  ordered by modification time with ties kept in collection order.  The model sorts by insertion and
  proves the result ordered, a permutation, and stable; any ordered sequence with the same items of
  each mtime, in the same relative order, is that result.
*/
module StableSort {
  import opened DirectoryHandler

  /** Ascending by modification time. */
  predicate SortedByMtime(s: seq<Item>) {
    forall i, j :: 0 <= i < j < |s| ==> s[i].mtime <= s[j].mtime
  }

  /** The items of `s` modified at time `t`, in their order in `s`. */
  function WithMtime(s: seq<Item>, t: int): seq<Item> {
    if s == [] then []
    else WithMtime(s[..|s| - 1], t) + (if s[|s| - 1].mtime == t then [s[|s| - 1]] else [])
  }

  /** Inserts `x` after every element of `sorted` that is not newer than it. */
  function InsertByMtime(sorted: seq<Item>, x: Item): seq<Item> {
    if sorted == [] || sorted[|sorted| - 1].mtime <= x.mtime then sorted + [x]
    else InsertByMtime(sorted[..|sorted| - 1], x) + [sorted[|sorted| - 1]]
  }

  /** The stable sort by modification time. */
  function SortByMtime(s: seq<Item>): seq<Item> {
    if s == [] then [] else InsertByMtime(SortByMtime(s[..|s| - 1]), s[|s| - 1])
  }

  lemma {:induction false} InsertMultiset(sorted: seq<Item>, x: Item)
    ensures multiset(InsertByMtime(sorted, x)) == multiset(sorted) + multiset{x}
    decreases |sorted|
  {
    if !(sorted == [] || sorted[|sorted| - 1].mtime <= x.mtime) {
      var n := |sorted| - 1;
      InsertMultiset(sorted[..n], x);
      assert sorted == sorted[..n] + [sorted[n]];
    }
  }

  /** Inserting into a sorted sequence keeps it sorted. */
  lemma {:induction false} InsertSorted(sorted: seq<Item>, x: Item)
    requires SortedByMtime(sorted)
    ensures SortedByMtime(InsertByMtime(sorted, x))
    decreases |sorted|
  {
    if sorted == [] || sorted[|sorted| - 1].mtime <= x.mtime {
      SortedSnoc(sorted, x);
    } else {
      var n := |sorted| - 1;
      var front := InsertByMtime(sorted[..n], x);
      InsertSorted(sorted[..n], x);
      InsertBounded(sorted, x);
      SortedSnoc(front, sorted[n]);
    }
  }

  /** Appending an item no older than any present keeps a sequence sorted. */
  lemma SortedSnoc(front: seq<Item>, y: Item)
    requires SortedByMtime(front)
    requires forall i :: 0 <= i < |front| ==> front[i].mtime <= y.mtime
    ensures SortedByMtime(front + [y])
  {
  }

  /** When `x` goes before the last item of `sorted`, everything it is inserted among is no newer than that last item. */
  lemma InsertBounded(sorted: seq<Item>, x: Item)
    requires SortedByMtime(sorted) && sorted != [] && x.mtime < sorted[|sorted| - 1].mtime
    ensures var n := |sorted| - 1;
      forall i :: 0 <= i < |InsertByMtime(sorted[..n], x)| ==> InsertByMtime(sorted[..n], x)[i].mtime <= sorted[n].mtime
  {
    var n := |sorted| - 1;
    var front := InsertByMtime(sorted[..n], x);
    InsertMultiset(sorted[..n], x);
    forall i | 0 <= i < |front| ensures front[i].mtime <= sorted[n].mtime {
      assert front[i] in multiset(front);
      assert front[i] == x || front[i] in sorted[..n];
    }
  }

  /** The items of `front + [y]` modified at `t` are those of `front`, then `y` if it was. */
  lemma WithMtimeSnoc(front: seq<Item>, y: Item, t: int)
    ensures WithMtime(front + [y], t) == WithMtime(front, t) + (if y.mtime == t then [y] else [])
  {
    assert (front + [y])[..|front|] == front;
  }

  /** Inserting `x` adds it after the items of its own mtime and leaves every other mtime's items as they were. */
  lemma {:induction false} InsertStable(sorted: seq<Item>, x: Item, t: int)
    ensures WithMtime(InsertByMtime(sorted, x), t) == WithMtime(sorted, t) + (if x.mtime == t then [x] else [])
    decreases |sorted|
  {
    if sorted == [] || sorted[|sorted| - 1].mtime <= x.mtime {
      WithMtimeSnoc(sorted, x, t);
    } else {
      var n := |sorted| - 1;
      var front := InsertByMtime(sorted[..n], x);
      InsertStable(sorted[..n], x, t);
      WithMtimeSnoc(front, sorted[n], t);
      WithMtimeSnoc(sorted[..n], sorted[n], t);
      assert sorted[..n] + [sorted[n]] == sorted;
      var inserted := if x.mtime == t then [x] else [];
      var last := if sorted[n].mtime == t then [sorted[n]] else [];
      assert inserted == [] || last == [];
      SwapEmpty(WithMtime(sorted[..n], t), inserted, last);
    }
  }

  /** Two pieces of which one is empty can be appended in either order. */
  lemma SwapEmpty(a: seq<Item>, b: seq<Item>, c: seq<Item>)
    requires b == [] || c == []
    ensures a + b + c == a + c + b
  {
    if b == [] {
      assert a + b == a && a + c + b == a + c;
    } else {
      assert a + c == a && a + b + c == a + b;
    }
  }

  /** The sort orders the items by modification time. */
  lemma {:induction false} SortIsSorted(s: seq<Item>)
    ensures SortedByMtime(SortByMtime(s))
    decreases |s|
  {
    if s != [] {
      SortIsSorted(s[..|s| - 1]);
      InsertSorted(SortByMtime(s[..|s| - 1]), s[|s| - 1]);
    }
  }

  /** The sort neither loses nor invents items. */
  lemma {:induction false} SortIsPermutation(s: seq<Item>)
    ensures multiset(SortByMtime(s)) == multiset(s)
    decreases |s|
  {
    if s != [] {
      var n := |s| - 1;
      SortIsPermutation(s[..n]);
      InsertMultiset(SortByMtime(s[..n]), s[n]);
      MultisetSnoc(s);
    }
  }

  /** The items of a non-empty sequence are those before its last one, and that one. */
  lemma MultisetSnoc(s: seq<Item>)
    requires s != []
    ensures multiset(s) == multiset(s[..|s| - 1]) + multiset{s[|s| - 1]}
  {
    assert s == s[..|s| - 1] + [s[|s| - 1]];
  }

  /** The sort is stable: items sharing a modification time keep their relative order. */
  lemma {:induction false} SortIsStable(s: seq<Item>, t: int)
    ensures WithMtime(SortByMtime(s), t) == WithMtime(s, t)
    decreases |s|
  {
    if s != [] {
      var n := |s| - 1;
      SortIsStable(s[..n], t);
      InsertStable(SortByMtime(s[..n]), s[n], t);
    }
  }

  lemma {:induction false} WithMtimeMembers(s: seq<Item>, t: int)
    ensures forall x :: x in WithMtime(s, t) ==> x in s && x.mtime == t
    decreases |s|
  {
    if s != [] {
      WithMtimeMembers(s[..|s| - 1], t);
    }
  }

  /** When two sequences hold the same items of each mtime and `q` is ordered, `q` reaches at least as late an mtime as `r` ends with. */
  lemma LastMtimeBound(r: seq<Item>, q: seq<Item>)
    requires SortedByMtime(q)
    requires forall t :: WithMtime(r, t) == WithMtime(q, t)
    ensures r != [] ==> q != [] && q[|q| - 1].mtime >= r[|r| - 1].mtime
  {
    if r != [] {
      var k := r[|r| - 1].mtime;
      assert r[|r| - 1] in WithMtime(r, k);
      WithMtimeMembers(q, k);
      var x := r[|r| - 1];
      assert x in q;
      var i :| 0 <= i < |q| && q[i] == x;
      assert q[i].mtime <= q[|q| - 1].mtime || i == |q| - 1;
    }
  }

  /**
    A stable sort by mtime has only one possible result: two ordered sequences holding the same
    items of each mtime in the same relative order are equal.  So `SortByMtime` is what any stable
    sort, Python's included, returns.
  */
  lemma {:induction false} StableSortUnique(r: seq<Item>, q: seq<Item>)
    requires SortedByMtime(r) && SortedByMtime(q)
    requires forall t :: WithMtime(r, t) == WithMtime(q, t)
    ensures r == q
    decreases |r| + |q|
  {
    LastMtimeBound(r, q);
    LastMtimeBound(q, r);
    if r != [] {
      var n, m := |r| - 1, |q| - 1;
      var k := r[n].mtime;
      assert WithMtime(r, k) == WithMtime(r[..n], k) + [r[n]];
      assert WithMtime(q, k) == WithMtime(q[..m], k) + [q[m]];
      assert q[m].mtime == k;
      assert WithMtime(q, k) == WithMtime(q[..m], k) + [q[m]];
      forall t ensures WithMtime(r[..n], t) == WithMtime(q[..m], t) {
        if t == k {
          var a := WithMtime(r, k);
          assert WithMtime(r[..n], k) == a[..|a| - 1];
          assert WithMtime(q[..m], k) == a[..|a| - 1];
        } else {
          assert r[n].mtime != t && q[m].mtime != t;
          assert WithMtime(r[..n], t) == WithMtime(r, t);
          assert WithMtime(q[..m], t) == WithMtime(q, t);
        }
      }
      assert r[n] == WithMtime(r, k)[|WithMtime(r, k)| - 1];
      StableSortUnique(r[..n], q[..m]);
      assert r == r[..n] + [r[n]] && q == q[..m] + [q[m]];
    }
  }

  /** `SortByMtime` is the stable sort: ordered, and any stable ordering of `s` equals it. */
  lemma SortIsTheStableSort(s: seq<Item>, r: seq<Item>)
    requires SortedByMtime(r) && forall t :: WithMtime(r, t) == WithMtime(s, t)
    ensures r == SortByMtime(s)
  {
    SortIsSorted(s);
    forall t ensures WithMtime(r, t) == WithMtime(SortByMtime(s), t) {
      SortIsStable(s, t);
    }
    StableSortUnique(r, SortByMtime(s));
  }
}
