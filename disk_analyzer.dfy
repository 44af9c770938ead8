/**
  The eviction planner and deleter (`DiskAnalyzer`): decide whether space must be reclaimed, pick the
  oldest items until the deficit is covered, render each as a descriptor
  `"<Label>: <name>, Size: <GiB> GiB, Modified: <time>"`, and later parse descriptors back to remove
  the named entries.
*/
module DiskAnalyzer {
  import opened Wrappers
  import opened Text
  import opened Paths
  import opened DirectoryHandler
  import opened StableSort

  const BytesPerGib: nat := 1024 * 1024 * 1024

  /** `gib_to_bytes`: gibibytes to bytes. */
  function GibToBytes(gib: int): int {
    gib * BytesPerGib
  }

  /** A threshold stored in bytes is always a whole number of gibibytes, and the conversion loses nothing. */
  lemma GibToBytesWhole(gib: int)
    ensures GibToBytes(gib) % BytesPerGib == 0 && GibToBytes(gib) / BytesPerGib == gib
  {
    assert GibToBytes(gib) == BytesPerGib * gib + 0;
  }

  /** `dict(zip(dirs, labels))` as insertion-ordered (directory, label) pairs. */
  type LabelMapping = seq<(string, string)>

  /** The label written when no watched directory matches a path. */
  const NoLabel: string := "No_label"

  /** The `, Size: ... GiB, Modified: ...` tail of a descriptor, rendered from an item's size and mtime. */
  type StatsRenderer = (nat, int) -> string

  /** What every rendered tail begins with. */
  const SizeTag: string := ", Size: "

  /** The index of the first mapping entry whose directory is a substring of `path`. */
  function FirstMatch(mapping: LabelMapping, path: string): (r: Option<nat>)
    ensures r.Some? ==> r.value < |mapping| && Contains(path, mapping[r.value].0)
    ensures r.Some? ==> forall j :: 0 <= j < r.value ==> !Contains(path, mapping[j].0)
    ensures r.None? ==> forall j :: 0 <= j < |mapping| ==> !Contains(path, mapping[j].0)
  {
    if mapping == [] then None
    else if Contains(path, mapping[0].0) then Some(0)
    else match FirstMatch(mapping[1..], path)
      case None => None
      case Some(k) => Some(k + 1)
  }

  /** The label `format_items` picks for a normalised path. */
  function LabelFor(mapping: LabelMapping, path: string): string {
    match FirstMatch(mapping, path)
    case Some(i) => mapping[i].1
    case None => NoLabel
  }

  /** The layout of a descriptor: `"<tag>: <name>"` followed by the rendered size and time. */
  function Descriptor(tag: string, name: string, tail: string): string {
    tag + ": " + name + tail
  }

  /** The descriptor of a normalised path: its label, its last segment, then the rendered size and time. */
  function DescribePath(mapping: LabelMapping, path: string, tail: string): string {
    Descriptor(LabelFor(mapping, path), Basename(path), tail)
  }

  /** The descriptor `format_items` produces for an item. */
  function Describe(mapping: LabelMapping, stats: StatsRenderer, item: Item): string {
    DescribePath(mapping, Normpath(item.path), stats(item.size, item.mtime))
  }

  /** The descriptors of `items`, in order. */
  function DescribeAll(mapping: LabelMapping, stats: StatsRenderer, items: seq<Item>): (r: seq<string>)
    ensures |r| == |items|
  {
    if items == [] then []
    else DescribeAll(mapping, stats, items[..|items| - 1]) + [Describe(mapping, stats, items[|items| - 1])]
  }

  lemma DescribeAllStep(mapping: LabelMapping, stats: StatsRenderer, s: seq<Item>, k: nat)
    requires k < |s|
    ensures DescribeAll(mapping, stats, s[..k + 1]) == DescribeAll(mapping, stats, s[..k]) + [Describe(mapping, stats, s[k])]
  {
    assert s[..k + 1][..k] == s[..k];
  }

  /** Appending the descriptor of the next record extends the descriptors of the records before it. */
  lemma DescribeAllSnoc(mapping: LabelMapping, stats: StatsRenderer, s: seq<Item>, k: nat, before: seq<string>, message: string)
    requires k < |s| && before == DescribeAll(mapping, stats, s[..k]) && message == Describe(mapping, stats, s[k])
    ensures before + [message] == DescribeAll(mapping, stats, s[..k + 1])
  {
    DescribeAllStep(mapping, stats, s, k);
  }

  /** `DiskAnalyzer.format_items(item)`: scans the mapping in insertion order and stops at the first directory found in the path. */
  method FormatItems(mapping: LabelMapping, stats: StatsRenderer, item: Item) returns (message: string)
    ensures message == Describe(mapping, stats, item)
  {
    var path := Normpath(item.path);
    var pathSplit := Split(path, Sep);
    var chosen := NoLabel;
    var i := 0;
    // The scan stops at the first directory that occurs in the path, as the `break` does.
    while i < |mapping| && !Contains(path, mapping[i].0)
      invariant 0 <= i <= |mapping|
      invariant forall j :: 0 <= j < i ==> !Contains(path, mapping[j].0)
    {
      i := i + 1;
    }
    if i < |mapping| {
      chosen := mapping[i].1;
    }
    LabelAt(mapping, path, i, chosen);
    assert pathSplit[|pathSplit| - 1] == Basename(path);
    message := Descriptor(chosen, pathSplit[|pathSplit| - 1], stats(item.size, item.mtime));
  }

  /** The first directory of the mapping found in the path decides its label; with none found the label is `NoLabel`. */
  lemma LabelAt(mapping: LabelMapping, path: string, i: nat, chosen: string)
    requires i <= |mapping| && forall j :: 0 <= j < i ==> !Contains(path, mapping[j].0)
    requires i < |mapping| ==> Contains(path, mapping[i].0) && chosen == mapping[i].1
    requires i == |mapping| ==> chosen == NoLabel
    ensures LabelFor(mapping, path) == chosen
  {
    var r := FirstMatch(mapping, path);
    if i < |mapping| {
      assert r.Some? && r.value == i;
    }
  }

  // ----- eviction planning -----

  /** A `DiskAnalyzer` after construction: watched roots, free bytes at their mount point, the threshold in bytes, and the root-to-label mapping. */
  datatype Analyzer = Analyzer(dirs: seq<string>, freeSpace: int, threshold: int, labelMapping: LabelMapping)

  /** `DiskAnalyzer.__init__` once the free space of the common mount point is known: the threshold is given in GiB and kept in bytes. */
  function NewAnalyzer(dirs: seq<string>, thresholdGib: int, labelMapping: LabelMapping, freeSpace: int): (a: Analyzer)
    ensures a.threshold % BytesPerGib == 0 && a.threshold / BytesPerGib == thresholdGib
    ensures a.dirs == dirs && a.freeSpace == freeSpace && a.labelMapping == labelMapping
  {
    GibToBytesWhole(thresholdGib);
    Analyzer(dirs, freeSpace, GibToBytes(thresholdGib), labelMapping)
  }

  /** The directory listings of the file system: each existing directory path mapped to its scan entries. */
  type Listing = map<string, seq<Node>>

  /** The records of every watched root, root by root; `None` when some root cannot be scanned (`FileNotFoundError`). */
  function Collect(listing: Listing, dirs: seq<string>): Option<seq<Item>> {
    if dirs == [] then Some([])
    else match Collect(listing, dirs[..|dirs| - 1])
      case None => None
      case Some(items) =>
        var d := dirs[|dirs| - 1];
        if d in listing then Some(items + Inventory(d, listing[d])) else None
  }

  /** Collection fails exactly when some watched root is missing. */
  lemma {:induction false} CollectFails(listing: Listing, dirs: seq<string>)
    ensures Collect(listing, dirs).None? <==> exists i :: 0 <= i < |dirs| && dirs[i] !in listing
  {
    if dirs != [] {
      var n := |dirs| - 1;
      CollectFails(listing, dirs[..n]);
      if Collect(listing, dirs[..n]).None? {
        var i :| 0 <= i < n && dirs[..n][i] !in listing;
        assert dirs[i] !in listing;
      } else if dirs[n] in listing {
        forall i | 0 <= i < |dirs| ensures dirs[i] in listing {
          if i < n { assert dirs[..n][i] == dirs[i]; }
        }
      }
    }
  }

  /** Every collected record is the record of a listed child of some watched root. */
  lemma {:induction false} CollectMembers(listing: Listing, dirs: seq<string>)
    requires Collect(listing, dirs).Some?
    ensures forall it :: it in Collect(listing, dirs).value <==>
      exists i, c :: 0 <= i < |dirs| && dirs[i] in listing && c in listing[dirs[i]] && Listed(c) && it == ItemOf(dirs[i], c)
  {
    if dirs != [] {
      var n := |dirs| - 1;
      var d := dirs[n];
      CollectMembers(listing, dirs[..n]);
      InventoryMembers(d, listing[d]);
      forall it ensures it in Collect(listing, dirs).value <==>
        exists i, c :: 0 <= i < |dirs| && dirs[i] in listing && c in listing[dirs[i]] && Listed(c) && it == ItemOf(dirs[i], c)
      {
        if it in Collect(listing, dirs[..n]).value {
          var i, c :| 0 <= i < n && dirs[..n][i] in listing && c in listing[dirs[..n][i]] && Listed(c) && it == ItemOf(dirs[..n][i], c);
          assert dirs[i] == dirs[..n][i];
        } else if it in Inventory(d, listing[d]) {
        } else {
          forall i, c | 0 <= i < |dirs| && dirs[i] in listing && c in listing[dirs[i]] && Listed(c)
            ensures it != ItemOf(dirs[i], c)
          {
            if i < n { assert dirs[..n][i] == dirs[i]; }
          }
        }
      }
    }
  }

  /** The total size of `items`. */
  function SizeSum(items: seq<Item>): nat {
    if items == [] then 0 else SizeSum(items[..|items| - 1]) + items[|items| - 1].size
  }

  lemma SizeSumStep(s: seq<Item>, k: nat)
    requires k < |s|
    ensures SizeSum(s[..k + 1]) == SizeSum(s[..k]) + s[k].size
  {
    assert s[..k + 1][..k] == s[..k];
  }

  /** Sizes are never negative, so the running total never falls. */
  lemma {:induction false} SizeSumMonotone(s: seq<Item>, m: nat, n: nat)
    requires m <= n <= |s|
    ensures SizeSum(s[..m]) <= SizeSum(s[..n])
    decreases n - m
  {
    if m < n {
      SizeSumMonotone(s, m, n - 1);
      SizeSumStep(s, n - 1);
    }
  }

  lemma {:induction false} SizeSumInsert(sorted: seq<Item>, x: Item)
    ensures SizeSum(InsertByMtime(sorted, x)) == SizeSum(sorted) + x.size
    decreases |sorted|
  {
    if !(sorted == [] || sorted[|sorted| - 1].mtime <= x.mtime) {
      var n := |sorted| - 1;
      SizeSumInsert(sorted[..n], x);
      var ins := InsertByMtime(sorted[..n], x);
      assert (ins + [sorted[n]])[..|ins|] == ins;
    } else {
      assert (sorted + [x])[..|sorted|] == sorted;
    }
  }

  /** Sorting moves items around but reclaims the same number of bytes in total. */
  lemma {:induction false} SizeSumSorted(s: seq<Item>)
    ensures SizeSum(SortByMtime(s)) == SizeSum(s)
  {
    if s != [] {
      SizeSumSorted(s[..|s| - 1]);
      SizeSumInsert(SortByMtime(s[..|s| - 1]), s[|s| - 1]);
    }
  }

  /**
    `n` is where the greedy selection over `s` stops for a `deficit`: every proper prefix of the first `n`
    entries totals less than the deficit, and the `n` entries reach it unless they are all of `s`.
  */
  predicate GreedyStop(s: seq<Item>, n: nat, deficit: int) {
    n <= |s|
    && (forall m :: 0 <= m < n ==> PrefixSize(s, m) < deficit)
    && (n == |s| || PrefixSize(s, n) >= deficit)
  }

  /** The total size of the first `m` entries of `s`. */
  function PrefixSize(s: seq<Item>, m: nat): nat
    requires m <= |s|
  {
    SizeSum(s[..m])
  }

  /** How many of `s` the greedy selection takes: one entry at a time, stopping once the running total reaches the deficit. */
  function GreedyCount(s: seq<Item>, deficit: int): (n: nat)
    requires deficit > 0
    ensures GreedyStop(s, n, deficit)
    decreases |s|
  {
    if s == [] then 0
    else if s[0].size >= deficit then
      assert SizeSum(s[..1]) == s[0].size by { SizeSumStep(s, 0); }
      1
    else
      var k := GreedyCount(s[1..], deficit - s[0].size);
      assert forall m :: 0 <= m < 1 + k ==> PrefixSize(s, m) < deficit by {
        forall m | 0 <= m < 1 + k ensures PrefixSize(s, m) < deficit {
          if m > 0 {
            assert PrefixSize(s[1..], m - 1) < deficit - s[0].size;
            PrefixShift(s, m - 1);
          }
        }
      }
      PrefixShift(s, k);
      1 + k
  }

  /** A prefix of `s` of length `k + 1` totals its first entry plus the prefix of length `k` of the rest. */
  lemma {:induction false} PrefixShift(s: seq<Item>, k: nat)
    requires 0 < |s| && k < |s|
    ensures SizeSum(s[..k + 1]) == s[0].size + SizeSum(s[1..][..k])
    decreases k
  {
    if k > 0 {
      PrefixShift(s, k - 1);
      SizeSumStep(s, k);
      SizeSumStep(s[1..], k - 1);
      assert s[1..][k - 1] == s[k];
    } else {
      SizeSumStep(s, 0);
    }
  }

  /** Because the running total never falls, the greedy stop only needs checking at the last entry taken. */
  lemma GreedyStopAt(s: seq<Item>, n: nat, deficit: int)
    requires 0 < n <= |s| && SizeSum(s[..n - 1]) < deficit
    requires n == |s| || SizeSum(s[..n]) >= deficit
    ensures GreedyStop(s, n, deficit)
  {
    forall m | 0 <= m < n ensures PrefixSize(s, m) < deficit {
      SizeSumMonotone(s, m, n - 1);
    }
  }

  /** The stopping point is unique. */
  lemma GreedyStopUnique(s: seq<Item>, n1: nat, n2: nat, deficit: int)
    requires GreedyStop(s, n1, deficit) && GreedyStop(s, n2, deficit)
    ensures n1 == n2
  {
  }

  /** What `analyze` selects: nothing when there is enough free space, otherwise the greedy prefix of the records stably sorted by mtime. */
  function Plan(a: Analyzer, listing: Listing): (r: Result<seq<Item>, Exception>)
    ensures a.freeSpace >= a.threshold ==> r == Ok([])
    ensures r.Err? ==> r.error == FileNotFoundError
  {
    if a.freeSpace >= a.threshold then Ok([])
    else match Collect(listing, a.dirs)
      case None => Err(FileNotFoundError)
      case Some(items) =>
        var sorted := SortByMtime(items);
        Ok(sorted[..GreedyCount(sorted, a.threshold - a.freeSpace)])
  }

  /** When space is short and every root can be scanned, the plan is the greedy prefix of the stably sorted records. */
  lemma PlanIsGreedyPrefix(a: Analyzer, listing: Listing)
    requires a.freeSpace < a.threshold && Collect(listing, a.dirs).Some?
    ensures Plan(a, listing).Ok?
    ensures var sorted := SortByMtime(Collect(listing, a.dirs).value);
      var n := |Plan(a, listing).value|;
      GreedyStop(sorted, n, a.threshold - a.freeSpace) && Plan(a, listing).value == sorted[..n]
  {
    var sorted := SortByMtime(Collect(listing, a.dirs).value);
    var n := GreedyCount(sorted, a.threshold - a.freeSpace);
    assert Plan(a, listing) == Ok(sorted[..n]);
    assert GreedyStop(sorted, n, a.threshold - a.freeSpace);
  }

  /** If all records together total less than the deficit, every record is planned, oldest first. */
  lemma PlanTakesAllWhenShort(a: Analyzer, listing: Listing)
    requires a.freeSpace < a.threshold && Collect(listing, a.dirs).Some?
    requires SizeSum(Collect(listing, a.dirs).value) < a.threshold - a.freeSpace
    ensures Plan(a, listing) == Ok(SortByMtime(Collect(listing, a.dirs).value))
  {
    var items := Collect(listing, a.dirs).value;
    var sorted := SortByMtime(items);
    var n := GreedyCount(sorted, a.threshold - a.freeSpace);
    SizeSumSorted(items);
    SizeSumMonotone(sorted, n, |sorted|);
    assert sorted[..|sorted|] == sorted;
    assert sorted[..n] == sorted;
  }

  /** When space is short and some record exists, at least one entry is planned: an entry is taken before the stop test. */
  lemma PlanNonEmpty(a: Analyzer, listing: Listing)
    requires a.freeSpace < a.threshold && Collect(listing, a.dirs).Some?
    requires Collect(listing, a.dirs).value != []
    ensures Plan(a, listing).Ok? && |Plan(a, listing).value| >= 1
  {
    var items := Collect(listing, a.dirs).value;
    SortIsPermutation(items);
    assert items[0] in multiset(SortByMtime(items));
  }

  /** The first loop of `analyze`: gathers the records of each watched root in turn, failing at the first root that cannot be scanned. */
  method CollectItems(listing: Listing, dirs: seq<string>) returns (r: Option<seq<Item>>)
    ensures r == Collect(listing, dirs)
  {
    var allItems := [];
    var i := 0;
    while i < |dirs|
      invariant 0 <= i <= |dirs|
      invariant Collect(listing, dirs[..i]) == Some(allItems)
    {
      var dirPath := dirs[i];
      assert dirs[..i + 1][..i] == dirs[..i];
      if dirPath !in listing {
        CollectFails(listing, dirs);
        return None;
      }
      var data := GatherFilesData(dirPath, listing[dirPath]);
      allItems := allItems + data;
      i := i + 1;
    }
    assert dirs[..i] == dirs;
    return Some(allItems);
  }

  /** The second loop of `analyze`: describes sorted records one at a time until the running total reaches the deficit. */
  method SelectOldest(sortedItems: seq<Item>, deficit: int, mapping: LabelMapping, stats: StatsRenderer) returns (processedItems: seq<string>)
    requires deficit > 0
    ensures GreedyStop(sortedItems, |processedItems|, deficit)
    ensures processedItems == DescribeAll(mapping, stats, sortedItems[..|processedItems|])
  {
    var totalSize := 0;
    processedItems := [];
    var k := 0;
    // The test `totalSize < deficit` is the `break` taken once the running total reaches the deficit.
    while k < |sortedItems| && totalSize < deficit
      invariant 0 <= k <= |sortedItems|
      invariant totalSize == PrefixSize(sortedItems, k)
      invariant k == 0 || PrefixSize(sortedItems, k - 1) < deficit
      invariant processedItems == DescribeAll(mapping, stats, sortedItems[..k])
    {
      var item := sortedItems[k];
      SizeSumStep(sortedItems, k);
      totalSize := totalSize + item.size;
      var message := FormatItems(mapping, stats, item);
      DescribeAllSnoc(mapping, stats, sortedItems, k, processedItems, message);
      processedItems := processedItems + [message];
      k := k + 1;
    }
    if k > 0 {
      GreedyStopAt(sortedItems, k, deficit);
    }
  }

  /** `DiskAnalyzer.analyze` over the file system `listing`, with `stats` rendering each descriptor's size and time. */
  method Analyze(a: Analyzer, listing: Listing, stats: StatsRenderer) returns (r: Result<seq<string>, Exception>)
    ensures a.freeSpace >= a.threshold ==> r == Ok([])
    ensures Plan(a, listing).Ok? ==> r == Ok(DescribeAll(a.labelMapping, stats, Plan(a, listing).value))
    ensures Plan(a, listing).Err? ==> r == Err(Plan(a, listing).error)
  {
    if a.freeSpace >= a.threshold {
      return Ok([]);
    }
    var allItems := CollectItems(listing, a.dirs);
    if allItems.None? {
      return Err(FileNotFoundError);
    }
    var sortedItems := SortByMtime(allItems.value);
    var deficit := a.threshold - a.freeSpace;
    var processedItems := SelectOldest(sortedItems, deficit, a.labelMapping, stats);
    GreedyStopUnique(sortedItems, |processedItems|, GreedyCount(sortedItems, deficit), deficit);
    assert Plan(a, listing) == Ok(sortedItems[..|processedItems|]);
    return Ok(processedItems);
  }

  // ----- descriptor parsing -----

  /**
    How `delete_files` reads a descriptor back: the text before the first `": "` is the label, and the
    text after it, up to the first `", "`, is the name.  `None` when there is no `": "`, where indexing
    the split raises `IndexError`.
  */
  function ParseDescriptor(d: string): (r: Option<(string, string)>)
    ensures r.None? <==> !Contains(d, ": ")
  {
    var fields := Split(d, ": ");
    if |fields| < 2 then None
    else Some((fields[0], Split(fields[1], ", ")[0]))
  }

  /**
    The parsed label is exactly the text before the first `": "`; the parsed name is the text right
    after it, up to the next `", "`, the next `": "` or the end, so it never holds `", "`.
  */
  lemma ParsedParts(d: string)
    requires ParseDescriptor(d).Some?
    ensures var (tag, name) := ParseDescriptor(d).value;
      && Find(d, ": ") == Some(|tag|) && d[..|tag|] == tag && !Contains(name, ", ")
      && NameAt(d, |tag| + 2, name)
  {
    ParsedLabel(d);
    ParsedName(d);
  }

  /** The label and the absence of `", "` in the name. */
  lemma ParsedLabel(d: string)
    requires ParseDescriptor(d).Some?
    ensures var (tag, name) := ParseDescriptor(d).value;
      Find(d, ": ") == Some(|tag|) && d[..|tag|] == tag && !Contains(name, ", ")
  {
    var i := Find(d, ": ").value;
    var fields := Split(d, ": ");
    assert fields == [d[..i]] + Split(d[i + 2..], ": ");
    SplitFieldsAvoidSep(fields[1], ", ");
    assert Split(fields[1], ", ")[0] in Split(fields[1], ", ");
  }

  /** `name` sits at index `k` of `d` and is followed by the end of `d`, a `", "` or a `": "`. */
  predicate NameAt(d: string, k: nat, name: string) {
    && k + |name| <= |d| && d[k..k + |name|] == name
    && (k + |name| == |d| || OccursAt(d, ", ", k + |name|) || OccursAt(d, ": ", k + |name|))
  }

  /** Where the name sits in the descriptor. */
  lemma ParsedName(d: string)
    requires ParseDescriptor(d).Some?
    ensures var (tag, name) := ParseDescriptor(d).value; NameAt(d, |tag| + 2, name)
  {
    var (tag, name) := ParseDescriptor(d).value;
    ParsedLabel(d);
    NameAfterLabel(d, tag, name);
  }

  /** The same, for a label whose first `": "` has already been located. */
  lemma NameAfterLabel(d: string, tag: string, name: string)
    requires ParseDescriptor(d) == Some((tag, name)) && Find(d, ": ") == Some(|tag|)
    ensures NameAt(d, |tag| + 2, name)
  {
    SplitStep(d, ": ", |tag|);
    var fields := Split(d, ": ");
    assert name == Split(fields[1], ", ")[0];
    NamePlacement(d, |tag| + 2, fields[1], name);
  }

  /** The name's place in a descriptor: `f` is the first `": "` field of `d[k..]` and `name` the first `", "` field of `f`. */
  lemma NamePlacement(d: string, k: nat, f: string, name: string)
    requires k <= |d| && f == Split(d[k..], ": ")[0] && name == Split(f, ", ")[0]
    ensures NameAt(d, k, name)
  {
    FirstField(d[k..], ": ");
    FirstField(f, ", ");
    NestedPrefix(d, k, f, name);
  }

  /**
    `f` starts `d[k..]` and ends at its end or at a `": "`; `name` starts `f` and ends at its end or
    at a `", "`.  Then `name` sits at `k` in `d`, followed by the end, a `", "` or a `": "`.
  */
  lemma NestedPrefix(d: string, k: nat, f: string, name: string)
    requires k <= |d| && |f| <= |d| - k && d[k..][..|f|] == f && (|f| == |d| - k || OccursAt(d[k..], ": ", |f|))
    requires |name| <= |f| && f[..|name|] == name && (|name| == |f| || OccursAt(f, ", ", |name|))
    ensures NameAt(d, k, name)
  {
    var e := k + |name|;
    var inD, inName := d[k..e], d[k..][..|f|][..|name|];
    forall j | 0 <= j < |name| ensures inD[j] == inName[j] {
      assert inD[j] == d[k + j];
    }
    assert inD == inName;
    if |name| < |f| {
      var after, inF := d[e..e + 2], d[k..][..|f|][|name|..|name| + 2];
      forall j | 0 <= j < 2 ensures after[j] == inF[j] {
        assert after[j] == d[e + j];
      }
      assert after == inF;
    } else if |f| < |d| - k {
      var after, inRest := d[e..e + 2], d[k..][|f|..|f| + 2];
      forall j | 0 <= j < 2 ensures after[j] == inRest[j] {
        assert after[j] == d[e + j];
      }
      assert after == inRest;
    }
  }

  /** `", Size"` and `"Size"` hold neither separator. */
  lemma SizeWordsPlain()
    ensures !Contains(", Size", ": ") && !Contains("Size", ", ")
  {
    NoLeadNoContains(", Size", ": ");
    NoLeadNoContains("Size", ", ");
  }

  /** Parsing a descriptor gives back its label and name when neither can be mistaken for the separators. */
  lemma ParseDescriptorRoundTrip(tag: string, name: string, tail: string)
    requires !Contains(tag, ": ") && !Contains(name, ": ") && !Contains(name, ", ")
    requires StartsWith(tail, SizeTag)
    ensures ParseDescriptor(Descriptor(tag, name, tail)) == Some((tag, name))
  {
    var fields := Split(Descriptor(tag, name, tail), ": ");
    DescriptorFields(tag, name, tail, fields);
    NameBeforeSize(name);
  }

  /** Split at `": "`, a descriptor's first two fields are its label and its name followed by `", Size"`. */
  lemma DescriptorFields(tag: string, name: string, tail: string, fields: seq<string>)
    requires !Contains(tag, ": ") && !Contains(name, ": ")
    requires StartsWith(tail, SizeTag)
    requires fields == Split(Descriptor(tag, name, tail), ": ")
    ensures |fields| >= 2 && fields[0] == tag && fields[1] == name + ", Size"
  {
    var rest := tail[|SizeTag|..];
    assert tail == ", Size" + ": " + rest;
    var head := name + ", Size";
    SizeWordsPlain();
    ConcatAvoidsSep(name, ", Size", ": ");
    Regroup(tag, ": ", name, ", Size", rest);
    SplitAfterPrefix(tag, ": ", head + ": " + rest);
    SplitAfterPrefix(head, ": ", rest);
  }

  /** Moving the brackets in `tag: name` followed by `size: rest`. */
  lemma Regroup(tag: string, sep: string, name: string, size: string, rest: string)
    ensures tag + sep + name + (size + sep + rest) == tag + sep + (name + size + sep + rest)
  {
  }

  /** Split at `", "`, a name free of `", "` followed by `", Size"` comes first. */
  lemma NameBeforeSize(name: string)
    requires !Contains(name, ", ")
    ensures Split(name + ", Size", ", ")[0] == name
  {
    SizeWordsPlain();
    assert name + ", Size" == name + ", " + "Size";
    SplitAfterPrefix(name, ", ", "Size");
  }

  /** The round trip for `format_items`' output: its label and the last segment of the normalised path come back. */
  lemma ParseDescribe(mapping: LabelMapping, stats: StatsRenderer, item: Item)
    requires !Contains(LabelFor(mapping, Normpath(item.path)), ": ")
    requires !Contains(Basename(Normpath(item.path)), ": ") && !Contains(Basename(Normpath(item.path)), ", ")
    requires StartsWith(stats(item.size, item.mtime), SizeTag)
    ensures ParseDescriptor(Describe(mapping, stats, item)) == Some((LabelFor(mapping, Normpath(item.path)), Basename(Normpath(item.path))))
  {
    var path := Normpath(item.path);
    ParseDescriptorRoundTrip(LabelFor(mapping, path), Basename(path), stats(item.size, item.mtime));
  }

  // ----- deletion -----

  /** The first scan entry of a directory called `name`. */
  function EntryNamed(entries: seq<Node>, name: string): (r: Option<Node>)
    ensures r.Some? ==> r.value in entries && r.value.name == name
    ensures r.None? ==> forall c :: c in entries ==> c.name != name
  {
    if entries == [] then None
    else if entries[0].name == name then Some(entries[0])
    else EntryNamed(entries[1..], name)
  }

  /** `os.path.isfile` or `os.path.isdir` holds for `root/name`. */
  predicate Present(listing: Listing, root: string, name: string) {
    root in listing && EntryNamed(listing[root], name).Some? && Listed(EntryNamed(listing[root], name).value)
  }

  /** The entries of a directory other than those called `name`. */
  function Without(entries: seq<Node>, name: string): (r: seq<Node>)
    ensures forall c :: c in r <==> c in entries && c.name != name
  {
    if entries == [] then []
    else (if entries[0].name == name then [] else [entries[0]]) + Without(entries[1..], name)
  }

  /** `os.remove` or `shutil.rmtree` of `root/name`: the entry disappears from `root`'s listing. */
  function RemoveEntry(listing: Listing, root: string, name: string): Listing
    requires root in listing
  {
    listing[root := Without(listing[root], name)]
  }

  /** The names that `os.path.join(root, name)` resolves to a directory instead of an entry: the root itself, or its parent. */
  predicate SelfOrParent(name: string) {
    name == "" || name == "." || name == ".."
  }

  /** The directory `root/name` names when `name` is `""`, `"."` or `".."`: the root, or `normpath(root/..)`. */
  function TreeOf(root: string, name: string): string {
    if name == ".." then Normpath(Join(root, name)) else root
  }

  /** `k` is the directory `p` or lies below it, compared as text; `"."` stands for the working directory. */
  predicate Within(k: string, p: string) {
    if p == "." then !StartsWith(k, Sep)
    else k == p || StartsWith(k, if EndsWith(p, Sep) then p else p + Sep)
  }

  /** `shutil.rmtree(p)`: every watched directory at or below `p` disappears. */
  function RemoveTree(listing: Listing, p: string): (r: Listing)
    ensures forall k :: k in r <==> k in listing && !Within(k, p)
    ensures forall k :: k in r ==> r[k] == listing[k]
  {
    map k | k in listing && !Within(k, p) :: listing[k]
  }

  /**
    `shutil.rmtree(p)` where `p` ends in `.` or `..`: the walk removes everything below `p`, and the
    final `os.rmdir(p)` raises, so `p` itself stays with no entries.
  */
  function EmptyTree(listing: Listing, p: string): (r: Listing)
    ensures forall k :: k in r <==> k in listing && (k == p || !Within(k, p))
    ensures forall k :: k in r && k != p ==> r[k] == listing[k]
    ensures p in r ==> r[p] == []
  {
    map k | k in listing && (k == p || !Within(k, p)) :: if k == p then [] else listing[k]
  }

  /** The names whose joined path ends in `.` or `..`, which `os.rmdir` refuses to remove. */
  predicate Undeletable(name: string) {
    name == "." || name == ".."
  }

  /**
    `os.path.isfile(root/name)` or `os.path.isdir(root/name)`.  For `""`, `"."` and `".."` the joined
    path is the root or its parent, a directory whenever the root exists; otherwise it is an entry of
    the root.
  */
  predicate Exists(listing: Listing, root: string, name: string) {
    if SelfOrParent(name) then root in listing else Present(listing, root, name)
  }

  /**
    What `os.remove(root/name)` or `shutil.rmtree(root/name)` leaves behind: for `""` the root goes
    whole, for `"."` and `".."` the root or its parent is emptied but stays, otherwise the entry goes.
  */
  function Remove(listing: Listing, root: string, name: string): Listing
    requires Exists(listing, root, name)
  {
    if name == "" then RemoveTree(listing, root)
    else if Undeletable(name) then EmptyTree(listing, TreeOf(root, name))
    else RemoveEntry(listing, root, name)
  }

  /** The event after `os.remove` or `shutil.rmtree` of `root/name` ran: the `rmtree` of a path ending in `.` or `..` raises at its end. */
  function Removal(descriptor: string, name: string): Event {
    if Undeletable(name) then DeleteFailed(descriptor) else Deleted(descriptor)
  }

  /** What `delete_files` logs. */
  datatype Event =
    | Deleted(descriptor: string)       // `Deleted: <descriptor>`
    | Unrecognized(path: string)        // `Unrecognized path: <root/name>`
    | DeleteFailed(descriptor: string)  // `Failed to delete <descriptor>: <error>`

  /** The events and file system after trying one parsed descriptor against `mapping[i..]` is the tail `rest` preceded by `events`. */
  function Prepend(events: seq<Event>, rest: (Listing, seq<Event>)): (Listing, seq<Event>) {
    (rest.0, events + rest.1)
  }

  /**
    The inner loop of `delete_files` for one descriptor with parsed label `wanted` and name `name`:
    roots are tried in mapping order, only those labelled `wanted`; the first where `root/name` is a
    file or directory is removed (or its removal fails, when its path is in `failing`) and the loop
    stops there; any other labelled root logs an unrecognized path.  For the names `""`, `"."` and
    `".."` the path is the root or its parent: `shutil.rmtree` removes `root/` whole, but it only
    empties `root/.` and `root/..` and then raises, which is logged as a failed deletion.
  */
  function Attempt(mapping: LabelMapping, descriptor: string, wanted: string, name: string, listing: Listing, failing: set<string>): (Listing, seq<Event>)
    decreases |mapping|
  {
    if mapping == [] then (listing, [])
    else
      var dirPath := mapping[0].0;
      if mapping[0].1 != wanted then Attempt(mapping[1..], descriptor, wanted, name, listing, failing)
      else if Exists(listing, dirPath, name) then
        if Join(dirPath, name) in failing then (listing, [DeleteFailed(descriptor)])
        else (Remove(listing, dirPath, name), [Removal(descriptor, name)])
      else Prepend([Unrecognized(Join(dirPath, name))], Attempt(mapping[1..], descriptor, wanted, name, listing, failing))
  }

  /** The state after a batch of descriptors: the file system, the log, and whether an `IndexError` escaped. */
  datatype Batch = Batch(listing: Listing, log: seq<Event>, aborted: bool)

  /**
    `delete_files(files)`: each descriptor in turn is parsed and attempted.  A removal that raises is
    logged and the batch goes on, but a descriptor without `": "` raises `IndexError` outside the
    `try`, which ends the batch.
  */
  function DeleteAll(mapping: LabelMapping, files: seq<string>, listing: Listing, failing: set<string>): Batch {
    if files == [] then Batch(listing, [], false)
    else Step(mapping, DeleteAll(mapping, files[..|files| - 1], listing, failing), files[|files| - 1], failing)
  }

  /** One turn of `delete_files`' outer loop, unless an earlier descriptor already ended the batch. */
  function Step(mapping: LabelMapping, before: Batch, descriptor: string, failing: set<string>): Batch {
    if before.aborted then before
    else match ParseDescriptor(descriptor)
      case None => Batch(before.listing, before.log, true)
      case Some(parsed) =>
        var after := Attempt(mapping, descriptor, parsed.0, parsed.1, before.listing, failing);
        Batch(after.0, before.log + after.1, false)
  }

  /** A turn only appends to the log it is given. */
  lemma StepAppends(mapping: LabelMapping, listing: Listing, earlier: seq<Event>, log: seq<Event>, descriptor: string, failing: set<string>)
    ensures var alone := Step(mapping, Batch(listing, log, false), descriptor, failing);
      Step(mapping, Batch(listing, earlier + log, false), descriptor, failing) == Batch(alone.listing, earlier + alone.log, alone.aborted)
  {
    match ParseDescriptor(descriptor)
    case None =>
    case Some(parsed) =>
      var after := Attempt(mapping, descriptor, parsed.0, parsed.1, listing, failing);
      assert (earlier + log) + after.1 == earlier + (log + after.1);
  }

  /** The file system the monitor deletes from, and the paths whose removal raises an `OSError`. */
  class Disk {
    var listing: Listing
    const failing: set<string>

    constructor (listing: Listing, failing: set<string>)
      ensures this.listing == listing && this.failing == failing
    {
      this.listing := listing;
      this.failing := failing;
    }
  }

  /** The `try` block of `delete_files` for one descriptor whose parsed label is `wanted` and name is `name`. */
  method TryRoots(mapping: LabelMapping, disk: Disk, descriptor: string, wanted: string, name: string) returns (events: seq<Event>)
    modifies disk
    ensures (disk.listing, events) == Attempt(mapping, descriptor, wanted, name, old(disk.listing), disk.failing)
  {
    ghost var before := disk.listing;
    events := [];
    var j := 0;
    assert mapping[0..] == mapping;
    ghost var whole := Attempt(mapping, descriptor, wanted, name, before, disk.failing);
    assert [] + whole.1 == whole.1;
    while j < |mapping|
      invariant 0 <= j <= |mapping|
      invariant disk.listing == before
      invariant whole == Prepend(events, Attempt(mapping[j..], descriptor, wanted, name, before, disk.failing))
    {
      var dirPath := mapping[j].0;
      ghost var rest := Attempt(mapping[j + 1..], descriptor, wanted, name, before, disk.failing);
      assert mapping[j..][0] == mapping[j] && mapping[j..][1..] == mapping[j + 1..];
      if wanted == mapping[j].1 {
        var workingDir := Join(dirPath, name);
        var entry := if dirPath in disk.listing && !SelfOrParent(name) then EntryNamed(disk.listing[dirPath], name) else None;
        var isFile := entry.Some? && entry.value.File?;
        var isDir := if SelfOrParent(name) then dirPath in disk.listing else entry.Some? && entry.value.Dir?;
        if isFile || isDir {
          if workingDir in disk.failing {
            events := events + [DeleteFailed(descriptor)];
          } else if Undeletable(name) {
            // rmtree empties the directory, then its final rmdir of a `.` or `..` path raises
            disk.listing := EmptyTree(disk.listing, TreeOf(dirPath, name));
            events := events + [DeleteFailed(descriptor)];
          } else {
            disk.listing := Remove(disk.listing, dirPath, name);
            events := events + [Deleted(descriptor)];
          }
          return;
        }
        assert events + ([Unrecognized(workingDir)] + rest.1) == (events + [Unrecognized(workingDir)]) + rest.1;
        events := events + [Unrecognized(workingDir)];
      }
      j := j + 1;
    }
    assert mapping[j..] == [] && events + [] == events;
  }

  /** `DiskAnalyzer.delete_files(files)` against `disk`; `raised` is the exception that escapes, if any. */
  method DeleteFiles(mapping: LabelMapping, disk: Disk, files: seq<string>) returns (log: seq<Event>, raised: Option<Exception>)
    modifies disk
    ensures var b := DeleteAll(mapping, files, old(disk.listing), disk.failing);
      disk.listing == b.listing && log == b.log && raised == (if b.aborted then Some(IndexError) else None)
  {
    log, raised := [], None;
    var i := 0;
    while i < |files|
      invariant 0 <= i <= |files|
      invariant DeleteAll(mapping, files[..i], old(disk.listing), disk.failing) == Batch(disk.listing, log, false)
    {
      var filePath := files[i];
      assert files[..i + 1][..i] == files[..i];
      var fields := Split(filePath, ": ");
      if |fields| < 2 {
        DeleteAllAfterAbort(mapping, files, i, old(disk.listing), disk.failing);
        return log, Some(IndexError);
      }
      var wanted := fields[0];
      var name := Split(fields[1], ", ")[0];
      var events := TryRoots(mapping, disk, filePath, wanted, name);
      log := log + events;
      i := i + 1;
    }
    assert files[..i] == files;
  }

  /** Once a descriptor aborts the batch, the later ones change nothing. */
  lemma {:induction false} DeleteAllAfterAbort(mapping: LabelMapping, files: seq<string>, i: nat, listing: Listing, failing: set<string>)
    requires i < |files| && !Contains(files[i], ": ")
    requires !DeleteAll(mapping, files[..i], listing, failing).aborted
    ensures var b := DeleteAll(mapping, files[..i], listing, failing);
      DeleteAll(mapping, files, listing, failing) == Batch(b.listing, b.log, true)
    decreases |files|
  {
    if |files| - 1 > i {
      assert files[..|files| - 1][..i] == files[..i];
      DeleteAllAfterAbort(mapping, files[..|files| - 1], i, listing, failing);
    } else {
      assert files[..|files| - 1] == files[..i];
    }
  }

  /** The batch ends early exactly when some descriptor lacks `": "`; failed removals never end it. */
  lemma {:induction false} DeleteAllAborts(mapping: LabelMapping, files: seq<string>, listing: Listing, failing: set<string>)
    ensures DeleteAll(mapping, files, listing, failing).aborted <==> exists i :: 0 <= i < |files| && !Contains(files[i], ": ")
  {
    if files != [] {
      var n := |files| - 1;
      DeleteAllAborts(mapping, files[..n], listing, failing);
      if exists i :: 0 <= i < n && !Contains(files[..n][i], ": ") {
        var i :| 0 <= i < n && !Contains(files[..n][i], ": ");
        assert files[i] == files[..n][i];
      } else {
        forall i | 0 <= i < n ensures Contains(files[i], ": ") {
          assert files[i] == files[..n][i];
        }
      }
    }
  }

  /**
    Per-item tolerance: once a prefix of the batch has gone through without an `IndexError`, the rest
    of the batch runs exactly as a batch of its own would on the file system the prefix left behind,
    whatever was logged, removed or failed before.
  */
  lemma {:induction false} DeleteAllConcat(mapping: LabelMapping, a: seq<string>, b: seq<string>, listing: Listing, failing: set<string>)
    requires !DeleteAll(mapping, a, listing, failing).aborted
    ensures var first := DeleteAll(mapping, a, listing, failing);
      var second := DeleteAll(mapping, b, first.listing, failing);
      DeleteAll(mapping, a + b, listing, failing) == Batch(second.listing, first.log + second.log, second.aborted)
    decreases |b|
  {
    var first := DeleteAll(mapping, a, listing, failing);
    if b == [] {
      assert a + b == a;
    } else {
      var n := |b| - 1;
      assert (a + b)[..|a + b| - 1] == a + b[..n];
      DeleteAllConcat(mapping, a, b[..n], listing, failing);
      var mid := DeleteAll(mapping, b[..n], first.listing, failing);
      assert (a + b)[|a + b| - 1] == b[n];
      if !mid.aborted {
        StepAppends(mapping, mid.listing, first.log, mid.log, b[n], failing);
      }
    }
  }

  /**
    Trying one descriptor changes only a root labelled with the parsed label, or for `".."` the
    parent of one, and only ever removes entries or watched directories; for a name other than
    `""`, `"."` and `".."` every watched directory stays.
  */
  lemma AttemptFrame(mapping: LabelMapping, descriptor: string, wanted: string, name: string, listing: Listing, failing: set<string>)
    ensures var after := Attempt(mapping, descriptor, wanted, name, listing, failing).0;
      && after.Keys <= listing.Keys
      && (!SelfOrParent(name) ==> after.Keys == listing.Keys)
      && (forall r :: r in after && after[r] != listing[r] ==> (r, wanted) in mapping || ParentOfLabelled(mapping, wanted, name, r))
      && (forall r, c :: r in after && c in after[r] ==> c in listing[r])
  {
    AttemptShrinks(mapping, descriptor, wanted, name, listing, failing);
    AttemptChanges(mapping, descriptor, wanted, name, listing, failing);
  }

  /** The keys and entries half of `AttemptFrame`. */
  lemma {:induction false} AttemptShrinks(mapping: LabelMapping, descriptor: string, wanted: string, name: string, listing: Listing, failing: set<string>)
    ensures var after := Attempt(mapping, descriptor, wanted, name, listing, failing).0;
      && after.Keys <= listing.Keys
      && (!SelfOrParent(name) ==> after.Keys == listing.Keys)
      && (forall r, c :: r in after && c in after[r] ==> c in listing[r])
    decreases |mapping|
  {
    if mapping != [] {
      if mapping[0].1 == wanted && Exists(listing, mapping[0].0, name) {
        RemoveFrame(listing, mapping[0].0, name);
      } else {
        AttemptShrinks(mapping[1..], descriptor, wanted, name, listing, failing);
      }
    }
  }

  /** The half of `AttemptFrame` that says which directories change. */
  lemma {:induction false} AttemptChanges(mapping: LabelMapping, descriptor: string, wanted: string, name: string, listing: Listing, failing: set<string>)
    ensures var after := Attempt(mapping, descriptor, wanted, name, listing, failing).0;
      forall r :: r in after && r in listing && after[r] != listing[r] ==> (r, wanted) in mapping || ParentOfLabelled(mapping, wanted, name, r)
    decreases |mapping|
  {
    if mapping != [] {
      var after := Attempt(mapping, descriptor, wanted, name, listing, failing).0;
      if mapping[0].1 == wanted && Exists(listing, mapping[0].0, name) {
        RemoveFrame(listing, mapping[0].0, name);
        forall r | r in after && r in listing && after[r] != listing[r] && r != mapping[0].0 ensures ParentOfLabelled(mapping, wanted, name, r) {
          assert mapping[0].1 == wanted;
        }
      } else {
        AttemptChanges(mapping[1..], descriptor, wanted, name, listing, failing);
        forall r | r in after && r in listing && after[r] != listing[r] ensures (r, wanted) in mapping || ParentOfLabelled(mapping, wanted, name, r) {
          if ParentOfLabelled(mapping[1..], wanted, name, r) {
            var j :| 0 <= j < |mapping[1..]| && mapping[1..][j].1 == wanted && r == TreeOf(mapping[1..][j].0, name);
            assert mapping[j + 1] == mapping[1..][j];
          } else {
            assert (r, wanted) in mapping[1..];
          }
        }
      }
    }
  }

  /** One removal changes only the root, or for `".."` its parent, and only removes. */
  lemma RemoveFrame(listing: Listing, root: string, name: string)
    requires Exists(listing, root, name)
    ensures var after := Remove(listing, root, name);
      && after.Keys <= listing.Keys
      && (!SelfOrParent(name) ==> after.Keys == listing.Keys)
      && (forall r :: r in after && after[r] != listing[r] ==> r == root || (name == ".." && r == TreeOf(root, name)))
      && (forall r, c :: r in after && c in after[r] ==> c in listing[r])
  {
    if !SelfOrParent(name) {
      var after := Remove(listing, root, name);
      forall c | c in after[root] ensures c in listing[root] {
        assert c in Without(listing[root], name);
      }
    }
  }

  /** The name is `".."` and `r` is the parent of a root labelled `wanted`. */
  predicate ParentOfLabelled(mapping: LabelMapping, wanted: string, name: string, r: string) {
    name == ".." && exists j :: 0 <= j < |mapping| && mapping[j].1 == wanted && r == TreeOf(mapping[j].0, name)
  }

  /**
    A watched directory disappears only when the name is `""`, `"."` or `".."` and the directory lies
    in the tree that a root labelled with the parsed label and that name resolve to.
  */
  lemma {:induction false} AttemptRemovesTrees(mapping: LabelMapping, descriptor: string, wanted: string, name: string, listing: Listing, failing: set<string>)
    ensures var after := Attempt(mapping, descriptor, wanted, name, listing, failing).0;
      forall r :: r in listing && r !in after ==>
        SelfOrParent(name) && exists j :: 0 <= j < |mapping| && mapping[j].1 == wanted && Within(r, TreeOf(mapping[j].0, name))
    decreases |mapping|
  {
    if mapping != [] {
      AttemptRemovesTrees(mapping[1..], descriptor, wanted, name, listing, failing);
      var after := Attempt(mapping, descriptor, wanted, name, listing, failing).0;
      forall r | r in listing && r !in after
        ensures SelfOrParent(name) && exists j :: 0 <= j < |mapping| && mapping[j].1 == wanted && Within(r, TreeOf(mapping[j].0, name))
      {
        if mapping[0].1 == wanted && Exists(listing, mapping[0].0, name) {
          assert Within(r, TreeOf(mapping[0].0, name));
        } else {
          var j :| 0 <= j < |mapping[1..]| && mapping[1..][j].1 == wanted && Within(r, TreeOf(mapping[1..][j].0, name));
          assert mapping[j + 1] == mapping[1..][j];
        }
      }
    }
  }

  /** The events end with the removal of the descriptor's file, or with its failure. */
  predicate Resolved(events: seq<Event>, descriptor: string) {
    events != [] && events[|events| - 1] in {Deleted(descriptor), DeleteFailed(descriptor)}
  }

  /** For some root of the mapping labelled `wanted`, `root/name` is a file or a directory. */
  predicate HasRoot(mapping: LabelMapping, wanted: string, name: string, listing: Listing) {
    exists i :: 0 <= i < |mapping| && mapping[i].1 == wanted && Exists(listing, mapping[i].0, name)
  }

  /** The attempt ends in a removal, or a failed one, exactly when `root/name` is a file or directory for some root labelled with the parsed label. */
  lemma {:induction false} AttemptResolves(mapping: LabelMapping, descriptor: string, wanted: string, name: string, listing: Listing, failing: set<string>)
    ensures Resolved(Attempt(mapping, descriptor, wanted, name, listing, failing).1, descriptor) <==> HasRoot(mapping, wanted, name, listing)
    decreases |mapping|
  {
    if mapping != [] {
      AttemptResolves(mapping[1..], descriptor, wanted, name, listing, failing);
      HasRootCons(mapping, wanted, name, listing);
      ResolvedPrepend(Unrecognized(Join(mapping[0].0, name)), Attempt(mapping[1..], descriptor, wanted, name, listing, failing).1, descriptor);
    }
  }

  /** A root is found in a non-empty mapping exactly when it is the first entry or one of the rest. */
  lemma HasRootCons(mapping: LabelMapping, wanted: string, name: string, listing: Listing)
    requires mapping != []
    ensures HasRoot(mapping, wanted, name, listing)
      <==> (mapping[0].1 == wanted && Exists(listing, mapping[0].0, name)) || HasRoot(mapping[1..], wanted, name, listing)
  {
    if HasRoot(mapping[1..], wanted, name, listing) {
      var i :| 0 <= i < |mapping[1..]| && mapping[1..][i].1 == wanted && Exists(listing, mapping[1..][i].0, name);
      assert mapping[i + 1] == mapping[1..][i];
    }
    if HasRoot(mapping, wanted, name, listing) && !(mapping[0].1 == wanted && Exists(listing, mapping[0].0, name)) {
      var i :| 0 <= i < |mapping| && mapping[i].1 == wanted && Exists(listing, mapping[i].0, name);
      assert mapping[1..][i - 1] == mapping[i];
    }
  }

  /** An earlier "not recognised" event does not change how the events end. */
  lemma ResolvedPrepend(e: Event, tail: seq<Event>, descriptor: string)
    requires e.Unrecognized?
    ensures Resolved([e] + tail, descriptor) <==> Resolved(tail, descriptor)
  {
    if tail != [] {
      assert ([e] + tail)[|tail|] == tail[|tail| - 1];
    }
  }

  /** `r` is the parent of some root of the mapping. */
  predicate ParentOfMapped(mapping: LabelMapping, r: string) {
    exists j :: 0 <= j < |mapping| && r == TreeOf(mapping[j].0, "..")
  }

  /** No descriptor of the batch parses to the name `""`, `"."` or `".."`. */
  predicate EntryNames(files: seq<string>) {
    forall i :: 0 <= i < |files| && ParseDescriptor(files[i]).Some? ==> !SelfOrParent(ParseDescriptor(files[i]).value.1)
  }

  /**
    A whole batch leaves directories outside the mapping and their parents unchanged and only ever
    removes entries; it keeps every watched directory unless some descriptor names `""`, `"."` or
    `".."`.
  */
  lemma {:induction false} DeleteAllFrame(mapping: LabelMapping, files: seq<string>, listing: Listing, failing: set<string>)
    ensures var after := DeleteAll(mapping, files, listing, failing).listing;
      && after.Keys <= listing.Keys
      && (EntryNames(files) ==> after.Keys == listing.Keys)
      && (forall r :: r in after && after[r] != listing[r] ==> (exists l :: (r, l) in mapping) || ParentOfMapped(mapping, r))
      && (forall r, c :: r in after && c in after[r] ==> c in listing[r])
  {
    if files != [] {
      var n := |files| - 1;
      DeleteAllFrame(mapping, files[..n], listing, failing);
      if EntryNames(files) {
        forall i | 0 <= i < n && ParseDescriptor(files[..n][i]).Some? ensures !SelfOrParent(ParseDescriptor(files[..n][i]).value.1) {
          assert files[..n][i] == files[i];
        }
      }
      var before := DeleteAll(mapping, files[..n], listing, failing);
      if !before.aborted {
        match ParseDescriptor(files[n])
        case None =>
        case Some(parsed) =>
          AttemptFrame(mapping, files[n], parsed.0, parsed.1, before.listing, failing);
          var after := DeleteAll(mapping, files, listing, failing).listing;
          forall r | r in after && after[r] != before.listing[r] && ParentOfLabelled(mapping, parsed.0, parsed.1, r)
            ensures ParentOfMapped(mapping, r)
          {
            var j :| 0 <= j < |mapping| && mapping[j].1 == parsed.0 && r == TreeOf(mapping[j].0, parsed.1);
          }
      }
    }
  }

  /** When the roots before index `i` carry other labels and `root/name` exists for `mapping[i]`'s root, the attempt goes straight to that root. */
  lemma {:induction false} AttemptFirstLabelled(mapping: LabelMapping, descriptor: string, wanted: string, name: string, listing: Listing, failing: set<string>, i: nat)
    requires i < |mapping| && mapping[i].1 == wanted && Exists(listing, mapping[i].0, name)
    requires forall j :: 0 <= j < i ==> mapping[j].1 != wanted
    ensures Attempt(mapping, descriptor, wanted, name, listing, failing) ==
      if Join(mapping[i].0, name) in failing then (listing, [DeleteFailed(descriptor)])
      else (Remove(listing, mapping[i].0, name), [Removal(descriptor, name)])
    decreases i
  {
    if i > 0 {
      assert mapping[1..][i - 1] == mapping[i];
      forall j | 0 <= j < i - 1 ensures mapping[1..][j].1 != wanted {
        assert mapping[1..][j] == mapping[j + 1];
      }
      AttemptFirstLabelled(mapping[1..], descriptor, wanted, name, listing, failing, i - 1);
    }
  }

  /** A batch of one parsable descriptor is one attempt. */
  lemma OneDescriptor(mapping: LabelMapping, d: string, listing: Listing, failing: set<string>)
    requires ParseDescriptor(d).Some?
    ensures var (wanted, name) := ParseDescriptor(d).value;
      var after := Attempt(mapping, d, wanted, name, listing, failing);
      DeleteAll(mapping, [d], listing, failing) == Batch(after.0, after.1, false)
  {
    assert [d][..0] == [];
  }

  /**
    End to end: the descriptor `format_items` writes for a child of a watched root leads `delete_files`
    back to that child and removes it, provided the root's label is unique and is the one the label
    scan picks, neither label nor name holds the separators, and names within a directory are unique.
  */
  lemma DescribedChildIsRemoved(mapping: LabelMapping, stats: StatsRenderer, listing: Listing, failing: set<string>, i: nat, child: Node)
    requires i < |mapping| && mapping[i].0 in listing
    requires forall j :: 0 <= j < |mapping| && j != i ==> mapping[j].1 != mapping[i].1
    requires child in listing[mapping[i].0] && Listed(child) && PlainName(child.name)
    requires forall c :: c in listing[mapping[i].0] && c.name == child.name ==> c == child
    requires LabelFor(mapping, Normpath(Join(mapping[i].0, child.name))) == mapping[i].1
    requires !Contains(mapping[i].1, ": ") && !Contains(child.name, ": ") && !Contains(child.name, ", ")
    requires StartsWith(stats(TreeSize(child), child.mtime), SizeTag)
    requires Join(mapping[i].0, child.name) !in failing
    ensures var d := Describe(mapping, stats, ItemOf(mapping[i].0, child));
      DeleteAll(mapping, [d], listing, failing) == Batch(RemoveEntry(listing, mapping[i].0, child.name), [Deleted(d)], false)
  {
    var root := mapping[i].0;
    var item := ItemOf(root, child);
    var d := Describe(mapping, stats, item);
    NormpathKeepsName(root, child.name);
    ParseDescribe(mapping, stats, item);
    assert ParseDescriptor(d) == Some((mapping[i].1, child.name));
    assert Exists(listing, root, child.name);
    AttemptFirstLabelled(mapping, d, mapping[i].1, child.name, listing, failing, i);
    OneDescriptor(mapping, d, listing, failing);
  }

  // ----- a name that resolves to the root -----

  /** A name that starts with `", "` parses as the empty name: the split at `", "` ends before it begins. */
  lemma CommaNameParsesEmpty(tag: string, name: string, tail: string)
    requires !Contains(tag, ": ") && !Contains(name, ": ") && StartsWith(name, ", ")
    requires StartsWith(tail, SizeTag)
    ensures ParseDescriptor(Descriptor(tag, name, tail)) == Some((tag, ""))
  {
    var fields := Split(Descriptor(tag, name, tail), ": ");
    DescriptorFields(tag, name, tail, fields);
    var rest := name[2..];
    assert fields[1] == "" + ", " + (rest + ", Size");
    NoLeadNoContains("", ", ");
    SplitAfterPrefix("", ", ", rest + ", Size");
  }

  /** With the empty name, the attempt at the first labelled root removes that whole root. */
  lemma EmptyNameRemovesRoot(mapping: LabelMapping, descriptor: string, wanted: string, listing: Listing, failing: set<string>, i: nat)
    requires i < |mapping| && mapping[i].1 == wanted && mapping[i].0 in listing
    requires forall j :: 0 <= j < i ==> mapping[j].1 != wanted
    requires Join(mapping[i].0, "") !in failing
    ensures var after := Attempt(mapping, descriptor, wanted, "", listing, failing);
      after == (RemoveTree(listing, mapping[i].0), [Deleted(descriptor)]) && mapping[i].0 !in after.0
  {
    AttemptFirstLabelled(mapping, descriptor, wanted, "", listing, failing, i);
  }

  /**
    With the name `"."` or `".."`, the attempt at the first labelled root empties the root or its
    parent, keeps that directory, and logs the deletion as failed, because `os.rmdir` refuses a path
    ending in `.` or `..`.
  */
  lemma DotNameEmptiesTree(mapping: LabelMapping, descriptor: string, wanted: string, name: string, listing: Listing, failing: set<string>, i: nat)
    requires Undeletable(name)
    requires i < |mapping| && mapping[i].1 == wanted && mapping[i].0 in listing
    requires forall j :: 0 <= j < i ==> mapping[j].1 != wanted
    requires Join(mapping[i].0, name) !in failing
    ensures var tree := TreeOf(mapping[i].0, name);
      var after := Attempt(mapping, descriptor, wanted, name, listing, failing);
      && after == (EmptyTree(listing, tree), [DeleteFailed(descriptor)])
      && (tree in listing ==> tree in after.0 && after.0[tree] == [])
      && (name == "." ==> mapping[i].0 in after.0 && after.0[mapping[i].0] == [])
  {
    AttemptFirstLabelled(mapping, descriptor, wanted, name, listing, failing, i);
  }

  /**
    End to end: a file called `", x"` in a watched root is described as `"<label>: , x, Size: ..."`,
    which `delete_files` reads back as the empty name, so `os.path.join(root, "")` is the root and
    `shutil.rmtree` removes the whole watched directory.
  */
  lemma CommaNamedChildRemovesRoot(mapping: LabelMapping, stats: StatsRenderer, listing: Listing, failing: set<string>, i: nat, child: Node)
    requires i < |mapping| && mapping[i].0 in listing
    requires forall j :: 0 <= j < |mapping| && j != i ==> mapping[j].1 != mapping[i].1
    requires child in listing[mapping[i].0] && Listed(child) && PlainName(child.name)
    requires StartsWith(child.name, ", ") && !Contains(child.name, ": ")
    requires LabelFor(mapping, Normpath(Join(mapping[i].0, child.name))) == mapping[i].1
    requires !Contains(mapping[i].1, ": ")
    requires StartsWith(stats(TreeSize(child), child.mtime), SizeTag)
    requires Join(mapping[i].0, "") !in failing
    ensures var d := Describe(mapping, stats, ItemOf(mapping[i].0, child));
      var after := DeleteAll(mapping, [d], listing, failing);
      after == Batch(RemoveTree(listing, mapping[i].0), [Deleted(d)], false) && mapping[i].0 !in after.listing
  {
    var root := mapping[i].0;
    var item := ItemOf(root, child);
    var tail := stats(item.size, item.mtime);
    var d := Describe(mapping, stats, item);
    NormpathKeepsName(root, child.name);
    assert d == Descriptor(mapping[i].1, child.name, tail);
    CommaNameParsesEmpty(mapping[i].1, child.name, tail);
    OneDescriptor(mapping, d, listing, failing);
    EmptyNameRemovesRoot(mapping, d, mapping[i].1, listing, failing, i);
  }

  /**
    What `delete_files` evidently means to do: remove the file or directory the descriptor names
    inside a labelled root, trying only real entries of the root, so that `""`, `"."` and `".."`
    never resolve to the root or its parent.
  */
  function IntendedAttempt(mapping: LabelMapping, descriptor: string, wanted: string, name: string, listing: Listing, failing: set<string>): (Listing, seq<Event>)
    decreases |mapping|
  {
    if mapping == [] then (listing, [])
    else
      var dirPath := mapping[0].0;
      if mapping[0].1 != wanted then IntendedAttempt(mapping[1..], descriptor, wanted, name, listing, failing)
      else if Present(listing, dirPath, name) then
        if Join(dirPath, name) in failing then (listing, [DeleteFailed(descriptor)])
        else (RemoveEntry(listing, dirPath, name), [Deleted(descriptor)])
      else Prepend([Unrecognized(Join(dirPath, name))], IntendedAttempt(mapping[1..], descriptor, wanted, name, listing, failing))
  }

  /**
    The intended attempt keeps every watched directory, changes only a root labelled with the parsed
    label, and only ever removes entries.
  */
  lemma {:induction false} IntendedAttemptFrame(mapping: LabelMapping, descriptor: string, wanted: string, name: string, listing: Listing, failing: set<string>)
    ensures var after := IntendedAttempt(mapping, descriptor, wanted, name, listing, failing).0;
      && after.Keys == listing.Keys
      && (forall r :: r in after && after[r] != listing[r] ==> (r, wanted) in mapping)
      && (forall r, c :: r in after && c in after[r] ==> c in listing[r])
    decreases |mapping|
  {
    if mapping != [] {
      IntendedAttemptFrame(mapping[1..], descriptor, wanted, name, listing, failing);
      var after := IntendedAttempt(mapping, descriptor, wanted, name, listing, failing).0;
      forall r | r in after && after[r] != listing[r] ensures (r, wanted) in mapping {
        if (r, wanted) != mapping[0] {
          assert (r, wanted) in mapping[1..];
        }
      }
    }
  }

  /** For every name other than `""`, `"."` and `".."` the intended attempt is the attempt as written. */
  lemma {:induction false} IntendedAttemptAgrees(mapping: LabelMapping, descriptor: string, wanted: string, name: string, listing: Listing, failing: set<string>)
    requires !SelfOrParent(name)
    ensures IntendedAttempt(mapping, descriptor, wanted, name, listing, failing) == Attempt(mapping, descriptor, wanted, name, listing, failing)
    decreases |mapping|
  {
    if mapping != [] {
      IntendedAttemptAgrees(mapping[1..], descriptor, wanted, name, listing, failing);
    }
  }
}
