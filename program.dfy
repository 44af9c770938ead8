/**
  The `main` entry point of the monitor: the label given to every watched directory, the
  root-to-label mapping handed to the analyzer, and the exit status a run ends with.
*/
module Program {
  import opened Wrappers
  import opened Text
  import opened Paths
  import opened DirectoryHandler
  import opened DiskAnalyzer
  import opened ConfigLoader

  // ----- labels -----

  function Upper(c: char): char {
    if 'a' <= c <= 'z' then (c as int - 32) as char else c
  }

  function Lower(c: char): char {
    if 'A' <= c <= 'Z' then (c as int + 32) as char else c
  }

  /** `s.capitalize()` over ASCII: the first character upper-cased, the rest lower-cased. */
  function Capitalize(s: string): (r: string)
    ensures |r| == |s|
    ensures |s| > 0 ==> r[0] == Upper(s[0])
    ensures forall k :: 1 <= k < |s| ==> r[k] == Lower(s[k])
  {
    if s == [] then [] else [Upper(s[0])] + seq(|s| - 1, k requires 0 <= k < |s| - 1 => Lower(s[k + 1]))
  }

  /** Capitalising twice changes nothing more. */
  lemma CapitalizeIdempotent(s: string)
    ensures Capitalize(Capitalize(s)) == Capitalize(s)
  {
    var once := Capitalize(s);
    var twice := Capitalize(once);
    forall k | 0 <= k < |s| ensures twice[k] == once[k] {
      if k == 0 {
        assert Upper(Upper(s[0])) == Upper(s[0]);
      } else {
        assert Lower(Lower(s[k])) == Lower(s[k]);
      }
    }
  }

  /** The label of a watched directory: its last path segment once trailing separators are dropped, capitalised. */
  function Label(dir: string): string {
    Capitalize(Basename(RStripSep(dir)))
  }

  /** Trailing separators never change what `rstrip(os.sep)` leaves. */
  lemma {:induction false} RStripSepTrailing(p: string, k: nat)
    ensures RStripSep(p + Slashes(k)) == RStripSep(p)
  {
    if k > 0 {
      var q := p + Slashes(k - 1);
      assert p + Slashes(k) == q + Sep;
      RStripSepTrailing(p, k - 1);
    } else {
      assert p + Slashes(0) == p;
    }
  }

  /** A directory named `name` under `parent` is labelled `name` capitalised, however many separators close its path. */
  lemma LabelOfNamedDirectory(parent: string, name: string, k: nat)
    requires PlainName(name)
    ensures Label(parent + Sep + name + Slashes(k)) == Capitalize(name)
  {
    var p := parent + Sep + name;
    RStripSepTrailing(p, k);
    var last := |name| - 1;
    assert !OccursAt(name, Sep, last);
    assert name[last..last + 1] == [name[last]];
    assert p[|p| - 1] == name[last];
    assert RStripSep(p) == p;
    BasenameAfterSep(parent, name);
  }

  /** Trailing separators do not change a label: `"/data/movies/"` is labelled as `"/data/movies"` is. */
  lemma LabelIgnoresTrailingSeparators(dir: string, k: nat)
    ensures Label(dir + Slashes(k)) == Label(dir)
  {
    RStripSepTrailing(dir, k);
  }

  // ----- the label mapping -----

  /** The position of key `k` in `m`, if present. */
  function KeyIndex(m: LabelMapping, k: string): (r: Option<nat>)
    ensures r.Some? ==> r.value < |m| && m[r.value].0 == k
    ensures r.None? ==> forall i :: 0 <= i < |m| ==> m[i].0 != k
  {
    if m == [] then None
    else if m[|m| - 1].0 == k then Some(|m| - 1)
    else KeyIndex(m[..|m| - 1], k)
  }

  /** `d[k] = v` on a dictionary: an existing key keeps its place and takes the new value; a new key goes last. */
  function DictSet(m: LabelMapping, k: string, v: string): LabelMapping {
    match KeyIndex(m, k)
    case Some(i) => m[i := (k, v)]
    case None => m + [(k, v)]
  }

  /** `dict(pairs)`: the pairs inserted in order. */
  function DictOf(pairs: LabelMapping): LabelMapping {
    if pairs == [] then []
    else DictSet(DictOf(pairs[..|pairs| - 1]), pairs[|pairs| - 1].0, pairs[|pairs| - 1].1)
  }

  /** No key appears twice. */
  predicate UniqueKeys(m: LabelMapping) {
    forall i, j :: 0 <= i < j < |m| ==> m[i].0 != m[j].0
  }

  /** Some pair of `pairs` has key `k`. */
  predicate HasKey(pairs: LabelMapping, k: string) {
    exists i :: 0 <= i < |pairs| && pairs[i].0 == k
  }

  /** A dictionary built from pairs holds each of their keys once, and every entry is one of the pairs. */
  lemma {:induction false} DictOfEntries(pairs: LabelMapping)
    ensures UniqueKeys(DictOf(pairs))
    ensures forall e :: e in DictOf(pairs) ==> e in pairs
    ensures forall k :: HasKey(pairs, k) <==> KeyIndex(DictOf(pairs), k).Some?
  {
    if pairs != [] {
      var n := |pairs| - 1;
      var front, p := pairs[..n], pairs[n];
      DictOfEntries(front);
      var m := DictOf(front);
      assert DictOf(pairs) == DictSet(m, p.0, p.1);
      DictSetUnique(m, p.0, p.1);
      DictSetEntries(m, p.0, p.1);
      DictSetKeys(m, p.0, p.1);
      SnocEntries(pairs, front, p);
      forall k ensures KeyIndex(m, k).Some? <==> HasKey(m, k) {
        KeyIndexHasKey(m, k);
      }
      forall k ensures KeyIndex(DictOf(pairs), k).Some? <==> HasKey(DictOf(pairs), k) {
        KeyIndexHasKey(DictOf(pairs), k);
      }
    }
  }

  /** The entries and keys of `front + [p]` are those of `front` and `p`'s. */
  lemma SnocEntries(pairs: LabelMapping, front: LabelMapping, p: (string, string))
    requires pairs == front + [p]
    ensures forall e :: e in pairs <==> e in front || e == p
    ensures forall k :: HasKey(pairs, k) <==> HasKey(front, k) || k == p.0
  {
    forall k | HasKey(pairs, k) && k != p.0 ensures HasKey(front, k) {
      var i :| 0 <= i < |pairs| && pairs[i].0 == k;
      assert front[i].0 == k;
    }
    forall k | HasKey(front, k) ensures HasKey(pairs, k) {
      var i :| 0 <= i < |front| && front[i].0 == k;
      assert pairs[i].0 == k;
    }
    assert pairs[|front|].0 == p.0;
  }

  /** Setting a key keeps the keys unique. */
  lemma DictSetUnique(m: LabelMapping, k: string, v: string)
    requires UniqueKeys(m)
    ensures UniqueKeys(DictSet(m, k, v))
  {
  }

  /** Every entry after setting a key is the new pair or an entry from before. */
  lemma DictSetEntries(m: LabelMapping, k: string, v: string)
    ensures forall e :: e in DictSet(m, k, v) ==> e in m || e == (k, v)
  {
    match KeyIndex(m, k)
    case Some(i) =>
      forall e | e in m[i := (k, v)] ensures e in m || e == (k, v) {
        var j :| 0 <= j < |m| && m[i := (k, v)][j] == e;
        if j != i { assert e == m[j]; }
      }
    case None =>
  }

  /** Setting a key adds that key and keeps every other. */
  lemma DictSetKeys(m: LabelMapping, k: string, v: string)
    ensures forall x :: HasKey(DictSet(m, k, v), x) <==> HasKey(m, x) || x == k
  {
    var r := DictSet(m, k, v);
    var at := if KeyIndex(m, k).Some? then KeyIndex(m, k).value else |m|;
    assert r[at].0 == k;
    forall x | HasKey(m, x) ensures HasKey(r, x) {
      var j :| 0 <= j < |m| && m[j].0 == x;
      assert r[j].0 == x;
    }
    forall x | HasKey(r, x) && x != k ensures HasKey(m, x) {
      var j :| 0 <= j < |r| && r[j].0 == x;
      assert m[j].0 == x;
    }
  }

  /** `KeyIndex` finds a key exactly when some entry carries it. */
  lemma KeyIndexHasKey(m: LabelMapping, x: string)
    ensures KeyIndex(m, x).Some? <==> HasKey(m, x)
  {
    if KeyIndex(m, x).Some? {
      assert m[KeyIndex(m, x).value].0 == x;
    }
  }

  /** Pairs with distinct keys make a dictionary that keeps them all, in order. */
  lemma {:induction false} DictOfDistinct(pairs: LabelMapping)
    requires UniqueKeys(pairs)
    ensures DictOf(pairs) == pairs
  {
    if pairs != [] {
      var n := |pairs| - 1;
      var front := pairs[..n];
      DictOfDistinct(front);
      assert KeyIndex(front, pairs[n].0).None? by {
        forall i | 0 <= i < |front| ensures front[i].0 != pairs[n].0 {
          assert front[i] == pairs[i];
        }
      }
      assert pairs == front + [pairs[n]];
    }
  }

  /** The labels of the directories, in order. */
  function Labels(dirs: seq<string>): (r: seq<string>)
    ensures |r| == |dirs|
  {
    seq(|dirs|, i requires 0 <= i < |dirs| => Label(dirs[i]))
  }

  /** `zip(keys, values)`. */
  function Zip(keys: seq<string>, values: seq<string>): (r: LabelMapping)
    requires |keys| == |values|
    ensures |r| == |keys|
  {
    seq(|keys|, i requires 0 <= i < |keys| => (keys[i], values[i]))
  }

  /** `dict(zip(dirs, labels))`, the root-to-label mapping. */
  function DirLabels(dirs: seq<string>): LabelMapping {
    DictOf(Zip(dirs, Labels(dirs)))
  }

  /**
    The mapping holds each configured directory exactly once, paired with its own label, and
    nothing else.
  */
  lemma DirLabelsLookup(dirs: seq<string>)
    ensures UniqueKeys(DirLabels(dirs))
    ensures forall e :: e in DirLabels(dirs) ==> e.1 == Label(e.0)
    ensures forall d :: d in dirs <==> KeyIndex(DirLabels(dirs), d).Some?
  {
    var pairs := Zip(dirs, Labels(dirs));
    DictOfEntries(pairs);
    forall e | e in pairs ensures e.1 == Label(e.0) {
      var i :| 0 <= i < |pairs| && pairs[i] == e;
    }
    forall d ensures d in dirs <==> HasKey(pairs, d) {
      if d in dirs {
        var i :| 0 <= i < |dirs| && dirs[i] == d;
        assert pairs[i].0 == d;
      }
    }
  }

  /** With no directory listed twice, the mapping pairs the directories and their labels position by position. */
  lemma DirLabelsPositional(dirs: seq<string>)
    requires forall i, j :: 0 <= i < j < |dirs| ==> dirs[i] != dirs[j]
    ensures |DirLabels(dirs)| == |dirs|
    ensures forall i :: 0 <= i < |dirs| ==> DirLabels(dirs)[i] == (dirs[i], Label(dirs[i]))
  {
    DictOfDistinct(Zip(dirs, Labels(dirs)));
  }

  // ----- the run -----

  /** How `main` ends: by returning a status (`None` in a dry run), or by letting an exception escape. */
  datatype Outcome = Returned(status: Option<int>) | Raised(error: Exception)

  /** The four keys `main` reads from the parsed `dum.toml`; `None` marks a key the file lacks. */
  datatype Document = Document(
    directories: Option<seq<string>>,
    thresholdLimit: Option<int>,
    gotifyUrl: Option<Value>,
    gotifyToken: Option<Value>)

  /** `os.path.commonpath(dirs)` raises `ValueError` on an empty list and on a mix of absolute and relative paths. */
  predicate CommonPathFails(dirs: seq<string>) {
    dirs == []
    || ((exists i :: 0 <= i < |dirs| && StartsWith(dirs[i], Sep)) && (exists j :: 0 <= j < |dirs| && !StartsWith(dirs[j], Sep)))
  }

  /** The exceptions the configuration step turns into status 1. */
  predicate SetupError(e: Exception) {
    e == ValueError || e == FileNotFoundError
  }

  /**
    The analyzer `main` builds, or how the configuration step ends instead: `loaded` is what
    `toml.load` gives and `freeSpace` what `os.statvfs` reports for the common mount point.
  */
  function Setup(loaded: Result<Document, Exception>, freeSpace: Result<int, Exception>): (r: Result<Analyzer, Outcome>)
  {
    if loaded.Err? then Err(if SetupError(loaded.error) then Returned(Some(1)) else Raised(loaded.error))
    else
      var doc := loaded.value;
      if !Keyed(doc) then Err(Raised(KeyError))
      else
        var dirs := doc.directories.value;
        if CommonPathFails(dirs) then Err(Returned(Some(1)))
        else if freeSpace.Err? then Err(if SetupError(freeSpace.error) then Returned(Some(1)) else Raised(freeSpace.error))
        else Ok(NewAnalyzer(dirs, doc.thresholdLimit.value, DirLabels(dirs), freeSpace.value))
  }

  /** The end of a run: how `main` ends, whether a notification was sent, and the file system afterwards. */
  datatype RunResult = RunResult(outcome: Outcome, notified: bool, listing: Listing)

  /**
    A run of `main`.  `interrupted` says a keyboard interrupt arrives during analysis and
    `notifyFails` that the call to `send_notification` raises before anything is sent (see
    `NotifyRaises`).
  */
  function MainOutcome(loaded: Result<Document, Exception>, freeSpace: Result<int, Exception>, dryRun: bool,
                       listing: Listing, failing: set<string>, stats: StatsRenderer,
                       interrupted: bool, notifyFails: bool): RunResult
  {
    match Setup(loaded, freeSpace)
    case Err(ending) => RunResult(ending, false, listing)
    case Ok(a) =>
      var doc := loaded.value;
      var notify := Truthy(doc.gotifyUrl.value) && Truthy(doc.gotifyToken.value);
      Proceed(a, notify, dryRun, listing, failing, stats, interrupted, notifyFails)
  }

  /** The part of `main` after configuration: analysis, then deletion and the notification unless this is a dry run. */
  function Proceed(a: Analyzer, notify: bool, dryRun: bool, listing: Listing, failing: set<string>,
                   stats: StatsRenderer, interrupted: bool, notifyFails: bool): RunResult
  {
    if interrupted then RunResult(Returned(Some(2)), false, listing)
    else match Plan(a, listing)
      case Err(_) => RunResult(Returned(Some(1)), false, listing)
      case Ok(items) =>
        if items == [] then RunResult(Returned(Some(0)), false, listing)
        else if dryRun then RunResult(Returned(None), false, listing)
        else
          var batch := DeleteAll(a.labelMapping, DescribeAll(a.labelMapping, stats, items), listing, failing);
          if batch.aborted then RunResult(Returned(Some(1)), false, batch.listing)
          else if notify then RunResult(Returned(Some(if notifyFails then 1 else 0)), !notifyFails, batch.listing)
          else RunResult(Returned(Some(0)), false, batch.listing)
  }

  /** A configuration error, a missing or mixed directory list, or an unreadable mount point ends the run with status 1 and touches nothing. */
  lemma SetupErrorsExitOne(loaded: Result<Document, Exception>, freeSpace: Result<int, Exception>, dryRun: bool,
                           listing: Listing, failing: set<string>, stats: StatsRenderer, interrupted: bool, notifyFails: bool)
    requires || (loaded.Err? && SetupError(loaded.error))
             || (loaded.Ok? && Keyed(loaded.value) && CommonPathFails(loaded.value.directories.value))
             || (loaded.Ok? && Keyed(loaded.value) && freeSpace.Err? && SetupError(freeSpace.error))
    ensures var r := MainOutcome(loaded, freeSpace, dryRun, listing, failing, stats, interrupted, notifyFails);
      r == RunResult(Returned(Some(1)), false, listing)
  {
  }

  /** All four keys are present. */
  predicate Keyed(doc: Document) {
    doc.directories.Some? && doc.thresholdLimit.Some? && doc.gotifyUrl.Some? && doc.gotifyToken.Some?
  }

  /** A key missing from the file escapes `main` as a `KeyError`: it is not one of the configuration errors `main` handles. */
  lemma MissingKeyEscapes(doc: Document, freeSpace: Result<int, Exception>, dryRun: bool,
                          listing: Listing, failing: set<string>, stats: StatsRenderer, interrupted: bool, notifyFails: bool)
    requires !Keyed(doc)
    ensures MainOutcome(Ok(doc), freeSpace, dryRun, listing, failing, stats, interrupted, notifyFails).outcome == Raised(KeyError)
  {
  }

  /** Once configured, a run returns rather than raising, and the status it returns is 0, 1, 2 or none. */
  lemma StatusValues(loaded: Result<Document, Exception>, freeSpace: Result<int, Exception>, dryRun: bool,
                     listing: Listing, failing: set<string>, stats: StatsRenderer, interrupted: bool, notifyFails: bool)
    requires Setup(loaded, freeSpace).Ok?
    ensures var r := MainOutcome(loaded, freeSpace, dryRun, listing, failing, stats, interrupted, notifyFails);
      r.outcome.Returned? && (r.outcome.status.None? || r.outcome.status.value in {0, 1, 2})
  {
  }

  /** A configured run returns no status exactly when it is a dry run that is not interrupted and reaches a non-empty plan. */
  lemma NoStatusExactlyOnDryRun(loaded: Result<Document, Exception>, freeSpace: Result<int, Exception>, dryRun: bool,
                                listing: Listing, failing: set<string>, stats: StatsRenderer, interrupted: bool, notifyFails: bool)
    requires Setup(loaded, freeSpace).Ok?
    ensures var r := MainOutcome(loaded, freeSpace, dryRun, listing, failing, stats, interrupted, notifyFails);
      var plan := Plan(Setup(loaded, freeSpace).value, listing);
      r.outcome == Returned(None) <==> dryRun && !interrupted && plan.Ok? && plan.value != []
  {
  }

  /** A keyboard interrupt during analysis ends a configured run with status 2 before anything is deleted. */
  lemma InterruptExitsTwo(loaded: Result<Document, Exception>, freeSpace: Result<int, Exception>, dryRun: bool,
                          listing: Listing, failing: set<string>, stats: StatsRenderer, notifyFails: bool)
    requires Setup(loaded, freeSpace).Ok?
    ensures MainOutcome(loaded, freeSpace, dryRun, listing, failing, stats, true, notifyFails) == RunResult(Returned(Some(2)), false, listing)
  {
  }

  /** With enough free space a configured run deletes nothing, sends nothing and returns 0. */
  lemma EnoughSpaceExitsZero(loaded: Result<Document, Exception>, freeSpace: Result<int, Exception>, dryRun: bool,
                             listing: Listing, failing: set<string>, stats: StatsRenderer, notifyFails: bool)
    requires Setup(loaded, freeSpace).Ok?
    requires freeSpace.value >= GibToBytes(loaded.value.thresholdLimit.value)
    ensures MainOutcome(loaded, freeSpace, dryRun, listing, failing, stats, false, notifyFails) == RunResult(Returned(Some(0)), false, listing)
  {
  }

  /** A dry run changes no file and sends no notification. */
  lemma DryRunChangesNothing(loaded: Result<Document, Exception>, freeSpace: Result<int, Exception>,
                             listing: Listing, failing: set<string>, stats: StatsRenderer, interrupted: bool, notifyFails: bool)
    ensures var r := MainOutcome(loaded, freeSpace, true, listing, failing, stats, interrupted, notifyFails);
      r.listing == listing && !r.notified
  {
  }

  /**
    A run that goes ahead deletes the described plan with the directory labels, notifies exactly
    when both Gotify settings are set, no descriptor aborted the batch and the notifier call does
    not raise, and returns 0 unless the batch aborted or the notifier call raised.
  */
  lemma DeletingRun(loaded: Result<Document, Exception>, freeSpace: Result<int, Exception>,
                    listing: Listing, failing: set<string>, stats: StatsRenderer, notifyFails: bool)
    requires Setup(loaded, freeSpace).Ok?
    requires Plan(Setup(loaded, freeSpace).value, listing).Ok? && Plan(Setup(loaded, freeSpace).value, listing).value != []
    ensures var doc := loaded.value;
      var mapping := DirLabels(doc.directories.value);
      var batch := DeleteAll(mapping, DescribeAll(mapping, stats, Plan(Setup(loaded, freeSpace).value, listing).value), listing, failing);
      var r := MainOutcome(loaded, freeSpace, false, listing, failing, stats, false, notifyFails);
      && r.listing == batch.listing
      && (r.notified <==> !batch.aborted && Truthy(doc.gotifyUrl.value) && Truthy(doc.gotifyToken.value) && !notifyFails)
      && (r.outcome == Returned(Some(0)) <==> !batch.aborted && !(Truthy(doc.gotifyUrl.value) && Truthy(doc.gotifyToken.value) && notifyFails))
      && (r.outcome != Returned(Some(0)) ==> r.outcome == Returned(Some(1)))
  {
    var a := Setup(loaded, freeSpace).value;
    var doc := loaded.value;
    assert a.labelMapping == DirLabels(doc.directories.value);
    var notify := Truthy(doc.gotifyUrl.value) && Truthy(doc.gotifyToken.value);
    ProceedDeleting(a, notify, listing, failing, stats, notifyFails);
  }

  /** `DeletingRun` once configured: the batch decides the listing, the notification and the status. */
  lemma ProceedDeleting(a: Analyzer, notify: bool, listing: Listing, failing: set<string>, stats: StatsRenderer, notifyFails: bool)
    requires Plan(a, listing).Ok? && Plan(a, listing).value != []
    ensures var batch := DeleteAll(a.labelMapping, DescribeAll(a.labelMapping, stats, Plan(a, listing).value), listing, failing);
      var r := Proceed(a, notify, false, listing, failing, stats, false, notifyFails);
      && r.listing == batch.listing
      && (r.notified <==> !batch.aborted && notify && !notifyFails)
      && (r.outcome == Returned(Some(0)) <==> !batch.aborted && !(notify && notifyFails))
      && (r.outcome != Returned(Some(0)) ==> r.outcome == Returned(Some(1)))
  {
  }

  // ----- the notifier -----

  /** Which `send_notification` `main` calls: the one `src/main.py` imports from `src/notify.py`, or `src/dum.py`'s own. */
  datatype Notifier = SplitNotifier | SingleFileNotifier

  /**
    Whether `send_notification(processed_items, gotify_url, gotify_token)` raises.  The notifier of
    `src/notify.py` declares one parameter, so the three-argument call raises `TypeError` before any
    request; that of `src/dum.py` raises only when `requests.post` itself does (`requestFails`),
    since it logs HTTP error statuses instead of raising.
  */
  function NotifyRaises(notifier: Notifier, requestFails: bool): bool {
    match notifier
    case SplitNotifier => true
    case SingleFileNotifier => requestFails
  }

  /**
    As `src/main.py` is written: a run that deletes with both Gotify settings set never sends a
    notification and ends with status 1, whether or not the batch went through.
  */
  lemma SplitNotifierExitsOne(loaded: Result<Document, Exception>, freeSpace: Result<int, Exception>,
                              listing: Listing, failing: set<string>, stats: StatsRenderer, requestFails: bool)
    requires Setup(loaded, freeSpace).Ok?
    requires Plan(Setup(loaded, freeSpace).value, listing).Ok? && Plan(Setup(loaded, freeSpace).value, listing).value != []
    requires Truthy(loaded.value.gotifyUrl.value) && Truthy(loaded.value.gotifyToken.value)
    ensures var mapping := DirLabels(loaded.value.directories.value);
      var batch := DeleteAll(mapping, DescribeAll(mapping, stats, Plan(Setup(loaded, freeSpace).value, listing).value), listing, failing);
      MainOutcome(loaded, freeSpace, false, listing, failing, stats, false, NotifyRaises(SplitNotifier, requestFails))
        == RunResult(Returned(Some(1)), false, batch.listing)
  {
    DeletingRun(loaded, freeSpace, listing, failing, stats, NotifyRaises(SplitNotifier, requestFails));
  }

  /**
    With the notifier of `src/dum.py`, which takes the URL and token it is given: a run that deletes
    with both Gotify settings set sends the notification unless the batch aborted or the request
    raised, and returns 0 exactly when it was sent.
  */
  lemma SingleFileNotifierSends(loaded: Result<Document, Exception>, freeSpace: Result<int, Exception>,
                                listing: Listing, failing: set<string>, stats: StatsRenderer, requestFails: bool)
    requires Setup(loaded, freeSpace).Ok?
    requires Plan(Setup(loaded, freeSpace).value, listing).Ok? && Plan(Setup(loaded, freeSpace).value, listing).value != []
    requires Truthy(loaded.value.gotifyUrl.value) && Truthy(loaded.value.gotifyToken.value)
    ensures var mapping := DirLabels(loaded.value.directories.value);
      var batch := DeleteAll(mapping, DescribeAll(mapping, stats, Plan(Setup(loaded, freeSpace).value, listing).value), listing, failing);
      var sent := !batch.aborted && !requestFails;
      MainOutcome(loaded, freeSpace, false, listing, failing, stats, false, NotifyRaises(SingleFileNotifier, requestFails))
        == RunResult(Returned(Some(if sent then 0 else 1)), sent, batch.listing)
  {
    DeletingRun(loaded, freeSpace, listing, failing, stats, NotifyRaises(SingleFileNotifier, requestFails));
  }

  /** `main(dry_run)` against the file system `disk`. */
  method Run(loaded: Result<Document, Exception>, freeSpace: Result<int, Exception>, dryRun: bool,
             disk: Disk, stats: StatsRenderer, interrupted: bool, notifyFails: bool)
    returns (outcome: Outcome, notified: bool)
    modifies disk
    ensures MainOutcome(loaded, freeSpace, dryRun, old(disk.listing), disk.failing, stats, interrupted, notifyFails)
      == RunResult(outcome, notified, disk.listing)
  {
    notified := false;
    if loaded.Err? {
      if loaded.error == ValueError || loaded.error == FileNotFoundError {
        return Returned(Some(1)), false;
      }
      return Raised(loaded.error), false;
    }
    var doc := loaded.value;
    if doc.directories.None? || doc.thresholdLimit.None? || doc.gotifyUrl.None? || doc.gotifyToken.None? {
      return Raised(KeyError), false;
    }
    var dirs, thresholdLimit := doc.directories.value, doc.thresholdLimit.value;
    var gotifyUrl, gotifyToken := doc.gotifyUrl.value, doc.gotifyToken.value;
    var dirLabels := DirLabels(dirs);
    if CommonPathFails(dirs) {
      return Returned(Some(1)), false;
    }
    if freeSpace.Err? {
      if freeSpace.error == ValueError || freeSpace.error == FileNotFoundError {
        return Returned(Some(1)), false;
      }
      return Raised(freeSpace.error), false;
    }
    var analyzer := NewAnalyzer(dirs, thresholdLimit, dirLabels, freeSpace.value);

    if interrupted {
      return Returned(Some(2)), false;
    }
    var processedItems := Analyze(analyzer, disk.listing, stats);
    if processedItems.Err? {
      return Returned(Some(1)), false;
    }
    if processedItems.value == [] {
      return Returned(Some(0)), false;
    } else if !dryRun {
      var log, raised := DeleteFiles(dirLabels, disk, processedItems.value);
      if raised.Some? {
        return Returned(Some(1)), false;
      }
      if Truthy(gotifyUrl) && Truthy(gotifyToken) {
        if notifyFails {
          return Returned(Some(1)), false;
        }
        notified := true;
      }
      return Returned(Some(0)), notified;
    }
    return Returned(None), false;
  }
}
