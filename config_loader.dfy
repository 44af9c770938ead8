/**
  `ConfigLoader`: the validators that check the parsed `dum.toml` values and record the accepted ones
  in `self.config`, the Gotify pairing rules of both revisions, and the per-line diagnostics written
  when the file does not parse.
*/
module ConfigLoader {
  import opened Wrappers
  import opened Text

  /** A value read from the configuration file; `PyNone` is Python's `None` (a missing key). */
  datatype Value = PyNone | Str(s: string) | Int(n: int) | Bool(b: bool) | StrList(items: seq<string>)

  /** Python truthiness. */
  predicate Truthy(v: Value) {
    match v
    case PyNone => false
    case Str(s) => |s| > 0
    case Int(n) => n != 0
    case Bool(b) => b
    case StrList(items) => |items| > 0
  }

  // ----- directories -----

  /**
    The directory facts `_validate_directories` asks the operating system for: each existing
    directory mapped to the id of the device holding it (`os.path.isdir` and `os.stat(...).st_dev`).
  */
  type DeviceTable = map<string, int>

  /** Every listed path is an existing directory. */
  predicate AllDirectories(dirs: seq<string>, devices: DeviceTable) {
    forall i :: 0 <= i < |dirs| ==> dirs[i] in devices
  }

  /** The outcome of `_validate_directories(dirs)`; `None` stands for a missing key, which fails like an empty list. */
  function DirectoriesError(dirs: Option<seq<string>>, devices: DeviceTable): Option<Exception> {
    if dirs.None? || dirs.value == [] then Some(ValueError)
    else if !AllDirectories(dirs.value, devices) then Some(ValueError)
    else if exists i :: 1 <= i < |dirs.value| && devices[dirs.value[i]] != devices[dirs.value[0]] then Some(ValueError)
    else None
  }

  /** The directories pass exactly when there is at least one, all exist, and all sit on one device. */
  lemma DirectoriesAccepted(dirs: Option<seq<string>>, devices: DeviceTable)
    ensures DirectoriesError(dirs, devices).None? <==>
      dirs.Some? && |dirs.value| > 0 && AllDirectories(dirs.value, devices)
      && forall i, j :: 0 <= i < |dirs.value| && 0 <= j < |dirs.value| ==> devices[dirs.value[i]] == devices[dirs.value[j]]
  {
    if dirs.Some? && |dirs.value| > 0 && AllDirectories(dirs.value, devices) && DirectoriesError(dirs, devices).None? {
      var d := dirs.value;
      forall i, j | 0 <= i < |d| && 0 <= j < |d| ensures devices[d[i]] == devices[d[j]] {
        if i > 0 { assert devices[d[i]] == devices[d[0]]; }
        if j > 0 { assert devices[d[j]] == devices[d[0]]; }
      }
    }
  }

  // ----- threshold -----

  predicate IsDigit(c: char) {
    '0' <= c <= '9'
  }

  /** `str.isdigit()` over ASCII: non-empty and digits only. */
  predicate IsDigits(s: string) {
    |s| > 0 && forall k :: 0 <= k < |s| ==> IsDigit(s[k])
  }

  /** `int(s)` for a digit string. */
  function DigitsValue(s: string): nat
    requires forall k :: 0 <= k < |s| ==> IsDigit(s[k])
  {
    if s == [] then 0
    else DigitsValue(s[..|s| - 1]) * 10 + DigitOf(s[|s| - 1])
  }

  function DigitOf(c: char): nat
    requires IsDigit(c)
  {
    c as int - '0' as int
  }

  /** `str(n)`: the decimal rendering of a natural number, without leading zeros. */
  function Decimal(n: nat): (r: string)
    ensures IsDigits(r)
  {
    if n < 10 then [('0' as int + n) as char]
    else Decimal(n / 10) + [('0' as int + n % 10) as char]
  }

  /** Reading a rendered number gives the number back. */
  lemma {:induction false} DecimalRoundTrip(n: nat)
    ensures DigitsValue(Decimal(n)) == n
  {
    if n >= 10 {
      DecimalRoundTrip(n / 10);
      var r := Decimal(n);
      assert r[..|r| - 1] == Decimal(n / 10);
    }
  }

  /** What `_validate_threshold_limit(value)` accepts and stores. */
  function ThresholdLimit(v: Value): (r: Result<nat, Exception>)
  {
    if v.PyNone? then Err(ValueError)
    else if !v.Str? then Err(AttributeError)
    else if !IsDigits(v.s) then Err(ValueError)
    else if DigitsValue(v.s) < 1 then Err(ValueError)
    else Ok(DigitsValue(v.s))
  }

  /** The threshold is accepted exactly for digit strings whose value is at least 1, and the stored limit is that value. */
  lemma ThresholdAccepted(v: Value)
    ensures ThresholdLimit(v).Ok? <==> v.Str? && IsDigits(v.s) && DigitsValue(v.s) >= 1
    ensures ThresholdLimit(v).Ok? ==> ThresholdLimit(v).value >= 1
    ensures v.Str? && IsDigits(v.s) && DigitsValue(v.s) == 0 ==> ThresholdLimit(v) == Err(ValueError)
  {
  }

  /** Every positive limit written in decimal is accepted as itself. */
  lemma ThresholdOfDecimal(n: nat)
    requires n >= 1
    ensures ThresholdLimit(Str(Decimal(n))) == Ok(n)
  {
    DecimalRoundTrip(n);
  }

  // ----- Gotify -----

  /**
    `_validate_gotify(url, token)`.  The third branch, which would raise on a half-configured pair,
    can never be reached; the `None` it would fall through to is falsy and is written here as `false`.
  */
  function ValidateGotify(url: Value, token: Value): (r: Result<bool, Exception>)
    ensures r.Ok?
    ensures r.value <==> Truthy(url) && Truthy(token)
  {
    if Truthy(url) && Truthy(token) then Ok(true)
    else if !(Truthy(url) && Truthy(token)) then Ok(false)
    else if !Truthy(url) || !Truthy(token) then Err(ValueError)
    else Ok(false)
  }

  /** `get_gotify`: the pair when both parts are set, otherwise `(None, None)`. */
  function GetGotify(url: Value, token: Value): (r: (Value, Value))
  {
    if ValidateGotify(url, token).value then (url, token) else (PyNone, PyNone)
  }

  /** `get_gotify` never hands out half a pair: both parts are set, or both are `None`. */
  lemma GetGotifyBothOrNeither(url: Value, token: Value)
    ensures var (u, t) := GetGotify(url, token);
      (Truthy(u) && Truthy(t) && u == url && t == token) || (u == PyNone && t == PyNone)
    ensures Truthy(GetGotify(url, token).0) <==> Truthy(url) && Truthy(token)
  {
  }

  /** `_validate_gotify_url` / `_validate_gotify_token`: an unset or empty setting is stored as `None`. */
  function Normalised(v: Value): (r: Value)
    ensures Truthy(r) == Truthy(v)
    ensures r == PyNone || r == v
    ensures !Truthy(v) ==> r == PyNone
  {
    if Truthy(v) then v else PyNone
  }

  /**
    `validate_gotify_config` as written: it raises unless both parts are set, so a file with neither
    part, which its own message says is allowed, is rejected.
  */
  function GotifyConfigAsWritten(url: Value, token: Value): (r: Option<Exception>)
    ensures r.None? <==> Truthy(url) && Truthy(token)
    ensures r.Some? ==> r.value == ValueError
  {
    if !Truthy(url) || !Truthy(token) then Some(ValueError) else None
  }

  /** The rule the message states: both parts set, or both empty. */
  function GotifyPairing(url: Value, token: Value): (r: Option<Exception>)
    ensures r.None? <==> Truthy(url) == Truthy(token)
    ensures r.Some? ==> r.value == ValueError
  {
    if Truthy(url) != Truthy(token) then Some(ValueError) else None
  }

  /** The written check rejects a configuration without Gotify, which the stated rule accepts. */
  lemma GotifyConfigRejectsNeither()
    ensures GotifyConfigAsWritten(PyNone, PyNone) == Some(ValueError)
    ensures GotifyPairing(PyNone, PyNone) == None
  {
  }

  /** Where both parts are set, or exactly one is, the two checks agree; they differ only when neither is. */
  lemma GotifyChecksAgree(url: Value, token: Value)
    ensures GotifyConfigAsWritten(url, token) != GotifyPairing(url, token) <==> !Truthy(url) && !Truthy(token)
  {
  }

  // ----- the loader -----

  /** A configuration loader and the accepted values it has recorded. */
  class Loader {
    var config: map<string, Value>

    constructor (parsed: map<string, Value>)
      ensures config == parsed
    {
      config := parsed;
    }

    /** `self.config.get(key)`. */
    function Get(key: string): Value
      reads this
    {
      Lookup(config, key)
    }

    /** `_validate_directories(dirs)`: raises on a bad list, otherwise records it under `'dirs'`. */
    method ValidateDirectories(dirs: Option<seq<string>>, devices: DeviceTable) returns (raised: Option<Exception>)
      modifies this
      ensures raised == DirectoriesError(dirs, devices)
      ensures raised.None? ==> config == old(config)["dirs" := StrList(dirs.value)]
      ensures raised.Some? ==> config == old(config)
    {
      if dirs.None? || |dirs.value| == 0 {
        return Some(ValueError);
      }
      var paths := dirs.value;
      if !(forall i :: 0 <= i < |paths| ==> paths[i] in devices) {
        return Some(ValueError);
      }
      var firstDirDeviceId := devices[paths[0]];
      var i := 1;
      while i < |paths|
        invariant 1 <= i <= |paths|
        invariant forall k :: 1 <= k < i ==> devices[paths[k]] == firstDirDeviceId
      {
        if devices[paths[i]] != firstDirDeviceId {
          return Some(ValueError);
        }
        i := i + 1;
      }
      config := config["dirs" := StrList(paths)];
      return None;
    }

    /** `_validate_threshold_limit(value)`: raises on anything but a positive digit string, otherwise records the number. */
    method ValidateThresholdLimit(v: Value) returns (raised: Option<Exception>)
      modifies this
      ensures ThresholdLimit(v).Err? ==> raised == Some(ThresholdLimit(v).error) && config == old(config)
      ensures ThresholdLimit(v).Ok? ==> raised == None && config == old(config)["threshold_limit" := Int(ThresholdLimit(v).value)]
    {
      if v.PyNone? {
        return Some(ValueError);
      }
      if !v.Str? {
        return Some(AttributeError);
      }
      if !IsDigits(v.s) {
        return Some(ValueError);
      }
      var thresholdLimit := DigitsValue(v.s);
      if thresholdLimit < 1 {
        return Some(ValueError);
      }
      config := config["threshold_limit" := Int(thresholdLimit)];
      return None;
    }

    /** `_validate_gotify_url(value)`. */
    method ValidateGotifyUrl(v: Value)
      modifies this
      ensures config == old(config)["gotify_url" := Normalised(v)]
    {
      if !Truthy(v) {
        config := config["gotify_url" := PyNone];
      } else {
        config := config["gotify_url" := v];
      }
    }

    /** `_validate_gotify_token(value)`. */
    method ValidateGotifyToken(v: Value)
      modifies this
      ensures config == old(config)["gotify_token" := Normalised(v)]
    {
      if !Truthy(v) {
        config := config["gotify_token" := PyNone];
      } else {
        config := config["gotify_token" := v];
      }
    }

    /**
      `validate_config` followed by `validate_gotify_config`: the four validators run in key order on
      the values read from the file, the first exception stops the chain, and the Gotify check as
      written closes it.  Each validator that finished has recorded its value; the Gotify check
      records nothing.
    */
    method ValidateConfig(devices: DeviceTable) returns (raised: Option<Exception>)
      requires Get("Directories").PyNone? || Get("Directories").StrList?
      modifies this
      ensures var dirs := DirectoryList(old(Get("Directories")));
        raised == ConfigError(dirs, old(Get("ThresholdLimit")), old(Get("GotifyURL")), old(Get("GotifyToken")), devices)
      ensures config == ConfigAfter(old(config), DirectoryList(old(Get("Directories"))), devices)
    {
      var dirs := DirectoryList(Get("Directories"));
      var thresholdValue, urlValue, tokenValue := Get("ThresholdLimit"), Get("GotifyURL"), Get("GotifyToken");
      raised := ValidateDirectories(dirs, devices);
      if raised.Some? {
        return;
      }
      raised := ValidateThresholdLimit(thresholdValue);
      if raised.Some? {
        return;
      }
      ValidateGotifyUrl(urlValue);
      ValidateGotifyToken(tokenValue);
      raised := GotifyConfigAsWritten(config["gotify_url"], config["gotify_token"]);
    }
  }

  /** The `Directories` value as the list `validate_directories` receives; `None` when the key is unset. */
  function DirectoryList(v: Value): Option<seq<string>>
    requires v.PyNone? || v.StrList?
  {
    if v.StrList? then Some(v.items) else None
  }

  /** `config.get(key)` on a plain map. */
  function Lookup(config: map<string, Value>, key: string): Value {
    if key in config then config[key] else PyNone
  }

  /** The first failure of the validation chain as the program runs it, if any. */
  function ConfigError(dirs: Option<seq<string>>, threshold: Value, url: Value, token: Value, devices: DeviceTable): Option<Exception> {
    if DirectoriesError(dirs, devices).Some? then DirectoriesError(dirs, devices)
    else if ThresholdLimit(threshold).Err? then Some(ThresholdLimit(threshold).error)
    else GotifyConfigAsWritten(Normalised(url), Normalised(token))
  }

  /** The same chain closed by the pairing rule the Gotify check's message states. */
  function IntendedConfigError(dirs: Option<seq<string>>, threshold: Value, url: Value, token: Value, devices: DeviceTable): Option<Exception> {
    if DirectoriesError(dirs, devices).Some? then DirectoriesError(dirs, devices)
    else if ThresholdLimit(threshold).Err? then Some(ThresholdLimit(threshold).error)
    else GotifyPairing(Normalised(url), Normalised(token))
  }

  /** The configuration map after the chain: each validator that ran to its end has recorded its value. */
  function ConfigAfter(config: map<string, Value>, dirs: Option<seq<string>>, devices: DeviceTable): map<string, Value> {
    var threshold := Lookup(config, "ThresholdLimit");
    if DirectoriesError(dirs, devices).Some? then config
    else
      var withDirs := config["dirs" := StrList(dirs.value)];
      if ThresholdLimit(threshold).Err? then withDirs
      else withDirs["threshold_limit" := Int(ThresholdLimit(threshold).value)]
        ["gotify_url" := Normalised(Lookup(config, "GotifyURL"))]["gotify_token" := Normalised(Lookup(config, "GotifyToken"))]
  }

  /**
    As the program runs it, a configuration passes exactly when the directories and the threshold are
    acceptable and both Gotify parts are set.
  */
  lemma ConfigAccepted(dirs: Option<seq<string>>, threshold: Value, url: Value, token: Value, devices: DeviceTable)
    ensures ConfigError(dirs, threshold, url, token, devices).None? <==>
      DirectoriesError(dirs, devices).None? && ThresholdLimit(threshold).Ok? && Truthy(url) && Truthy(token)
  {
  }

  /** Under the stated rule, a configuration passes when the Gotify parts are both set or both empty. */
  lemma IntendedConfigAccepted(dirs: Option<seq<string>>, threshold: Value, url: Value, token: Value, devices: DeviceTable)
    ensures IntendedConfigError(dirs, threshold, url, token, devices).None? <==>
      DirectoriesError(dirs, devices).None? && ThresholdLimit(threshold).Ok? && Truthy(url) == Truthy(token)
  {
  }

  /**
    What the map holds after the chain: nothing changes when the directories fail; only `dirs` is
    recorded when the threshold fails; otherwise all four values are, whether or not the Gotify check
    then raises.  An accepted configuration has a positive limit and both Gotify parts as read.
  */
  lemma ConfigAfterRecords(config: map<string, Value>, dirs: Option<seq<string>>, devices: DeviceTable)
    ensures var after := ConfigAfter(config, dirs, devices);
      var threshold := Lookup(config, "ThresholdLimit");
      && (DirectoriesError(dirs, devices).Some? ==> after == config)
      && (DirectoriesError(dirs, devices).None? ==> after["dirs"] == StrList(dirs.value))
      && (DirectoriesError(dirs, devices).None? && ThresholdLimit(threshold).Err? ==> after == config["dirs" := StrList(dirs.value)])
      && (ConfigError(dirs, threshold, Lookup(config, "GotifyURL"), Lookup(config, "GotifyToken"), devices).None? ==>
            && after.Keys == config.Keys + {"dirs", "threshold_limit", "gotify_url", "gotify_token"}
            && after["threshold_limit"].Int? && after["threshold_limit"].n >= 1
            && after["gotify_url"] == Lookup(config, "GotifyURL") && after["gotify_token"] == Lookup(config, "GotifyToken"))
  {
    var threshold := Lookup(config, "ThresholdLimit");
    if DirectoriesError(dirs, devices).None? && ThresholdLimit(threshold).Ok? {
      ThresholdAccepted(threshold);
    }
  }

  /** The program's chain and the stated rule disagree only on a valid file that sets neither Gotify part. */
  lemma ConfigChainsDiffer(dirs: Option<seq<string>>, threshold: Value, url: Value, token: Value, devices: DeviceTable)
    ensures ConfigError(dirs, threshold, url, token, devices) != IntendedConfigError(dirs, threshold, url, token, devices) <==>
      DirectoriesError(dirs, devices).None? && ThresholdLimit(threshold).Ok? && !Truthy(url) && !Truthy(token)
  {
  }

  // ----- parse diagnostics -----

  /** A line of `handle_parsing_error`'s report. */
  datatype Diagnostic =
    | TrailingWhitespace(lineNumber: nat)  // `Line n: Trailing whitespace after line continuation character`
    | NoEqualSign(lineNumber: nat)         // `Line n: No equal sign or section header found ...`

  /** A line that is neither blank, a `;` comment, an assignment nor a section header. */
  predicate Unexplained(line: string) {
    var stripped := Strip(line);
    !StartsWith(stripped, ";") && stripped != "" && !Contains(line, "=") && !Contains(line, "[")
  }

  /** What the report says about one line, numbered `lineNumber`. */
  function LineReport(line: string, lineNumber: nat): seq<Diagnostic> {
    if EndsWith(Strip(line), "\\") && !EndsWith(RStrip(line), "\\") then [TrailingWhitespace(lineNumber)]
    else if Unexplained(line) then [NoEqualSign(lineNumber)]
    else []
  }

  /** The per-line reports for `lines`, the first numbered `first`. */
  function Reports(lines: seq<string>, first: nat): (r: seq<seq<Diagnostic>>)
    ensures |r| == |lines|
  {
    if lines == [] then []
    else Reports(lines[..|lines| - 1], first) + [LineReport(lines[|lines| - 1], first + |lines| - 1)]
  }

  lemma {:induction false} ReportsAt(lines: seq<string>, first: nat, k: nat)
    requires k < |lines|
    ensures Reports(lines, first)[k] == LineReport(lines[k], first + k)
  {
    var n := |lines| - 1;
    var front := Reports(lines[..n], first);
    var last := LineReport(lines[n], first + n);
    assert Reports(lines, first) == front + [last];
    if k < n {
      ReportsAt(lines[..n], first, k);
      assert lines[..n][k] == lines[k];
      assert (front + [last])[k] == front[k];
    } else {
      assert k == n;
      assert LineReport(lines[k], first + k) == last;
    }
  }

  /** The reports one after another. */
  function Flatten(parts: seq<seq<Diagnostic>>): seq<Diagnostic> {
    if parts == [] then [] else Flatten(parts[..|parts| - 1]) + parts[|parts| - 1]
  }

  /** The report for `lines`, the first numbered `first`. */
  function Diagnostics(lines: seq<string>, first: nat): seq<Diagnostic> {
    Flatten(Reports(lines, first))
  }

  /** The report for one more line is the report so far followed by that line's messages. */
  lemma ReportsSnoc(lines: seq<string>, first: nat, i: nat, lineNumber: nat, before: seq<Diagnostic>, logged: seq<Diagnostic>)
    requires i < |lines| && lineNumber == first + i
    requires before == Flatten(Reports(lines[..i], first)) && logged == LineReport(lines[i], lineNumber)
    ensures before + logged == Flatten(Reports(lines[..i + 1], first))
  {
    assert lines[..i + 1][..i] == lines[..i];
  }

  /**
    The messages `handle_parsing_error` logs for one line: the missing-equal-sign message exactly
    when the line is unexplained, and nothing else, since the trailing-whitespace test never holds.
  */
  method ReportLine(line: string, lineNumber: nat) returns (logged: seq<Diagnostic>)
    ensures logged == if Unexplained(line) then [NoEqualSign(lineNumber)] else []
  {
    StripKeepsEnd(line);
    logged := [];
    if EndsWith(Strip(line), "\\") && !EndsWith(RStrip(line), "\\") {
      assert false;
    } else if !StartsWith(Strip(line), ";") && Strip(line) != "" && !Contains(line, "=") && !Contains(line, "[") {
      logged := logged + [NoEqualSign(lineNumber)];
    }
  }

  /** `handle_parsing_error` over the lines of the file. */
  method HandleParsingError(lines: seq<string>) returns (report: seq<Diagnostic>)
    ensures report == Diagnostics(lines, 1)
  {
    report := [];
    var lineNumber := 1;
    var i := 0;
    while i < |lines|
      invariant 0 <= i <= |lines| && lineNumber == i + 1
      invariant report == Flatten(Reports(lines[..i], 1))
    {
      var logged := ReportLine(lines[i], lineNumber);
      LineReportExact(lines[i], lineNumber);
      ReportsSnoc(lines, 1, i, lineNumber, report, logged);
      report := report + logged;
      lineNumber := lineNumber + 1;
      i := i + 1;
    }
    assert lines[..i] == lines;
  }

  /** Stripping the front never changes how a line ends, so the trailing-whitespace test never holds. */
  lemma StripKeepsEnd(line: string)
    ensures EndsWith(Strip(line), "\\") <==> EndsWith(RStrip(line), "\\")
  {
    var r := RStrip(line);
    var st := LStrip(r);
    RStripSpec(line);
    LStripSpec(r);
    if |r| > 0 {
      assert !IsSpace(r[|r| - 1]);
      assert |st| > 0;
      assert st[|st| - 1] == r[|r| - 1];
    }
  }

  /** Each line is reported only when it is unexplained, and then as a missing equal sign. */
  lemma LineReportExact(line: string, lineNumber: nat)
    ensures LineReport(line, lineNumber) == if Unexplained(line) then [NoEqualSign(lineNumber)] else []
  {
    StripKeepsEnd(line);
  }

  /** Part `i` flags, if anything, line `first + i` for a missing equal sign. */
  predicate WellNumbered(parts: seq<seq<Diagnostic>>, first: nat) {
    forall i :: 0 <= i < |parts| ==> |parts[i]| <= 1 && forall d :: d in parts[i] ==> d == NoEqualSign(first + i)
  }

  lemma ReportsWellNumbered(lines: seq<string>, first: nat)
    ensures WellNumbered(Reports(lines, first), first)
  {
    var parts := Reports(lines, first);
    forall i | 0 <= i < |parts|
      ensures |parts[i]| <= 1 && forall d :: d in parts[i] ==> d == NoEqualSign(first + i)
    {
      ReportsAt(lines, first, i);
      LineReportExact(lines[i], first + i);
    }
  }

  lemma {:induction false} FlattenNumbered(parts: seq<seq<Diagnostic>>, first: nat)
    requires WellNumbered(parts, first)
    ensures forall d :: d in Flatten(parts) ==> d.NoEqualSign? && first <= d.lineNumber < first + |parts|
  {
    if parts != [] {
      var n := |parts| - 1;
      assert WellNumbered(parts[..n], first);
      FlattenNumbered(parts[..n], first);
    }
  }

  lemma {:induction false} FlattenLocal(parts: seq<seq<Diagnostic>>, first: nat, k: nat)
    requires WellNumbered(parts, first) && k < |parts|
    ensures NoEqualSign(first + k) in Flatten(parts) <==> NoEqualSign(first + k) in parts[k]
  {
    var n := |parts| - 1;
    assert WellNumbered(parts[..n], first);
    if k < n {
      FlattenLocal(parts[..n], first, k);
      assert parts[..n][k] == parts[k];
    } else {
      FlattenNumbered(parts[..n], first);
    }
  }

  lemma {:induction false} FlattenOrdered(parts: seq<seq<Diagnostic>>, first: nat)
    requires WellNumbered(parts, first)
    ensures forall a, b :: 0 <= a < b < |Flatten(parts)| ==> Flatten(parts)[a].lineNumber < Flatten(parts)[b].lineNumber
  {
    if parts != [] {
      var n := |parts| - 1;
      assert WellNumbered(parts[..n], first);
      FlattenOrdered(parts[..n], first);
      FlattenNumbered(parts[..n], first);
      var front := Flatten(parts[..n]);
      var all := Flatten(parts);
      forall a, b | 0 <= a < b < |all| ensures all[a].lineNumber < all[b].lineNumber {
        if b >= |front| {
          assert |all| <= |front| + 1;
          assert all[a] in front;
          assert all[b] in parts[n];
        } else {
          assert all[a] == front[a] && all[b] == front[b];
        }
      }
    }
  }

  /** Every diagnostic is a missing equal sign numbered within the lines of the file. */
  lemma DiagnosticsNumbered(lines: seq<string>, first: nat)
    ensures forall d :: d in Diagnostics(lines, first) ==> d.NoEqualSign? && first <= d.lineNumber < first + |lines|
  {
    ReportsWellNumbered(lines, first);
    FlattenNumbered(Reports(lines, first), first);
  }

  /** The report flags line `first + k` exactly when that line is unexplained. */
  lemma DiagnosticsFlagged(lines: seq<string>, first: nat, k: nat)
    requires k < |lines|
    ensures NoEqualSign(first + k) in Diagnostics(lines, first) <==> Unexplained(lines[k])
  {
    ReportsWellNumbered(lines, first);
    FlattenLocal(Reports(lines, first), first, k);
    ReportsAt(lines, first, k);
    LineReportExact(lines[k], first + k);
  }

  /** The report lists the flagged lines in file order. */
  lemma DiagnosticsOrdered(lines: seq<string>, first: nat)
    ensures forall a, b :: 0 <= a < b < |Diagnostics(lines, first)| ==>
      Diagnostics(lines, first)[a].lineNumber < Diagnostics(lines, first)[b].lineNumber
  {
    ReportsWellNumbered(lines, first);
    FlattenOrdered(Reports(lines, first), first);
  }
}
