# Disk Usage Monitor, modelled in Dafny

The Disk Usage Monitor watches a few directories that share one disk. When the disk's free space
falls below a threshold (given in GiB), it picks the oldest files and subdirectories in those
directories until their total size covers the shortfall, describes each one in a line such as
`Movies: film.mkv, Size: 4.20 GiB, Modified: 2023-01-01 10:00:00`, deletes the described entries,
and optionally sends a Gotify notification. A dry run only lists what would go.

This project models the core of the monitor and proves what it promises.

- `directory_handler.dfy` covers the inventory. Each scan of a watched directory gives one record
  per immediate child that is a file or a directory. A directory's size comes from the `os.walk`
  running total over its whole subtree (`GatherFilesData`, `WalkTotal`).
- `stable_sort.dfy` covers `sorted(..., key=mtime)`. It is an insertion sort proved ordered, a
  permutation and stable, and proved to be the only stable ordering.
- `disk_analyzer.dfy` covers eviction planning and deletion.
  - Planning: `gib_to_bytes`, the label scan of `format_items`, and the two loops of `analyze`.
    The plan is specified as the greedy prefix of the sorted records (`Plan`, `GreedyStop`).
  - Deletion: descriptors are parsed back into a label and a name, and `root/name` is resolved as
    `os.path.join` does. `delete_files` runs as a method on a `Disk` object whose listing it
    changes, and is proved against the function `DeleteAll`.
- `config_loader.dfy` covers `ConfigLoader`.
  - The validators are methods of a `Loader` class that records accepted values in its
    `config` map.
  - The Gotify checks cover both revisions of the program.
  - `handle_parsing_error` is modelled as a loop that yields line-numbered diagnostics.
- `program.dfy` covers `main`. It models the label of each directory, the `dict(zip(dirs, labels))`
  mapping and the exit status. `MainOutcome` is the specification and `Run` is the method proved
  against it.
- `text.dfy` and `paths.dfy` hold the parts of `str` and `os.path` the core uses: `find`/`in`,
  `split`, `join`, `strip`, `os.path.join`, `basename` and POSIX `normpath`.
- `wrappers.dfy` holds `Option`, `Result` and the Python exceptions that matter.

The operating system is a value. A `Listing` maps each existing directory to its scan entries, a
`Node` tree gives sizes and modification times, and a `DeviceTable` gives device ids. The free space
of the mount point is a number. The rendered size-and-time tail of a descriptor is a function
parameter `stats`. The only assumption about it is that its output begins with `", Size: "`.

`src/dum.py` is the single-file revision of the same program. Most of it repeats the split modules
line for line, so one Dafny member models both copies. The mapping is:
- `src/dum.py:55-83` is `gather_files_data`;
- `src/dum.py:86-193` is `DiskAnalyzer`;
- `src/dum.py:234-257` and `283-295` are the directory and threshold validators and the parse
  diagnostics;
- `src/dum.py:356-415` is `main`.

Only `src/dum.py` has `_validate_gotify_url`, `_validate_gotify_token`, `validate_config` and
`validate_gotify_config` (`src/dum.py:225-281`).

Where the code and its design notes differ, the model follows the code:
- `_validate_gotify` never raises. A URL without a token (or the reverse) is silently treated as
  "not configured".
- In `delete_files` the split of a descriptor happens outside the `try`. A descriptor without
  `": "` therefore raises `IndexError`, which ends the whole batch, and `main` returns 1.
- `src/main.py` calls `send_notification(processed_items, gotify_url, gotify_token)`, but the
  `send_notification` of `src/notify.py` takes one parameter. With both Gotify settings set, the
  call raises `TypeError` after the deletion, nothing is sent, and `main` returns 1 (see Findings).
  The notifier of `src/dum.py` takes the URL and token, and raises only when `requests.post` does;
  `main`'s generic handler turns that into status 1.
- The label scan of `format_items` tests whether a watched directory is a substring of the path,
  not a prefix of it. `DescribedChildIsRemoved` therefore requires that the scan picks the right
  root; it does not prove that it always does.

## Model

| member | source | states |
|---|---|---|
| DiskAnalyzer.GibToBytesWhole | src/disk_analyzer.py:20-26 | the threshold in bytes is a whole number of GiB and converts back to the configured GiB exactly |
| DiskAnalyzer.NewAnalyzer | src/disk_analyzer.py:13-18 | the constructed analyzer keeps the roots, free space and mapping, and stores the threshold as whole GiB equal to the argument |
| DiskAnalyzer.FirstMatch | src/disk_analyzer.py:50-54 | the chosen index is the first mapping entry whose directory occurs in the path; with none, no entry occurs in it |
| DiskAnalyzer.LabelAt | src/disk_analyzer.py:50-54 | when the scan stops at index i (or runs off the end), the label is that entry's label (or `No_label`) |
| DiskAnalyzer.FormatItems | src/disk_analyzer.py:46-59 | the loop yields the descriptor `Describe`: the label of the first matching root, then the last segment of the normalised path, then the rendered tail |
| DiskAnalyzer.CollectItems | src/disk_analyzer.py:71-74 | the first loop of `analyze` equals `Collect`: every root's records in root order, or failure at a root that cannot be scanned |
| DiskAnalyzer.CollectFails | src/disk_analyzer.py:71-74 | collection fails exactly when some watched root is missing |
| DiskAnalyzer.CollectMembers | src/disk_analyzer.py:71-74 | a record is collected exactly when it is the record of a file or directory child of some watched root |
| DiskAnalyzer.SizeSumSorted | src/disk_analyzer.py:76 | sorting does not change the total size of the records |
| DiskAnalyzer.GreedyCount | src/disk_analyzer.py:77-87 | the number of records taken is a greedy stopping point: every shorter prefix is below the deficit, and the taken prefix reaches it unless every record was taken |
| DiskAnalyzer.GreedyStopAt | src/disk_analyzer.py:85-86 | because sizes are non-negative, checking the running total only at the last record taken is enough |
| DiskAnalyzer.GreedyStopUnique | src/disk_analyzer.py:80-87 | there is only one greedy stopping point |
| DiskAnalyzer.Plan | src/disk_analyzer.py:61-87 | with enough free space the plan is empty; the only error is `FileNotFoundError` from an unscannable root |
| DiskAnalyzer.PlanIsGreedyPrefix | src/disk_analyzer.py:76-87 | when space is short, the plan is a prefix of the stably sorted records, cut at the greedy stopping point |
| DiskAnalyzer.PlanTakesAllWhenShort | src/disk_analyzer.py:80-87 | if all records together are below the deficit, every record is planned, oldest first |
| DiskAnalyzer.PlanNonEmpty | src/disk_analyzer.py:80-87 | when space is short and a record exists, at least one is planned, because a record is appended before the stop test |
| DiskAnalyzer.SelectOldest | src/disk_analyzer.py:77-87 | the second loop takes a greedy prefix of the sorted records and returns their descriptors in order |
| DiskAnalyzer.Analyze | src/disk_analyzer.py:61-87 | `analyze` returns the empty list when space suffices, the descriptors of the plan otherwise, and raises exactly when the plan fails |
| DiskAnalyzer.ParseDescriptor | src/disk_analyzer.py:97-99 | parsing fails (the `IndexError`) exactly when the descriptor holds no `": "` |
| DiskAnalyzer.ParsedParts | src/disk_analyzer.py:97-99 | the parsed label is the text before the first `": "`; the parsed name is the text right after that separator, up to the next `", "`, the next `": "` or the end, so it never holds `", "` |
| DiskAnalyzer.ParseDescriptorRoundTrip | src/disk_analyzer.py:97-99 | parsing `label: name, Size: ...` gives back the label and name when the label holds no `": "` and the name neither `": "` nor `", "` |
| DiskAnalyzer.ParseDescribe | src/disk_analyzer.py:58 | parsing what `format_items` wrote gives back the label it chose and the last path segment |
| DiskAnalyzer.Without | src/disk_analyzer.py:105-112 | removing `root/name` leaves exactly the other entries of that directory |
| DiskAnalyzer.TryRoots | src/disk_analyzer.py:100-117 | the inner loop over roots changes the disk and logs exactly as `Attempt` says, resolving `root/name` as `os.path.join` does: `""` and `"."` name the root itself and `".."` its parent; `rmtree` removes `root/` whole, but only empties `root/.` or `root/..` and then raises, which is logged as a failed deletion |
| DiskAnalyzer.DeleteFiles | src/disk_analyzer.py:96-117 | the outer loop leaves the disk and log that `DeleteAll` gives, and raises `IndexError` exactly when the batch aborts; each descriptor acts as `Attempt` says, so a name `"."` or `".."` empties the root or its parent, keeps it, and logs a failed deletion |
| DiskAnalyzer.DeleteAllAfterAbort | src/disk_analyzer.py:96-99 | once a descriptor without `": "` is reached, the later descriptors change nothing |
| DiskAnalyzer.DeleteAllAborts | src/disk_analyzer.py:96-117 | the batch ends early exactly when some descriptor lacks `": "`; a failed removal never ends it |
| DiskAnalyzer.DeleteAllConcat | src/disk_analyzer.py:96-117 | failures are per descriptor: after a prefix that did not abort, the rest runs as a batch of its own on the file system the prefix left |
| DiskAnalyzer.AttemptFrame | src/disk_analyzer.py:101-117 | one descriptor changes only roots carrying the parsed label, or with the name `".."` the parent of one, and only removes entries or directories; for a name other than `""`, `"."` and `".."` every watched directory stays |
| DiskAnalyzer.RemoveFrame | src/disk_analyzer.py:105-112 | one removal changes only the root, or with `".."` its parent, and only removes entries or directories |
| DiskAnalyzer.AttemptRemovesTrees | src/disk_analyzer.py:101-117 | a watched directory disappears only when the name is `""`, `"."` or `".."` and the directory lies in the tree of a labelled root or its parent |
| DiskAnalyzer.AttemptResolves | src/disk_analyzer.py:101-114 | a descriptor ends in a removal or a failed removal exactly when `root/name` is a file or directory for some root with the parsed label; for `""`, `"."` and `".."` that is whenever the root exists |
| DiskAnalyzer.DeleteAllFrame | src/disk_analyzer.py:96-117 | a batch only removes directories and entries, and changes only directories of the mapping or their parents; it keeps every directory unless a descriptor parses to the name `""`, `"."` or `".."` |
| DiskAnalyzer.AttemptFirstLabelled | src/disk_analyzer.py:101-117 | the first root with the label for which `root/name` exists is the one acted on, and the loop stops there: its entry is removed and `Deleted` logged; for `""` the whole root goes; for `"."` and `".."` the root or its parent is emptied and a failed deletion logged; a failing removal changes nothing and is logged as failed |
| DiskAnalyzer.DescribedChildIsRemoved | src/disk_analyzer.py:96-112 | the descriptor written for a child of a uniquely labelled root leads `delete_files` back to that child and removes exactly it |
| DiskAnalyzer.CommaNameParsesEmpty | src/disk_analyzer.py:97-99 | a descriptor whose name begins with `", "` parses back to its label and the empty name |
| DiskAnalyzer.EmptyNameRemovesRoot | src/disk_analyzer.py:101-112 | with the empty name, the first labelled root that exists is removed whole, every watched directory below it with it |
| DiskAnalyzer.DotNameEmptiesTree | src/disk_analyzer.py:101-117 | with `"."` or `".."`, the first labelled root or its parent loses everything below it but stays, with no entries, and the descriptor is logged as failed, because `os.rmdir` refuses a path ending in `.` or `..` |
| DiskAnalyzer.CommaNamedChildRemovesRoot | src/disk_analyzer.py:96-112 | the descriptor `format_items` writes for a child called `", x"` makes `delete_files` remove the whole watched root instead of that child |
| DiskAnalyzer.IntendedAttemptFrame | src/disk_analyzer.py:101-112 | the corrected attempt, which only ever removes an entry of a root, keeps every watched directory, changes only roots with the parsed label, and only removes entries |
| DiskAnalyzer.IntendedAttemptAgrees | src/disk_analyzer.py:101-112 | for every name other than `""`, `"."` and `".."` the corrected attempt is the attempt as written |
| DirectoryHandler.WalkSize | src/directory_handler.py:24-31 | summing what `os.walk` lists beneath a directory gives the bytes of every file at any depth below it |
| DirectoryHandler.WalkTotal | src/directory_handler.py:27-31 | the nested running-total loops compute the bytes of every file at any depth below the directory |
| DirectoryHandler.GatherFilesData | src/directory_handler.py:19-33 | the scan loop yields `Inventory`: a file's own size and mtime, or a directory's subtree size with its own mtime |
| DirectoryHandler.InventoryConcat | src/directory_handler.py:21-32 | records follow scan order |
| DirectoryHandler.InventoryMembers | src/directory_handler.py:21-32 | a record exists exactly for each immediate child that is a file or directory; deeper descendants and other entries yield none |
| DirectoryHandler.InventoryCount | src/directory_handler.py:21-24 | there are as many records as file or directory children |
| StableSort.SortIsSorted | src/disk_analyzer.py:76 | the sorted records are ascending by mtime |
| StableSort.SortIsPermutation | src/disk_analyzer.py:76 | sorting neither loses nor invents records |
| StableSort.SortIsStable | src/disk_analyzer.py:76 | records with equal mtime keep their collection order |
| StableSort.StableSortUnique | src/disk_analyzer.py:76 | two ordered sequences with the same records of each mtime, in the same relative order, are equal |
| StableSort.SortIsTheStableSort | src/disk_analyzer.py:76 | any stable sort by mtime, Python's included, returns exactly `SortByMtime` |
| ConfigLoader.DirectoriesAccepted | src/config_loader.py:58-66 | the directories pass exactly when there is at least one, all exist, and all share one device |
| ConfigLoader.Loader.ValidateDirectories | src/config_loader.py:56-68 | raises as `DirectoriesError` says; on success it records the list under `dirs`, on failure it changes nothing |
| ConfigLoader.ThresholdAccepted | src/config_loader.py:70-79 | the threshold passes exactly for strings of decimal digits whose value is at least 1, so `None` and non-digit strings fail, and `"0"` raises `ValueError`; the stored limit is at least 1 |
| ConfigLoader.ThresholdOfDecimal | src/config_loader.py:72-79 | every positive number written in decimal is accepted and stored as itself |
| ConfigLoader.Loader.ValidateThresholdLimit | src/config_loader.py:70-79 | raises what `ThresholdLimit` gives; on success it stores the integer under `threshold_limit`, on failure it changes nothing |
| ConfigLoader.ValidateGotify | src/config_loader.py:81-93 | never raises, and returns true exactly when both URL and token are truthy |
| ConfigLoader.GetGotifyBothOrNeither | src/config_loader.py:48-54 | `get_gotify` returns both configured parts unchanged, or `(None, None)`, never half a pair |
| ConfigLoader.Normalised | src/dum.py:259-271 | an unset or empty Gotify setting is stored as `None`; a set one is stored unchanged |
| ConfigLoader.GotifyConfigAsWritten | src/dum.py:273-281 | the check as written passes exactly when both URL and token are set, and otherwise raises `ValueError` |
| ConfigLoader.Loader.ValidateGotifyUrl | src/dum.py:259-264 | records the normalised URL under `gotify_url` and nothing else |
| ConfigLoader.Loader.ValidateGotifyToken | src/dum.py:266-271 | records the normalised token under `gotify_token` and nothing else |
| ConfigLoader.GotifyPairing | src/dum.py:273-281 | the corrected check passes exactly when URL and token are both set or both empty, and otherwise raises `ValueError` |
| ConfigLoader.GotifyConfigRejectsNeither | src/dum.py:273-281 | the check as written rejects a configuration with neither part, which the corrected rule accepts |
| ConfigLoader.GotifyChecksAgree | src/dum.py:273-281 | the written and corrected checks differ only when neither part is set |
| ConfigLoader.Loader.ValidateConfig | src/dum.py:218-229 | the validators run in key order on the values `config.get` reads for their keys, the first exception stops the chain, and `validate_gotify_config` as written closes it; afterwards the map holds exactly what each validator that ran to its end recorded |
| ConfigLoader.ConfigAccepted | src/dum.py:218-229 | as the program runs, a configuration passes exactly when the directories and the threshold are acceptable and both Gotify parts are set |
| ConfigLoader.IntendedConfigAccepted | src/dum.py:273-281 | under the corrected Gotify rule, a configuration passes exactly when the directories and the threshold are acceptable and the Gotify parts are both set or both empty |
| ConfigLoader.ConfigChainsDiffer | src/dum.py:273-281 | the chain as written and the corrected chain differ exactly when the directories and threshold pass and neither Gotify part is set |
| ConfigLoader.ConfigAfterRecords | src/dum.py:225-271 | nothing is recorded when the directories fail, only `dirs` when the threshold fails; an accepted configuration records `dirs`, a limit of at least 1 and both Gotify parts as read |
| ConfigLoader.ReportLine | src/config_loader.py:100-106 | one line gets the missing-equal-sign message exactly when it is non-blank, not a `;` comment, and holds neither `=` nor `[`, and nothing otherwise; the trailing-whitespace branch never fires, because `strip()` and `rstrip()` keep the same last character |
| ConfigLoader.HandleParsingError | src/config_loader.py:95-107 | the loop logs the diagnostics of every line in file order, numbering from 1 |
| ConfigLoader.StripKeepsEnd | src/config_loader.py:100 | `strip()` ends in a backslash exactly when `rstrip()` does, so the trailing-whitespace message is never logged |
| ConfigLoader.LineReportExact | src/config_loader.py:100-106 | a line gets the missing-equal-sign message exactly when it is non-blank, not a `;` comment, and holds neither `=` nor `[`; otherwise it gets nothing |
| ConfigLoader.DiagnosticsNumbered | src/config_loader.py:98-107 | every diagnostic is a missing equal sign numbered within the file's lines |
| ConfigLoader.DiagnosticsFlagged | src/config_loader.py:102-107 | line `k + 1` is flagged exactly when that line is unexplained |
| ConfigLoader.DiagnosticsOrdered | src/config_loader.py:98-107 | diagnostics come in strictly increasing line order |
| Program.Capitalize | src/main.py:34 | the first character is upper-cased, the rest lower-cased, and the length is kept |
| Program.CapitalizeIdempotent | src/main.py:34 | capitalising a label again changes nothing |
| Program.LabelOfNamedDirectory | src/main.py:33-36 | a directory `parent/name`, with any number of trailing separators, is labelled `name` capitalised |
| Program.LabelIgnoresTrailingSeparators | src/main.py:33-36 | `"/data/movies/"` and `"/data/movies"` get the same label |
| Program.DictOfEntries | src/main.py:37 | `dict(pairs)` holds each key once, holds only given pairs, and has exactly the given keys |
| Program.DictOfDistinct | src/main.py:37 | with distinct keys, `dict(pairs)` keeps every pair in order |
| Program.DirLabelsLookup | src/main.py:33-37 | the mapping holds each configured directory once, with its own label, and nothing else |
| Program.DirLabelsPositional | src/main.py:37 | with no directory listed twice, entry i is directory i with the label at index i |
| Program.SetupErrorsExitOne | src/main.py:23-42 | a configuration error, an empty or mixed directory list, or an unreadable mount point gives status 1 and touches nothing |
| Program.MissingKeyEscapes | src/main.py:26-29 | a missing key escapes `main` as `KeyError`, because setup handles only `ValueError` and `FileNotFoundError` |
| Program.StatusValues | src/main.py:44-73 | once configured, `main` returns instead of raising, with status 0, 1, 2 or none |
| Program.NoStatusExactlyOnDryRun | src/main.py:60-65 | no status is returned exactly for an uninterrupted dry run with a non-empty plan |
| Program.InterruptExitsTwo | src/main.py:71-73 | a keyboard interrupt during analysis gives status 2 and deletes nothing |
| Program.EnoughSpaceExitsZero | src/main.py:48-50 | with enough free space, the run returns 0, deletes nothing and sends nothing |
| Program.DryRunChangesNothing | src/main.py:60-65 | a dry run changes no file and sends no notification |
| Program.DeletingRun | src/main.py:52-59 | the whole plan is deleted in one batch; a notification is sent exactly when both Gotify settings are set, the batch did not abort and the notifier call does not raise; the status is 0 unless the batch aborted or that call raised, and then 1 |
| Program.SplitNotifierExitsOne | src/main.py:55-59 | with `src/main.py`'s notifier, a deleting run with both Gotify settings set sends nothing and returns 1, whether or not the batch went through |
| Program.SingleFileNotifierSends | src/dum.py:396-401 | with `src/dum.py`'s notifier, such a run sends the notification unless the batch aborted or the request raised, and returns 0 exactly when it was sent |
| Program.Run | src/main.py:14-73 | `main` ends, notifies and leaves the disk exactly as `MainOutcome` says |
| Paths.NormpathKeepsName | src/disk_analyzer.py:47-48 | the last segment of the normalised `root/name` is `name` for a plain name |
| Paths.BasenameAfterSep | src/main.py:34 | the base name of `a/b` is `b` when `b` holds no separator |
| Paths.Join | src/disk_analyzer.py:103 | `os.path.join(a, b)` ends with `b`; an absolute `b` replaces `a`; otherwise the result is `a`, then a separator unless `a` is empty or already ends in one, then `b` |
| Paths.RStripSep | src/main.py:34 | `rstrip(os.sep)` keeps a prefix that does not end in a separator and removes only separators after it |
| Text.Find | src/disk_analyzer.py:52 | the result is the first occurrence, or there is none |
| Text.SplitSingle | src/disk_analyzer.py:97-98 | `split` gives one field exactly when the separator does not occur |
| Text.SplitThenJoin | src/disk_analyzer.py:97 | joining the fields of a split gives back the original string |
| Text.SplitFieldsAvoidSep | src/disk_analyzer.py:97-99 | no field of a split holds the separator |
| Text.RStripSpec | src/config_loader.py:100 | `rstrip()` removes a run of trailing whitespace and nothing else |
| Text.LStripSpec | src/config_loader.py:100 | `lstrip()` removes a run of leading whitespace and nothing else |

## Left out

- The free space of the mount point (`os.statvfs`, `os.path.commonpath`) and the clock are not modelled: the free space is an integer input, and the model states only when `commonpath` raises (an empty list, or absolute and relative paths mixed).
- `bytes_to_gib`, the `:0.2f` formatting and `datetime.fromtimestamp(...).strftime` are left out: they use floating point and the local time zone. A descriptor's tail is a parameter known to begin with `", Size: "`. Modification times are integers.
- The file system is a value: `os.scandir`, `os.walk`, `os.stat`, `os.remove` and `shutil.rmtree` become `Listing`, `Node` and `DeviceTable`. Sockets, devices and symbolic links are `Other` entries: they get no record and add no bytes. Roots nested inside one another are not modelled as sharing entries. A removal either succeeds completely or raises (`failing`); a partly completed `rmtree` is not modelled.
- `format_items` matches a root as a substring of the path. The end-to-end lemma `DescribedChildIsRemoved` assumes that this picks the intended root, that labels are unique, and that names within a directory are unique.
- `str.isdigit` and `capitalize` are modelled on ASCII; Unicode digits and case mappings are not. `strip`, `lstrip` and `rstrip` use the whole whitespace set of `str.isspace`.
- TOML parsing, `self.parsed_config.get('DEFAULT', key)` (`get_directories`, `get_threshold_limit`, `get_gotify`), `load_config`'s file checks and `sys.exit` are left out: they are library parsing and process control. The validators receive the parsed values directly.
- ConfigLoader.Loader.ValidateConfig: requires the `Directories` value to be a list of strings or unset, for the reason on the next line.
- A `Directories` value that is not a list and a `ThresholdLimit` that `main` reads as something other than an integer are not modelled. `main` passes the TOML value to `gib_to_bytes` as an integer.
- Logging, `setup_logging`, `send_notification` (HTTP through `requests`), `argparse` and the creation of the configuration directory are left out: they are I/O. The notification is a flag saying whether it was sent, and an input saying whether the call raised.
- DirectoryHandler.WalkTotal: a link or other non-directory entry below a directory counts as 0 bytes. In the source `os.walk` lists it among the file names and `os.stat` follows a link, so a link to a file adds its target's size.
- DirectoryHandler.GatherFilesData: a dangling link below a scanned directory is not modelled. Its `os.stat` raises `FileNotFoundError`, which fails `analyze` and makes `main` return 1; the model gives the entry 0 bytes instead.
- DirectoryHandler.WalkSize: the sum is over regular files only, for the same reason as `WalkTotal`.
- DirectoryHandler.GatherFilesData: a symbolic link directly in a scanned directory gets no record. In the source `is_file()` and `is_dir()` follow the link, so it gets a record with its target's size and modification time, and may later be removed with `os.remove` or fail in `shutil.rmtree`.
- DirectoryHandler.InventoryMembers: "file or directory" means the entry itself, not a link's target; a link to a file or directory, which the source records, is an `Other` entry here and has no record.
- DiskAnalyzer.TryRoots: a name holding `/` is looked up as a single entry of the root, not as a nested or absolute path. The names `format_items` writes never hold `/`.
- `shutil.rmtree` of a root or its parent removes or empties the watched directories whose paths lie below it as text. Other directories inside that tree are not tracked.
- Program.InterruptExitsTwo: a keyboard interrupt is modelled only as arriving during analysis, before any deletion. An interrupt in the middle of a batch is not modelled.
- Program.Run: `interrupted` stands for an event the program cannot see in advance. `notifyFails` says whether the notifier call raises: for `src/main.py` it always does (`NotifyRaises(SplitNotifier, _)`); for `src/dum.py` it does when `requests.post` raises.
- ConfigLoader.HandleParsingError: the lines are given as a sequence, so opening and reading the file is not modelled.

## Findings

The program model (`Attempt`, `TryRoots`, `DeleteFiles`, `ConfigError`, `ValidateConfig`, and `Run` for `src/main.py` with `notifyFails` true) keeps the behaviour as written. The corrected definitions stand beside it, with the intended properties proved about them.

| source | as written | input that shows it | evidently intended | confidence | as-written member | corrected member |
|---|---|---|---|---|---|---|
| src/disk_analyzer.py:97-110 | the name is cut at the first `", "` and joined to the root unchecked, so a name `""`, `"."` or `".."` makes `working_dir` the root or its parent, which `isdir` accepts; `rmtree` removes `root/` whole, and empties `root/.` or `root/..` before its final `rmdir` raises | a file called `", x"` in the root labelled `Movies`: its descriptor `Movies: , x, Size: ...` parses to the name `""` | remove only the entry the descriptor names inside the root, never the root or its parent | not executed | DiskAnalyzer.CommaNamedChildRemovesRoot | DiskAnalyzer.IntendedAttempt |
| src/main.py:55-56 | `send_notification(processed_items, gotify_url, gotify_token)` calls the notifier of `src/notify.py`, which declares one parameter (`src/notify.py:10`), so the call raises `TypeError` after the deletion and `main` returns 1 | a run that deletes with `GotifyURL` and `GotifyToken` both set | send the notification with the configured URL and token, as `src/dum.py:397-398` does, and return 0 | not executed | Program.SplitNotifierExitsOne | Program.SingleFileNotifierSends |
| src/dum.py:273-281 | `validate_gotify_config` raises `ValueError` whenever the URL or the token is unset, so it rejects a file that sets neither | `GotifyURL = ""`, `GotifyToken = ""` | raise only when exactly one of the two is set; the error message and the log line for the empty case both describe that rule | not executed | ConfigLoader.GotifyConfigAsWritten | ConfigLoader.GotifyPairing |
