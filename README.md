# dupetracker, modelled in Dafny

A model of the duplicate-file tracker. The tracker walks a directory tree
depth first. It maps every non-directory entry whose suffix passes an
optional, case-insensitive extension filter into a dictionary from the digest
of the file's content to the list of paths with that digest (`dupe_map`). It
can drop the buckets that hold a single path. The model also covers the
report that lists every digest shared by several paths.

Modules:

- `FileTree` (`file_tree.dfy`): the directory tree being scanned. `Entry` is
  a directory with ordered children or a leaf with path, suffix and content.
  `Files` gives the leaves in the pre-order in which the recursive walk meets
  them.
- `DupeMaps` (`dupe_map.dfy`): the insertion-ordered dictionary as a value.
  `DupeMap(order, buckets)` has the invariant `WellFormed`: the key order
  has no repeats, it names exactly the keys, and no bucket is empty. The
  module also holds appending a path, deleting keys, trimming single-path
  buckets, and the flattened list of all paths.
- `DupeTracker` (`dupe_tracker.dfy`): the filter (`Skips`, with ASCII
  lower-casing), one mapping step (`Step`) and a run of steps (`Fill`), and
  class `Tracker`. Its `dupeMap` field is updated in place by `MapFile`,
  `ScanDir` (recursive over the tree, with a loop over the children) and
  `TrimDupeMap` (collect the single-path keys, then delete them one by one).
  Each method is proved against the functions above. The lemmas prove what a
  scan puts in the map: which bucket each path lands in, in what order, and
  that no path is lost or duplicated.
- `DupeReport` (`dupe_report.dfy`): `PrintDupeReport` builds the report's
  messages in a loop and is proved equal to `ReportLines`. The lemmas state
  the header, the two messages per multi-path bucket, the message count, the
  line structure of the paths message, and that trimming first does not
  change the report.
- `Scenarios` (`scenarios.dfy`): concrete trees, with the map, the trimmed
  map and the report computed for each.

The digest function (`get_file_hash`, a SHA-256 over the file's bytes) is a
parameter `hash: Content -> Digest` fixed when the tracker is built. No
property depends on which function it is, except where a scenario requires
that two given contents have different digests.

## Model

| member | source | states |
|---|---|---|
| FileTree.Files | dupetracker.py:58-62 | the non-directory entries below a list of siblings in the pre-order the recursive walk meets them (a directory child is replaced by the files below it where it stands); every non-directory sibling is among them |
| FileTree.FilesAppend | dupetracker.py:58-62 | the files met when walking sibling lists `a` then `b` are those of `a` followed by those of `b` |
| FileTree.FilesSnoc | dupetracker.py:58-62 | one more child adds the files below it if it is a directory, and the child itself otherwise |
| DupeMaps.Empty | dupetracker.py:21 | the map a new tracker starts with: no keys, no buckets (a definition) |
| DupeMaps.WellFormed | dupetracker.py:21-36 | the invariant of every map the tracker builds: each key is iterated once, the iteration order names exactly the keys, and no bucket is empty, since a key is only created by appending a path (a definition; `DupeMaps.Append`, `DupeMaps.WithoutWellFormed` and `DupeTracker.FillWellFormed` prove it preserved) |
| DupeMaps.Bucket | dupetracker.py:36 | the path list of a key, the empty list for a missing key as the list-creating dictionary gives it (a definition) |
| DupeMaps.Append | dupetracker.py:35-36 | the bucket of `h` becomes the old bucket (empty if absent) with `p` appended at the end; every other bucket is unchanged; the key set grows by `h` only; a new key goes at the end of the iteration order; well-formedness is preserved |
| DupeMaps.FilterOut | dupetracker.py:81-82 | the order after deleting the keys of `s` is no longer than before and holds no key of `s` |
| DupeMaps.FilterOutCons | dupetracker.py:81-82 | deleting from `h :: rest` keeps `h` in front unless it is deleted, then the survivors of `rest` |
| DupeMaps.FilterOutHas | dupetracker.py:81-82 | a key survives deletion exactly when it was in the order and is not deleted |
| DupeMaps.FilterOutKeeps | dupetracker.py:81-82 | for every key at once: it survives exactly when it was in the order and is not deleted |
| DupeMaps.FilterOutAppend | dupetracker.py:81-82 | deleting from `a + b` gives the survivors of `a` followed by those of `b`, so the survivors keep their relative order |
| DupeMaps.FilterOutOne | dupetracker.py:81-82 | a single key survives exactly when it is not deleted |
| DupeMaps.Without | dupetracker.py:81-82 | deleting the keys of `s` leaves exactly the other keys, each with its old path list, and the order names exactly the surviving keys |
| DupeMaps.FilterOutDistinct | dupetracker.py:81-82 | deleting keys keeps the iteration order free of repeats |
| DupeMaps.FilterOutTwice | dupetracker.py:81-82 | deleting `s` then `t` from the order equals deleting `s + t` |
| DupeMaps.FilterOutNone | dupetracker.py:81-82 | deleting keys that are absent leaves the order unchanged |
| DupeMaps.WithoutWellFormed | dupetracker.py:81-82 | deleting any set of keys keeps the map well formed |
| DupeMaps.WithoutTwice | dupetracker.py:81-82 | deleting keys one batch after another equals deleting them all at once |
| DupeMaps.WithoutNothing | dupetracker.py:81-82 | deleting no keys changes nothing |
| DupeMaps.Singletons | dupetracker.py:77-79 | the keys whose bucket holds exactly one path (a definition; the loop that collects them is tied to it by `DupeMaps.SingleKeysAreSingletons`) |
| DupeMaps.Trimmed | dupetracker.py:76-82 | after trimming, no key is new and no bucket has exactly one path; every bucket whose length is not 1 survives with the same contents and order; a key stays in the iteration order exactly when its bucket's length is not 1 |
| DupeMaps.TrimmedWellFormed | dupetracker.py:76-82 | trimming keeps the map well formed |
| DupeMaps.SingleKeysHas | dupetracker.py:76-79 | a key is collected by the first loop exactly when it is in the iterated order and its bucket holds one path |
| DupeMaps.SingleKeysAreSingletons | dupetracker.py:76-79 | in a well-formed map, the keys collected over the whole iteration order are exactly the single-path keys |
| DupeMaps.TrimIdempotent | dupetracker.py:76-82 | trimming a trimmed map changes nothing |
| DupeMaps.Flatten | dupetracker.py:36 | the concatenated buckets of the keys of an order, in that order (a definition) |
| DupeMaps.AllPaths | dupetracker.py:36 | every path the map holds, bucket by bucket in iteration order (a definition; `DupeMaps.AppendPaths` and `DupeTracker.FillPaths` are stated against it) |
| DupeMaps.FlattenUpdate | dupetracker.py:36 | appending a path to one bucket listed once in the order adds exactly one occurrence of that path to all paths |
| DupeMaps.AppendPaths | dupetracker.py:36 | in a well-formed map, appending `p` adds exactly `p` to the multiset of all paths |
| DupeMaps.ItemsOf | trackdupes.py:19 | the items of a key order have one pair per key, pair `i` being key `i` with its bucket |
| DupeMaps.Items | trackdupes.py:19 | the (key, paths) pairs in the dictionary's iteration order (a definition) |
| DupeTracker.LowerChar | dupetracker.py:30 | one character lower-cased: `A`-`Z` to `a`-`z`, everything else unchanged (a definition) |
| DupeTracker.Lower | dupetracker.py:30 | a string lower-cased character by character, the `.lower()` of both suffixes (a definition; `DupeTracker.LowerChars` states it) |
| DupeTracker.Skips | dupetracker.py:30 | a file is skipped only under a non-empty filter and a suffix that differs from it once both are lower-cased; a suffix equal to the filter always passes, and one of another length is always skipped |
| DupeTracker.Step | dupetracker.py:25-36 | what mapping one file does to the map: nothing when skipped, otherwise an append of its path under its digest (a definition; `DupeTracker.StepBucket` and `DupeTracker.StepPaths` state its effect) |
| DupeTracker.Fill | dupetracker.py:58-62 | mapping files one after the other, in order; keys are only ever added |
| DupeTracker.FillCons | dupetracker.py:58-62 | mapping `f :: rest` maps `f`, then `rest` |
| DupeTracker.LowerChars | dupetracker.py:30 | lower-casing keeps the length, maps `A`-`Z` to `a`-`z` and leaves every other character alone |
| DupeTracker.NoFilterMapsAll | dupetracker.py:30 | with no suffix, or the empty one, every file is mapped: the step is an append of its path to its digest's bucket |
| DupeTracker.SuffixExamples | dupetracker.py:30-31 | `.TXT` passes the filter `.txt` and the other way round; `.md`, no suffix, and a filter written without its dot (`txt`) are rejected |
| DupeTracker.FillAppend | dupetracker.py:58-62 | mapping `a + b` is mapping `a`, then `b` |
| DupeTracker.FillWellFormed | dupetracker.py:58-62 | mapping any files keeps the map well formed |
| DupeTracker.Digests | dupetracker.py:35 | the digests of a list of files' contents, in order (a definition) |
| DupeTracker.FirstOccurrences | dupetracker.py:36 | the elements of a list not yet seen, in order of first occurrence: the result has no repeats, and each element comes from the list and was not seen before |
| DupeTracker.FirstOccurrencesHas | dupetracker.py:36 | every element of the list that was not seen before is in the result |
| DupeTracker.FirstOccurrencesCons | dupetracker.py:36 | the first occurrences in `h :: rest` are `h`, unless seen, followed by the first occurrences in `rest` with `h` counted as seen |
| DupeTracker.AcceptedDigestsCons | dupetracker.py:30-35 | the digests of the accepted files of `f :: rest` are `f`'s digest, if accepted, followed by those of `rest` |
| DupeTracker.AppendOldKeyOrder | dupetracker.py:36 | appending under an existing key leaves the order and the key set as they were |
| DupeTracker.AppendNewKeyOrder | dupetracker.py:36 | appending under a new key puts the key at the end of the order |
| DupeTracker.StepOrder | dupetracker.py:30-36 | one step followed by the first occurrences of later digests gives the same order as the first occurrences of this file's digest and the later ones |
| DupeTracker.FillOrder | dupetracker.py:58-62 | after a walk, the iteration order is the old order followed by the digests of the accepted files that were not yet keys, each once, in the order their first file was met |
| DupeTracker.FillOrderPrefix | dupetracker.py:58-62 | keys already present keep their place in the iteration order; keys created by the walk all come after them |
| DupeTracker.StepBucket | dupetracker.py:30-36 | one step appends the file's path to the bucket of its digest when the filter accepts it, and changes no other bucket |
| DupeTracker.Accepted | dupetracker.py:30-31 | the files the filter lets through, in walk order (a definition; `DupeTracker.AcceptedHas` states it) |
| DupeTracker.Paths | dupetracker.py:36 | the paths of a list of files, in order (a definition) |
| DupeTracker.PathsWithHash | dupetracker.py:35-36 | the paths of the files whose content has digest `h`, in order (a definition; `DupeTracker.PathsWithHashHas` states it) |
| DupeTracker.AcceptedHashCons | dupetracker.py:30-36 | the paths of accepted files with digest `h` in `f :: fs` are `f`'s path, if `f` is accepted and has digest `h`, followed by those of `fs` |
| DupeTracker.FillBucket | dupetracker.py:58-62 | after mapping `fs`, each bucket is its old contents followed by the paths of the accepted files with that digest, in walk order |
| DupeTracker.AcceptedPathsCons | dupetracker.py:30-31 | the accepted paths of `f :: fs` are `f`'s path, if accepted, followed by those of `fs` |
| DupeTracker.StepPaths | dupetracker.py:30-36 | one step keeps the map well formed and adds to the multiset of all paths exactly the file's path, or nothing when the filter rejects it |
| DupeTracker.FillPaths | dupetracker.py:58-62 | after mapping `fs`, the multiset of all paths is the old one plus the paths of the accepted files: none lost, none duplicated |
| DupeTracker.FillCount | dupetracker.py:58-62 | the number of paths across buckets grows by exactly the number of accepted files |
| DupeTracker.AcceptedHas | dupetracker.py:30-31 | a file is accepted exactly when it is among the files and the filter does not skip it |
| DupeTracker.PathsWithHashHas | dupetracker.py:35-36 | a path is listed under `h` exactly when some file with that path has content with digest `h` |
| DupeTracker.FromEmptyBucket | dupetracker.py:58-62 | from an empty map, `p` lies in the bucket of `h` exactly when an accepted file with path `p` has content with digest `h` |
| DupeTracker.DistinctPathsSameFile | dupetracker.py:58-62 | among files with distinct paths, one path names one file |
| DupeTracker.FromEmptyOneBucket | dupetracker.py:35-36 | when the scanned files have distinct paths, a mapped path lies in exactly one bucket |
| DupeTracker.Tracker.constructor | dupetracker.py:20-23 | a new tracker keeps the given filter and digest function and has an empty, well-formed map |
| DupeTracker.Tracker.MapFile | dupetracker.py:25-36 | a skipped file leaves the map unchanged; otherwise its path is appended to the end of its digest's bucket, which is created if missing; every other bucket is unchanged; the map stays well formed |
| DupeTracker.Tracker.ScanDir | dupetracker.py:58-62 | the map after walking a directory is the old map with every file below it mapped in depth-first pre-order; the map stays well formed |
| DupeTracker.Tracker.SingleHashes | dupetracker.py:76-79 | the collected keys are exactly those whose bucket holds one path, listed in iteration order (the first loop's `SingleKeys` over the whole order) |
| DupeTracker.Tracker.TrimDupeMap | dupetracker.py:76-82 | the new map is the trimmed old map and stays well formed |
| DupeReport.Groups | trackdupes.py:19-21 | the items the report shows: none has a path list of length 1, and there are no more of them than items |
| DupeReport.GroupsCons | trackdupes.py:19-21 | the shown items of `x :: rest` are `x`, unless its path list has length 1, followed by those of `rest` |
| DupeReport.GroupsHas | trackdupes.py:19-21 | an item is shown exactly when it is one of the items and its path list does not have length 1 |
| DupeReport.GroupsAppend | trackdupes.py:19-21 | the shown items of `a + b` are those of `a` followed by those of `b`, so the map's order is kept |
| DupeReport.GroupsOne | trackdupes.py:20-21 | a single item is shown exactly when its path list does not have length 1 |
| DupeReport.Header | trackdupes.py:17 | the report's first message, `The following duplicate files have been found:` (a definition) |
| DupeReport.HashLine | trackdupes.py:22 | the digest message: a newline, then `Hash <digest> is repeated in:` (a definition) |
| DupeReport.Join | trackdupes.py:23 | the strings with the separator between consecutive ones, the empty string for none (a definition of `str.join`) |
| DupeReport.PathsLine | trackdupes.py:23 | the paths message: four spaces, then the paths joined by a newline and four spaces (a definition; `DupeReport.PathsLineSplits` states its shape) |
| DupeReport.ItemLines | trackdupes.py:20-23 | the messages of one item: none for a single path, else the digest message and the paths message (a definition) |
| DupeReport.GroupLines | trackdupes.py:19-23 | the messages of all items in order (a definition; the lemmas below state its length and positions) |
| DupeReport.ReportLines | trackdupes.py:17-23 | the header followed by the messages of all items (a definition) |
| DupeReport.PrintDupeReport | trackdupes.py:13-23 | the messages produced are `ReportLines(items)`: the header, then the two messages of each multi-path item in order |
| DupeReport.GroupLinesAppend | trackdupes.py:19-23 | the messages of `a + b` are those of `a` followed by those of `b` |
| DupeReport.GroupLinesCons | trackdupes.py:19-23 | the messages of `x :: rest` are those of `x` followed by those of `rest` |
| DupeReport.GroupLinesOfGroups | trackdupes.py:20-21 | single-path items contribute no messages |
| DupeReport.GroupLinesLength | trackdupes.py:22-23 | each multi-path item contributes exactly two messages |
| DupeReport.ReportLength | trackdupes.py:17-23 | the report has `1 + 2 * k` messages, `k` being the number of items whose path list does not have length 1 |
| DupeReport.ReportHeader | trackdupes.py:17 | the first message is the header |
| DupeReport.ReportAt | trackdupes.py:19-23 | messages `2k+1` and `2k+2` are the digest line and the paths line of the `k`-th multi-path item |
| DupeReport.ReportHashAt | trackdupes.py:19-22 | message `2k+1` is the digest line of the `k`-th multi-path item |
| DupeReport.ReportPathsAt | trackdupes.py:19-23 | message `2k+2` is the paths line of the `k`-th multi-path item |
| DupeReport.ReportLinesAt | trackdupes.py:17-23 | the report is one message longer than the item messages, and message `j+1` is item message `j` |
| DupeReport.GroupsLinesAt | trackdupes.py:22-23 | over multi-path items, messages `2k` and `2k+1` belong to item `k` |
| DupeReport.EmptyReport | trackdupes.py:17-19 | an empty map reports the header alone |
| DupeReport.Lines | trackdupes.py:23 | splitting text at newlines yields at least one line |
| DupeReport.LinesBreak | trackdupes.py:23 | a newline-free prefix followed by a newline is the first line |
| DupeReport.Indented | trackdupes.py:23 | one indented line per path |
| DupeReport.PathsLineSplits | trackdupes.py:23 | for a non-empty bucket of newline-free paths, the paths message splits into the paths, one per line, in order, each indented by four spaces |
| DupeReport.GroupsOfWithout | trackdupes.py:20-21 | the multi-path items of a trimmed map are those of the untrimmed map, in the same order |
| DupeReport.ReportIgnoresTrim | trackdupes.py:68-69 | trimming the map first, which the command line leaves commented out, does not change the report |
| Scenarios.ThreeFilesWalk | dupetracker.py:58-62 | a flat directory is walked in child order |
| Scenarios.ThreeFilesMap | dupetracker.py:58-62 | `a.txt` and `b.txt` with equal contents share a bucket, in that order, and `c.txt` is alone in a second bucket keyed after it |
| Scenarios.ThreeFilesTrim | dupetracker.py:76-82 | trimming that map drops only `c.txt`'s bucket |
| Scenarios.TwoPathsLine | trackdupes.py:23 | the paths message for `a.txt`, `b.txt` is `"    a.txt\n    b.txt"` |
| Scenarios.ThreeFilesReport | trackdupes.py:17-23 | that map reports the header, the shared digest's line and the two indented paths |
| Scenarios.NestedWalk | dupetracker.py:58-62 | a file directly under the root is met before one in a subdirectory listed after it |
| Scenarios.NestedDirectories | dupetracker.py:58-62 | equal files at two depths share one bucket, in walk order |
| Scenarios.FilteredScan | dupetracker.py:30-31 | with the filter `.txt`, `a.TXT` is mapped and `b.md` is not |
| Scenarios.EmptyDirectory | dupetracker.py:58-62 | an empty directory leaves the map empty, and the report is the header alone |

## Left out

- `get_file_hash` (dupeutils.py:28-38): reading the file in blocks and SHA-256 become the parameter `hash`. A read error, which stops the scan, is not modelled.
- Output: the output objects (`NullOutput` in dupeutils.py, `ConsoleOutput` in trackdupes.py) are not modelled. So are the tracker's messages: the scan banner, the verbose per-file message, the progress dots, the elapsed-time message and the trim counts. The report is returned as its sequence of messages rather than printed.
- The filesystem (`Path.cwd`, `iterdir`, `is_dir`): a finite `Entry` tree replaces it. A missing directory argument defaulting to the current directory is not modelled. Neither are symbolic links, and a link to a directory is taken as a directory.
- DupeTracker.Tracker.ScanDir: it requires a directory. The original raises when asked to list a non-directory, and that error path is not modelled. The `root` flag only controls messages and timing, which are left out.
- An unreadable directory: listing it raises in the original and ends the scan; the `Entry` tree always lists its children, so that error path is not modelled.
- DupeTracker.Tracker.MapFile: it requires a non-directory entry, the only kind the walk passes to it. Opening a directory to hash it would fail.
- The suffix of a path (`Path.suffix`) is stored in each leaf instead of being computed from the name.
- DupeTracker.Lower: lower-cases ASCII letters only. Python's `str.lower` also folds other scripts.
- The command line (`main`, argument parsing, the handling of Control+C in trackdupes.py:53-76) is not modelled.
- DupeTracker.FromEmptyOneBucket: the path uniqueness that real directory trees guarantee is a precondition here, because the `Entry` tree does not enforce it.
