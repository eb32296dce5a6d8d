# GestorIA disk-usage reporter, modelled in Dafny

GestorIA is a disk-usage reporter that exists in six successive versions
(GestorIA.py, GestorIA2.py, GestorIA4.py, GestorIA5.py, GestorIA6.py,
GestorIA7.py). Each one walks a directory tree once and classifies the
files it keeps by their extension. Two versions do not keep every listed
file: GestorIA6.py skips a file whose size reads as 0 before classifying
it, and GestorIA.py gives no entry and no category to a file whose
second size read fails. Depending on the version, it also:

- records `(path, size, category)` per kept file;
- adds sizes per category, and in some versions per folder;
- counts read errors with a two-read heuristic;
- reports the largest entries through a stable descending sort and a slice.

This project models that shared core and proves what each version computes.

The filesystem is an input value. `os.walk` becomes a sequence of walk
entries, each a directory path (as components) with its listed files. A
listed file carries:

- its name;
- whether `os.path.isfile` holds for it;
- the outcome of the first `os.path.getsize` on it;
- the outcome of the second `os.path.getsize` on it.

A failed read is `None`. With that input, every scanner is a method whose
loops update the same accumulators as the program:

- `files_info` is a `seq` of records;
- each `defaultdict(int)` is a map that remembers its insertion order;
- `errors` is a counter.

Each scanner is proved against specification functions of the walk.

Modules:

- `FileTree`: the walk, `safe_getsize`, and the two-read error rule.
- `Classifier`: `get_category` (`splitext`, lowercasing, first-match
  lookup) and its two tables.
- `DefaultDict`: `defaultdict(int)` with insertion order, `d[k] += v`,
  `sum(d.values())` and `d.items()`.
- `TopN`: `sorted(..., reverse=True)[:n]` as a stable insertion sort and a
  Python slice.
- `SizeFormat`: the unit choice of `fmt_size`.
- `Bookkeeping`: the record and category totals shared by the later
  scanners, and the per-file loop body.
- `GestorIA7`, `GestorIA6`, `GestorIA5`, `GestorIA4`, `GestorIA2`,
  `GestorIA`: one module per version.

## Model

| member | source | states |
|---|---|---|
| Classifier.LastDot | GestorIA2.py:15 | the position found holds a '.' with no '.' after it; no result means the name has no '.' |
| Classifier.Lower | GestorIA2.py:15 | `.lower()` keeps the length, leaves no upper-case ASCII letter, maps each upper-case letter to its lower-case letter (code + 32) and keeps every other character |
| Classifier.LowerSuffix | GestorIA2.py:15 | lowercasing a suffix gives the same suffix of the lowercased string |
| Classifier.LowerDots | GestorIA2.py:15 | lowercasing puts a '.' exactly where the name has one |
| Classifier.Extension | GestorIA2.py:15 | the extension is a suffix of the name that starts with '.' and has no other '.', and something other than a dot precedes it; it is empty exactly when every '.' of the name is preceded only by dots |
| Classifier.Lookup | GestorIA2.py:16-19 | the result is "Otros" or the category of a row whose set holds the extension |
| Classifier.LookupExact | GestorIA2.py:16-19 | in a table with disjoint rows, the lookup returns a row's category exactly when that row's set holds the extension, whatever the row order |
| Classifier.LookupOtros | GestorIA2.py:16-19 | in a table with disjoint rows, "Otros" is returned exactly when no row's set holds the extension |
| Classifier.Classify | GestorIA2.py:14-19 | `get_category` answers "Otros" or the category of a row whose set holds the lowercased extension of the name |
| Classifier.ClassifyByRow | GestorIA2.py:14-19 | `get_category` returns a row's category exactly when the lowercased extension of the name is in that row's set |
| Classifier.ClassifyOtros | GestorIA2.py:14-19 | `get_category` returns "Otros" exactly when no row's set holds the lowercased extension |
| Classifier.ClassifyRange | GestorIA7.py:18-23 | the result is a category of the table or "Otros" |
| Classifier.LastDotLower | GestorIA2.py:15 | lowercasing a name leaves its last '.' where it was |
| Classifier.ExtensionLower | GestorIA2.py:15 | taking the extension commutes with ASCII lowercasing |
| Classifier.ClassifyIgnoresCase | GestorIA7.py:18-23 | two names equal up to ASCII case get the same category |
| Classifier.NoExtensionIsOtros | GestorIA2.py:14-19 | a name with no dot, or whose dots all lead (".bashrc"), is classified "Otros" |
| Classifier.FullTableValid | GestorIA2.py:5-12 | the six-row table has distinct categories, pairwise disjoint extension sets, no "Otros" row and no empty extension, so dict order does not matter |
| Classifier.FullRowDisjoint0 | GestorIA2.py:6-12 | the video extensions share nothing with any later row |
| Classifier.FullRowDisjoint1 | GestorIA2.py:7-12 | the music extensions share nothing with any later row |
| Classifier.FullRowDisjoint2 | GestorIA2.py:8-12 | the image extensions share nothing with any later row |
| Classifier.FullRowDisjoint3 | GestorIA2.py:9-11 | documents, archives and installers share no extension |
| Classifier.FullRowsNoEmpty | GestorIA2.py:5-12 | no row is "Otros" and no set holds the empty extension |
| Classifier.SmallTableValid | GestorIA.py:4-9 | the four-row table of the first version has pairwise disjoint rows, so its lookup is order-independent too |
| TopN.Slice | GestorIA7.py:60 | `s[:n]` is a prefix of `s` of length min(n, len) for n >= 0, and of length max(0, len + n) for negative n |
| TopN.SortDesc | GestorIA2.py:88 | `sorted(s, key, reverse=True)` is non-increasing in the key and a permutation of `s` |
| TopN.Top | GestorIA2.py:86-90 | `sorted(...)[:n]` is non-increasing, takes its elements from `s` (as a sub-multiset), and has min(n, len) elements for n >= 0 |
| TopN.InsertPermutation | GestorIA2.py:88 | inserting into the sorted run adds exactly that element |
| TopN.InsertSorted | GestorIA2.py:88 | inserting into a non-increasing sequence keeps it non-increasing |
| TopN.InsertStable | GestorIA2.py:88 | an insertion places the new element before the earlier elements that have its key |
| TopN.SortDescStable | GestorIA2.py:88 | the sort is stable: for every key value, the elements with that key keep their input order |
| TopN.InsertSumBy | GestorIA4.py:97 | an insertion adds the inserted element's measure to any additive measure |
| TopN.SortDescSumBy | GestorIA4.py:97 | sorting keeps every additive measure of the sequence |
| TopN.SumByAppend | GestorIA4.py:97-100 | appending an element adds its measure |
| TopN.TopSpec | GestorIA2.py:86-88 | the top-N list has min(N, count) elements, is non-increasing, is a prefix of the stable sort, and together with the rest of the sort is a permutation of the source; nothing left out outranks it |
| DefaultDict.Empty | GestorIA2.py:52-53 | a fresh `defaultdict(int)` has no key |
| DefaultDict.Get | GestorIA2.py:70 | `d[k]`, as `category_sizes[cat] += size` reads it, gives the stored value of a present key and 0 for a missing one |
| DefaultDict.Add | GestorIA2.py:70 | `d[k] += v` adds v at k and nothing elsewhere; a new key is appended to the insertion order and no other key appears |
| DefaultDict.SumOverUpdate | GestorIA2.py:70 | overwriting one key of a dict with distinct keys changes the sum of its values by the difference at that key |
| DefaultDict.AddTotal | GestorIA7.py:56-61 | `d[k] += v` raises `sum(d.values())` by exactly v |
| DefaultDict.TotalZero | GestorIA7.py:61 | `sum(d.values())` is 0 exactly when every stored value is 0 |
| DefaultDict.TotalHoldsEach | GestorIA7.py:61 | `sum(d.values())` is at least `d[k]` for every k |
| DefaultDict.SumOverBounds | GestorIA7.py:61 | a sum of values over a key list is at least each listed key's value, and is 0 exactly when all of them are 0 |
| DefaultDict.Items | GestorIA4.py:97 | `d.items()` has one pair per key in the insertion order, and a pair occurs exactly when its key is present with that value |
| DefaultDict.ItemsPositiveAt | GestorIA4.py:97-100 | over `d.items()`, the values of key c that are positive add up to `d[c]` when it is positive, and to 0 otherwise |
| DefaultDict.TotalOneKey | GestorIA5.py:61-65 | a dict whose only key is k sums to `d[k]` |
| FileTree.FilesStep | GestorIA7.py:44-45 | the files of one more walked directory come after those of the earlier directories |
| FileTree.FilesBelow | GestorIA2.py:57-59 | when the walk of a base lists only directories below the base, every listed file lies below it |
| FileTree.SafeGetSize | GestorIA2.py:30-34 | `safe_getsize` returns the successful read, or 0 when the read fails |
| FileTree.CountsAsError | GestorIA2.py:61-67 | a file counts as an error exactly when its first read fails or gives 0 and its second read fails or is not 0 |
| FileTree.ErrorCountBound | GestorIA2.py:60-67 | only a file read as 0 can be an error, so errors ≤ files read as 0 ≤ files |
| FileTree.CountsStep | GestorIA7.py:48-53 | one more file raises the error count by 1 exactly when its first read gives 0 and its second read fails or is not 0 |
| Bookkeeping.SumsStep | GestorIA7.py:55-57 | appending a record adds its size to the size sum and to its own category's sum only |
| Bookkeeping.CategoryStep | GestorIA7.py:55-56 | `category_sizes[cat] += size` keeps `category_sizes` the per-category totals: one key per occurring category, holding that category's bytes |
| Bookkeeping.CatTotalAbsent | GestorIA7.py:56 | a category no record has totals 0 |
| Bookkeeping.CategoryGet | GestorIA7.py:56 | with the per-category totals, reading any category (0 when missing) gives that category's bytes |
| Bookkeeping.RecordStep | GestorIA7.py:55-57 | recording one more file keeps the records, the category totals and the equality between their sums |
| Bookkeeping.RecordedNothing | GestorIA7.py:40-42 | before any file, there is no record and no category key, and the sum is 0 |
| Bookkeeping.RecordFile | GestorIA2.py:59-71 | one file: the error count rises exactly under the two-read rule; the file is recorded with its first-read size (0 when it failed) and its own category; the category sums still add up to the recorded bytes |
| SizeFormat.Pow1024 | GestorIA7.py:26-31 | each unit step is a power of 1024 and at least 1 |
| SizeFormat.ScaleStep | GestorIA7.py:29-31 | dividing a magnitude ≥ 1024 keeps magnitude × unit = bytes and shows that the bytes reach the next unit |
| SizeFormat.BelowNext | GestorIA7.py:29-30 | a magnitude below 1024 means the bytes stay below the next unit |
| SizeFormat.FmtSize | GestorIA7.py:25-31 | the unit is one of B..TB; magnitude × 1024^unit equals the bytes; the bytes reach every unit up to the chosen one and stay below the next unless it is TB |
| SizeFormat.UnitUnique | GestorIA7.py:25-31 | these bounds single out one unit, so the choice is the smallest k with bytes < 1024^(k+1), or TB |
| GestorIA7.ScanFiles | GestorIA7.py:45-57 | the inner loop records every file of one directory in order, keeps the category totals and counts errors by the two-read rule |
| GestorIA7.ScanDirectory | GestorIA7.py:39-63 | `files_info` has one record per walked file in walk order, with its size and category; `category_sizes` is the per-category totals; `total_size` = sum of the category totals = sum of the record sizes; errors follow the two-read rule and never exceed the file count; `top_files` is the stable top-N; an empty walk gives 0, [], {} and 0 |
| GestorIA6.Kept | GestorIA6.py:46-48 | the guard drops exactly the files read as 0: the kept files and the files read as 0 together number every listed file |
| GestorIA6.KeptPositive | GestorIA6.py:46-48 | every kept file has a positive size |
| GestorIA6.KeptMembers | GestorIA6.py:46-48 | a file is kept exactly when it is listed and its size is positive |
| GestorIA6.KeptTotal | GestorIA6.py:46-56 | skipping the files read as 0 loses no bytes |
| GestorIA6.RecordSumStep | GestorIA6.py:52-56 | recording one more file adds its size to the sum of the record sizes |
| GestorIA6.PositiveCatTotal | GestorIA6.py:50-51 | when every record is positive, each category that occurs has a positive total |
| GestorIA6.PositiveTotals | GestorIA6.py:50-51 | every key of the category totals of positive records holds a positive value |
| GestorIA6.KeepFile | GestorIA6.py:45-52 | a file read as 0 changes nothing; any other file is recorded and added to its category |
| GestorIA6.ScanFiles | GestorIA6.py:44-52 | the inner loop records exactly the positive files of one directory |
| GestorIA6.ScanDirectory | GestorIA6.py:39-58 | `files_info` holds the records of exactly the files with a positive size, in walk order, each with size > 0; `category_sizes` is their per-category totals, all positive; `total_size` = sum of sizes = sum of categories = bytes of every listed file; `top_files` is the stable top-N |
| GestorIA5.BaseStep | GestorIA5.py:61 | `folder_sizes[base_path] += size` keeps `base_path` the only key, holding the bytes recorded |
| GestorIA5.RecordFileAt | GestorIA5.py:47-61 | one file: recorded and counted as in RecordFile, with its size added to the base key only |
| GestorIA5.ScanFiles | GestorIA5.py:46-61 | the inner loop over one directory keeps the records, the error count and the base-only folder map |
| GestorIA5.ScanDirectory | GestorIA5.py:39-67 | one record per walked file; `folder_sizes` has at most the key `base_path`, present exactly when a file was seen; `total_size` = `folder_sizes[base_path]` = sum of the category totals = sum of the record sizes; errors follow the two-read rule and never exceed the file count; `top_files` is the stable top-N |
| GestorIA4.MergeCategories | GestorIA4.py:97-100 | adding the positive entries of `cats` in sorted order raises `categorias_global[c]` by exactly `cats[c]` for every c, and creates no key for a zero |
| GestorIA4.MergeItem | GestorIA4.py:98-100 | one item raises `categorias_global` at its category by its size when that size is positive, and changes nothing else |
| GestorIA4.MergeSumsStep | GestorIA4.py:97-100 | one more item adds its positive part to the merged total of each category |
| GestorIA4.SortedItemsSums | GestorIA4.py:97-100 | over the sorted items of `cats`, the positive values of each category add up to `cats[c]` |
| GestorIA4.AnalyzeFolder | GestorIA4.py:86-107 | a missing folder changes nothing; an existing one adds `(nombre, total)` to `resumen` and its category bytes to `categorias_global` |
| GestorIA4.AnalyzeUserFolders | GestorIA4.py:82-111 | `resumen` lists the existing folders in order with their totals; `categorias_global[c]` is the bytes of c over all existing folders, with a key exactly when that sum is positive; the printed summary is a stable, non-increasing permutation of `resumen` |
| GestorIA2.LStrip | GestorIA2.py:38 | `lstrip` returns something no longer than its input, and it does not start with a stripped character |
| GestorIA2.LStripSuffix | GestorIA2.py:38 | `lstrip` returns a suffix of its input |
| GestorIA2.LStripRemovesDropped | GestorIA2.py:38 | `lstrip` removes only characters of the stripped set |
| GestorIA2.RStrip | GestorIA2.py:38 | `rstrip` returns something no longer than its input, and it does not end with a stripped character |
| GestorIA2.RStripPrefix | GestorIA2.py:38 | `rstrip` returns a prefix of its input |
| GestorIA2.RStripRemovesDropped | GestorIA2.py:38 | `rstrip` removes only characters of the stripped set |
| GestorIA2.StripSlice | GestorIA2.py:38 | `strip` returns a contiguous piece of its input |
| GestorIA2.Strip | GestorIA2.py:38 | `strip` returns something no longer than its input, and neither of its ends is a stripped character |
| GestorIA2.UnquoteSlice | GestorIA2.py:38 | stripping double and then single quotes leaves a contiguous piece |
| GestorIA2.NormalizeBaseSlice | GestorIA2.py:36-40 | the cleaned path (before `normpath`) is a contiguous piece of the input |
| GestorIA2.NormalizeBaseNoGreater | GestorIA2.py:38 | the cleaned path never ends with '>' |
| GestorIA2.StripKeeps | GestorIA2.py:38 | `strip` leaves a string unchanged when neither end is in the stripped set |
| GestorIA2.NormalizeBaseClean | GestorIA2.py:36-40 | a path with nothing to strip at either end is returned unchanged |
| GestorIA2.NormalizeBase | GestorIA2.py:36-40 | the cleaned path is no longer than the input and does not end with '>' |
| GestorIA2.Dirname | GestorIA2.py:77 | `os.path.dirname` of a non-empty path drops exactly its last component |
| GestorIA2.SubtreeTotal | GestorIA2.py:73-83 | the bytes a folder receives are at most the sum of all recorded sizes, and 0 when no file lies below it |
| GestorIA2.AddedStep | GestorIA2.py:76 | `folder_sizes[current] += size` extends the added chain down to `current` |
| GestorIA2.AddedFromBase | GestorIA2.py:74-83 | the ancestors of `dirpath` that are at least as long as the base are exactly the folders from the base down to `dirpath` |
| GestorIA2.AddToAncestors | GestorIA2.py:74-83 | the `while True` loop terminates and adds `size` to `dirpath` and to every ancestor up to and including the base; a key is created for each of those folders, and no other folder changes |
| GestorIA2.SubtreeStep | GestorIA2.py:73-83 | one more file adds its size to the subtree total of each of its ancestors only, and gives each of them a file below |
| GestorIA2.FolderStep | GestorIA2.py:73-83 | the ancestor-chain update for one file keeps `folder_sizes` equal to the bottom-up subtree totals |
| GestorIA2.FolderTotalsEmpty | GestorIA2.py:52 | with no file, the empty folder map is the subtree totals |
| GestorIA2.BaseFolderTotal | GestorIA2.py:73-83 | when every file lies below the base, the base's subtree total is the sum of every recorded size |
| GestorIA2.SubtreeMonotone | GestorIA2.py:73-83 | a folder holds at least as many bytes as any folder below it |
| GestorIA2.RecordFileInTree | GestorIA2.py:59-83 | one file: recorded and counted as in RecordFile, and the folder map stays the subtree totals |
| GestorIA2.ScanFiles | GestorIA2.py:58-83 | the inner loop over one directory below the base keeps the records, the error count and the subtree totals |
| GestorIA2.ScanTree | GestorIA2.py:57-83 | after the nested loops, every walked file is recorded in order, errors follow the two-read rule, and `folder_sizes` has a key exactly for the folders from the base down that hold a file below them, each with its subtree's bytes |
| GestorIA2.ScanDirectory | GestorIA2.py:42-90 | the scan stops with only the message exactly when the cleaned path is not a directory; otherwise the records, the category totals and the errors are as in ScanTree; `folder_sizes[base]` = sum of the record sizes = sum of the category totals; errors ≤ files; the top folders, top files and category breakdown are the stable descending sorts, cut at their limits |
| GestorIA.GetSize | GestorIA.py:18-30 | a regular file answers its own read, and a failure propagates; anything else answers the sum of the successful reads of the files in its walk, skipping the failed ones |
| GestorIA.ReadableTotalIsScanTotal | GestorIA.py:22-30 | the readable bytes `get_size` adds up are the bytes the later scanners record for the same files |
| GestorIA.FolderSize | GestorIA.py:35 | the folder sum raises exactly when a listed regular file's read fails; otherwise it is the bytes of the directory's direct files |
| GestorIA.DirectBytes | GestorIA.py:35 | the folder sum is at least the size of each listed regular file, and positive only if one of them has a positive size |
| GestorIA.FileEntries | GestorIA.py:41-48 | the file entries of a directory number at most its files, and none is a "Carpeta" entry |
| GestorIA.FileEntriesStep | GestorIA.py:41-48 | one more file adds its own entry (or none) after the entries of the earlier files |
| GestorIA.AppendFile | GestorIA.py:42-48 | a file whose read succeeds appends its path, size and category; a failed read appends nothing |
| GestorIA.AppendFiles | GestorIA.py:41-48 | the inner loop appends, in order, one entry for each file whose read succeeds, and nothing else |
| GestorIA.ScanEntry | GestorIA.py:34-48 | one directory either aborts the scan (exactly when its folder sum raises) or appends its "Carpeta" entry followed by its file entries |
| GestorIA.CollectEntries | GestorIA.py:33-48 | the outer loop aborts exactly when some directory's folder sum raises; otherwise it collects every directory's entries in walk order |
| GestorIA.Collected | GestorIA.py:33-48 | the collected entries number at least the walked directories |
| GestorIA.ScanDirectory | GestorIA.py:32-52 | the scan aborts exactly when a folder sum raises; otherwise the result is the collected entries sorted by size, largest first, stably, as a permutation of them |
| GestorIA.CarpetasAppend | GestorIA.py:38 | the "Carpeta" count of a concatenation is the sum of the counts |
| GestorIA.FileEntriesNoCarpeta | GestorIA.py:41-48 | file entries are never labelled "Carpeta" |
| GestorIA.OneCarpetaPerDirectory | GestorIA.py:34-38 | each walked directory yields exactly one "Carpeta" entry |
| GestorIA.FileEntriesSpec | GestorIA.py:41-48 | every file entry belongs to a listed file whose read succeeded; it carries that read, the file's path and its category in the four-row table |
| GestorIA.SmallTableOmits | GestorIA.py:4-16 | extensions that only the later table knows, such as ".doc" and ".zip", are "Otros" here |

## Left out

- The tkinter GUI classes, the matplotlib charts, and all console output and input: they are presentation. The `❌ Ruta no válida` message of GestorIA2.py is the `InvalidPath` outcome, which carries the cleaned path.
- Real filesystem access is not modelled; its answers are parameters of the model:
  - `os.walk` is the walk given to each scanner.
  - `os.path.getsize` is the first and second read stored with each file.
  - `isfile` is the `isFile` flag stored with each file.
  - `isdir` of a cleaned GestorIA2 base is membership in a map from path strings to trees.
  - `exists` in GestorIA4.py is the `present` flag of each target.
- `os.getlogin` and the hard-coded `C:\Users` folders of GestorIA4.py are not modelled; the targets are an input.
- Directory-listing failures inside `os.walk` are dropped by `onerror=lambda e: None` and counted nowhere. The model has no such failure: an unreadable directory is a walk that does not list it.
- `os.path.normpath` and `os.path.normcase` are treated as identity.
- Paths are component sequences, `os.path.join` appends a component, and `os.path.dirname` drops the last one. The string test `startswith(base_normcase)` of the ancestor loop is modelled as a component-prefix test. Along the ancestors of a directory below the base the two agree, because an ancestor shorter than the base cannot start with it.
- `str.lower` and `str.isspace` are modelled for ASCII letters and the whitespace code points of `str.isspace`; Unicode case mapping beyond ASCII is not modelled.
- `fmt_size` is modelled only for its unit choice and the exact magnitude; float rounding and the two-decimal text are not modelled.
- In GestorIA.py, `get_size` on a listed name for which `isfile` is false is modelled as 0. `os.walk` lists links to directories among the directories, so such a name is a broken link, a FIFO, a socket or a device. Its walk lists nothing, and 0 is exact. A name that becomes a directory between the listing and the call is not modelled.
- GestorIA4.py calls `scan_directory` with its default `top_n_files` of 10. Its scan is the code of GestorIA5.py, and the model calls that module's `ScanDirectory` with 10.
- GestorIA2.ScanDirectory: the model requires each tree of the filesystem map to have a non-empty root and to list only directories below it, which is what `os.walk` of a directory yields. It returns the report as data instead of printing it.
- GestorIA7.ScanDirectory, GestorIA6.ScanDirectory, GestorIA5.ScanDirectory: besides the program's results they return `files_info`, so that its contents can be stated.
- GestorIA2.ScanDirectory: the insertion order of `folder_sizes` and `category_sizes` decides the order of equal sizes in the top-folders list and the category breakdown. The contract does not pin that order. It states that the lists are stable descending sorts of the dicts' items.
