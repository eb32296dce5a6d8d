/**
 * GestorIA2.py: `normalize_base` cleans a pasted path, and
 * `scan_directory` rejects a base that is not a directory; otherwise it
 * records every file, counts read errors, adds each file's size to its
 * folder and to every ancestor folder up to the base, and reports the
 * largest folders, the largest files and the categories by size.
 */
module GestorIA2 {
  import opened Wrappers
  import opened FileTree
  import opened Classifier
  import opened DefaultDict
  import opened Bookkeeping
  import TopN

  // ---------------- normalize_base ----------------

  /** The characters `str.isspace` accepts, which `str.strip()` removes. */
  predicate IsSpace(c: char) {
    || c == ' ' || c == '\t' || c == '\n' || c == '\r' || c == '\U{b}' || c == '\U{c}'
    || ('\U{1c}' <= c <= '\U{1f}') || c == '\U{85}' || c == '\U{a0}' || c == '\U{1680}'
    || ('\U{2000}' <= c <= '\U{200a}') || c == '\U{2028}' || c == '\U{2029}'
    || c == '\U{202f}' || c == '\U{205f}' || c == '\U{3000}'
  }

  /** `s.lstrip(chars)`: the longest suffix of `s` that does not start with a dropped character. */
  function LStrip(s: string, drop: char -> bool): (r: string)
    ensures |r| <= |s|
    ensures r == [] || !drop(r[0])
  {
    if s != [] && drop(s[0]) then LStrip(s[1..], drop) else s
  }

  /** `lstrip` keeps a suffix. */
  lemma {:induction false} LStripSuffix(s: string, drop: char -> bool)
    ensures LStrip(s, drop) == s[|s| - |LStrip(s, drop)|..]
  {
    if s != [] && drop(s[0]) {
      LStripSuffix(s[1..], drop);
    }
  }

  /** `lstrip` removes only dropped characters. */
  lemma {:induction false} LStripRemovesDropped(s: string, drop: char -> bool)
    ensures forall k :: 0 <= k < |s| - |LStrip(s, drop)| ==> drop(s[k])
  {
    if s != [] && drop(s[0]) {
      LStripRemovesDropped(s[1..], drop);
      assert forall k :: 1 <= k < |s| ==> s[k] == s[1..][k - 1];
    }
  }

  /** `s.rstrip(chars)`: the longest prefix of `s` that does not end with a dropped character. */
  function RStrip(s: string, drop: char -> bool): (r: string)
    ensures |r| <= |s|
    ensures r == [] || !drop(r[|r| - 1])
  {
    if s != [] && drop(s[|s| - 1]) then RStrip(s[..|s| - 1], drop) else s
  }

  /** `rstrip` keeps a prefix. */
  lemma {:induction false} RStripPrefix(s: string, drop: char -> bool)
    ensures RStrip(s, drop) <= s
  {
    if s != [] && drop(s[|s| - 1]) {
      RStripPrefix(s[..|s| - 1], drop);
    }
  }

  /** `rstrip` removes only dropped characters. */
  lemma {:induction false} RStripRemovesDropped(s: string, drop: char -> bool)
    ensures forall k :: |RStrip(s, drop)| <= k < |s| ==> drop(s[k])
  {
    if s != [] && drop(s[|s| - 1]) {
      RStripRemovesDropped(s[..|s| - 1], drop);
    }
  }

  /** `s.strip(chars)`: no longer than `s`, and neither end is a dropped character. */
  function Strip(s: string, drop: char -> bool): (r: string)
    ensures |r| <= |s|
    ensures r == [] || (!drop(r[0]) && !drop(r[|r| - 1]))
  {
    var l := LStrip(s, drop);
    RStripPrefix(l, drop);
    RStrip(l, drop)
  }

  predicate IsDoubleQuote(c: char) { c == '"' }

  predicate IsSingleQuote(c: char) { c == '\'' }

  predicate IsGreater(c: char) { c == '>' }

  /**
   * `normalize_base` up to `os.path.normpath`: strip white space, then
   * double quotes, then single quotes, then trailing '>'.
   */
  function NormalizeBase(basePath: string): (r: string)
    ensures |r| <= |basePath|
    ensures r == [] || r[|r| - 1] != '>'
  {
    var unspaced := Strip(basePath, IsSpace);
    var unquoted := Strip(Strip(unspaced, IsDoubleQuote), IsSingleQuote);
    RStrip(unquoted, IsGreater)
  }

  /** `r` occurs in `s` as one contiguous piece, starting at `i`. */
  ghost predicate SliceAt(r: string, s: string, i: nat) {
    i + |r| <= |s| && r == s[i..i + |r|]
  }

  lemma StripSlice(s: string, drop: char -> bool) returns (i: nat)
    ensures SliceAt(Strip(s, drop), s, i)
  {
    var l := LStrip(s, drop);
    var r := RStrip(l, drop);
    LStripSuffix(s, drop);
    RStripPrefix(l, drop);
    i := |s| - |l|;
    assert l == s[i..] && r == l[..|r|];
    forall k | 0 <= k < |r| ensures r[k] == s[i + k] {
      assert r[k] == l[k];
    }
    assert r == s[i..i + |r|];
  }

  lemma SliceTrans(a: string, b: string, c: string, i: nat, j: nat)
    requires SliceAt(a, b, i) && SliceAt(b, c, j)
    ensures SliceAt(a, c, j + i)
  {
    forall k | 0 <= k < |a| ensures a[k] == c[j + i + k] {
      assert a[k] == b[i + k];
    }
    assert a == c[j + i..j + i + |a|];
  }

  /** Stripping the quotes leaves a contiguous piece. */
  lemma UnquoteSlice(s: string) returns (i: nat)
    ensures SliceAt(Strip(Strip(s, IsDoubleQuote), IsSingleQuote), s, i)
  {
    var dq := Strip(s, IsDoubleQuote);
    var i1 := StripSlice(s, IsDoubleQuote);
    var i2 := StripSlice(dq, IsSingleQuote);
    SliceTrans(Strip(dq, IsSingleQuote), dq, s, i2, i1);
    i := i1 + i2;
  }

  /** The cleaned path is a contiguous piece of the input. */
  lemma NormalizeBaseSlice(basePath: string) returns (i: nat)
    ensures SliceAt(NormalizeBase(basePath), basePath, i)
  {
    var unspaced := Strip(basePath, IsSpace);
    var unquoted := Strip(Strip(unspaced, IsDoubleQuote), IsSingleQuote);
    var r := RStrip(unquoted, IsGreater);
    var i0 := StripSlice(basePath, IsSpace);
    var i1 := UnquoteSlice(unspaced);
    SliceTrans(unquoted, unspaced, basePath, i1, i0);
    RStripPrefix(unquoted, IsGreater);
    assert SliceAt(r, unquoted, 0);
    SliceTrans(r, unquoted, basePath, 0, i0 + i1);
    i := i0 + i1;
  }

  /** The cleaned path never ends with '>'. */
  lemma NormalizeBaseNoGreater(basePath: string)
    ensures var r := NormalizeBase(basePath); r == [] || r[|r| - 1] != '>'
  {
  }

  lemma StripKeeps(s: string, drop: char -> bool)
    requires s != [] ==> !drop(s[0]) && !drop(s[|s| - 1])
    ensures Strip(s, drop) == s
  {
  }

  /** A path with nothing to strip at either end comes back unchanged. */
  lemma NormalizeBaseClean(basePath: string)
    requires basePath != [] ==>
      var first, last := basePath[0], basePath[|basePath| - 1];
      && !IsSpace(first) && first != '"' && first != '\''
      && !IsSpace(last) && last != '"' && last != '\'' && last != '>'
    ensures NormalizeBase(basePath) == basePath
  {
    StripKeeps(basePath, IsSpace);
    StripKeeps(basePath, IsDoubleQuote);
    StripKeeps(basePath, IsSingleQuote);
  }

  // ---------------- the folder map ----------------

  /** `os.path.dirname` on a component path: drop the last component. */
  function Dirname(p: Path): (r: Path)
    ensures p != [] ==> |r| == |p| - 1 && r <= p
  {
    if |p| == 0 then p else p[..|p| - 1]
  }

  lemma PrefixOrder(a: Path, b: Path, s: Path)
    requires a <= s && b <= s && |a| <= |b|
    ensures a <= b
  {
    assert a == s[..|a|] && b == s[..|b|];
    assert b[..|a|] == s[..|a|];
  }

  /**
   * `d` is `d0` with `size` added to every prefix of `dirpath` longer than
   * `n` components, and a key created for each of them.
   */
  ghost predicate AddedAbove(d: Dict<Path>, d0: Dict<Path>, dirpath: Path, n: int, size: nat) {
    && Valid(d)
    && (forall p :: p in d.m <==> p in d0.m || (p <= dirpath && n < |p|))
    && (forall p :: Get(d, p) == Get(d0, p) + (if p <= dirpath && n < |p| then size else 0))
  }

  /** `folder_sizes[current] += size` extends the added prefixes down to `current`. */
  lemma AddedStep(d: Dict<Path>, d0: Dict<Path>, dirpath: Path, current: Path, size: nat)
    requires AddedAbove(d, d0, dirpath, |current|, size) && current <= dirpath
    ensures AddedAbove(Add(d, current, size), d0, dirpath, |current| - 1, size)
  {
    assert forall p :: p <= dirpath && |p| == |current| ==> p == current;
  }

  /** The prefixes of `dirpath` at least as long as `base` are the folders from `base` down to `dirpath`. */
  lemma AddedFromBase(d: Dict<Path>, d0: Dict<Path>, base: Path, dirpath: Path, size: nat)
    requires AddedAbove(d, d0, dirpath, |base| - 1, size) && base <= dirpath
    ensures forall p :: p in d.m <==> p in d0.m || (base <= p && p <= dirpath)
    ensures forall p :: Get(d, p) == Get(d0, p) + (if base <= p && p <= dirpath then size else 0)
  {
    forall p | p <= dirpath && |base| <= |p| ensures base <= p {
      PrefixOrder(base, p, dirpath);
    }
  }

  /**
   * The `while True` loop: add `size` to `dirpath` and to each parent while
   * the parent is non-empty, differs from the folder, and stays below the
   * base. Every folder from `dirpath` up to `base` gains `size`, and no
   * other folder changes.
   */
  method AddToAncestors(folderSizes0: Dict<Path>, base: Path, dirpath: Path, size: nat)
    returns (folderSizes: Dict<Path>)
    requires Valid(folderSizes0) && |base| > 0 && base <= dirpath
    ensures Valid(folderSizes)
    ensures forall p :: p in folderSizes.m <==> p in folderSizes0.m || (base <= p && p <= dirpath)
    ensures forall p :: Get(folderSizes, p) == Get(folderSizes0, p) + (if base <= p && p <= dirpath then size else 0)
  {
    folderSizes := folderSizes0;
    var current := dirpath;
    while true
      invariant base <= current && current <= dirpath
      invariant AddedAbove(folderSizes, folderSizes0, dirpath, |current|, size)
      decreases |current|
    {
      AddedStep(folderSizes, folderSizes0, dirpath, current, size);
      folderSizes := Add(folderSizes, current, size);
      var parent := Dirname(current);
      if |parent| == 0 || parent == current {
        break;
      }
      if !(base <= parent) {
        break;
      }
      current := parent;
    }
    assert current == base;
    AddedFromBase(folderSizes, folderSizes0, base, dirpath, size);
  }

  /** The bytes of the files of `ws` listed in folder `p` or below it. */
  function SubtreeTotal(ws: seq<Walked>, p: Path): (r: nat)
    ensures r <= SumSizes(Records(ws))
    ensures !HasFileBelow(ws, p) ==> r == 0
  {
    if ws == [] then 0
    else
      var init, w := ws[..|ws| - 1], ws[|ws| - 1];
      assert ws == init + [w];
      RecordsStep(init, w);
      SumsStep(Records(init), ToRecord(w));
      assert HasFileBelow(init, p) ==> HasFileBelow(ws, p) by {
        if HasFileBelow(init, p) {
          var k :| 0 <= k < |init| && p <= init[k].dir;
          assert ws[k] == init[k];
        }
      }
      assert p <= w.dir ==> HasFileBelow(ws, p) by {
        assert ws[|ws| - 1] == w;
      }
      SubtreeTotal(init, p) + (if p <= w.dir then SafeGetSize(w.file) else 0)
  }

  ghost predicate HasFileBelow(ws: seq<Walked>, p: Path) {
    exists k :: 0 <= k < |ws| && p <= ws[k].dir
  }

  /**
   * `folder_sizes` after the files `ws`: a key for each folder from the base
   * down that holds a file somewhere below it, with the bytes of its
   * subtree; nothing above or beside the base.
   */
  ghost predicate IsFolderTotals(d: Dict<Path>, base: Path, ws: seq<Walked>) {
    && Valid(d)
    && (forall p :: p in d.m <==> base <= p && HasFileBelow(ws, p))
    && (forall p :: Get(d, p) == if base <= p then SubtreeTotal(ws, p) else 0)
  }

  lemma SubtreeStep(ws: seq<Walked>, w: Walked)
    ensures forall p :: SubtreeTotal(ws + [w], p) == SubtreeTotal(ws, p) + (if p <= w.dir then SafeGetSize(w.file) else 0)
    ensures forall p :: HasFileBelow(ws + [w], p) <==> HasFileBelow(ws, p) || p <= w.dir
  {
    assert (ws + [w])[..|ws|] == ws;
    forall p | HasFileBelow(ws, p) ensures HasFileBelow(ws + [w], p) {
      var k :| 0 <= k < |ws| && p <= ws[k].dir;
      assert (ws + [w])[k] == ws[k];
    }
    forall p | p <= w.dir ensures HasFileBelow(ws + [w], p) {
      assert (ws + [w])[|ws|] == w;
    }
  }

  /** Adding a file's size along its ancestor chain keeps the folder totals. */
  lemma FolderStep(d: Dict<Path>, d': Dict<Path>, base: Path, ws: seq<Walked>, w: Walked)
    requires IsFolderTotals(d, base, ws) && base <= w.dir
    requires Valid(d')
    requires forall p :: p in d'.m <==> p in d.m || (base <= p && p <= w.dir)
    requires forall p :: Get(d', p) == Get(d, p) + (if base <= p && p <= w.dir then SafeGetSize(w.file) else 0)
    ensures IsFolderTotals(d', base, ws + [w])
  {
    SubtreeStep(ws, w);
  }

  /** Nothing listed: no folder has a key. */
  lemma FolderTotalsEmpty(base: Path)
    ensures IsFolderTotals(Empty(), base, [])
  {
  }

  /** When every file lies below the base, the base folder holds every recorded byte. */
  lemma {:induction false} BaseFolderTotal(ws: seq<Walked>, base: Path)
    requires forall k :: 0 <= k < |ws| ==> base <= ws[k].dir
    ensures SubtreeTotal(ws, base) == SumSizes(Records(ws))
  {
    if ws != [] {
      var init, w := ws[..|ws| - 1], ws[|ws| - 1];
      assert ws == init + [w];
      assert forall k :: 0 <= k < |init| ==> init[k] == ws[k];
      BaseFolderTotal(init, base);
      RecordsStep(init, w);
      SumsStep(Records(init), ToRecord(w));
    }
  }

  /** A folder holds at least as many bytes as any folder below it. */
  lemma {:induction false} SubtreeMonotone(ws: seq<Walked>, p: Path, q: Path)
    requires p <= q
    ensures SubtreeTotal(ws, q) <= SubtreeTotal(ws, p)
  {
    if ws != [] {
      SubtreeMonotone(ws[..|ws| - 1], p, q);
    }
  }

  // ---------------- scan_directory ----------------

  /**
   * The body of the inner loop: RecordFile, then the ancestor loop with the
   * file's size.
   */
  method RecordFileInTree(ghost done: seq<Walked>, base: Path, dirpath: Path, f: FileEntry,
                          filesInfo: seq<FileRecord>, categorySizes: Dict<Category>, errors: nat,
                          folderSizes: Dict<Path>)
    returns (filesInfo': seq<FileRecord>, categorySizes': Dict<Category>, errors': nat,
             folderSizes': Dict<Path>)
    requires |base| > 0 && base <= dirpath
    requires Tallied(done, filesInfo, categorySizes, errors)
    requires IsFolderTotals(folderSizes, base, done)
    ensures Tallied(done + [Walked(dirpath, f)], filesInfo', categorySizes', errors')
    ensures IsFolderTotals(folderSizes', base, done + [Walked(dirpath, f)])
  {
    var size;
    filesInfo', categorySizes', errors', size := RecordFile(done, dirpath, f, filesInfo, categorySizes, errors);
    folderSizes' := AddToAncestors(folderSizes, base, dirpath, size);
    FolderStep(folderSizes, folderSizes', base, done, Walked(dirpath, f));
  }

  /** The inner `for name in filenames` loop over the files of one directory below the base. */
  method ScanFiles(ghost before: seq<Walked>, base: Path, entry: WalkEntry,
                   filesInfo0: seq<FileRecord>, categorySizes0: Dict<Category>, errors0: nat,
                   folderSizes0: Dict<Path>)
    returns (filesInfo: seq<FileRecord>, categorySizes: Dict<Category>, errors: nat,
             folderSizes: Dict<Path>)
    requires |base| > 0 && base <= entry.dirpath
    requires Tallied(before, filesInfo0, categorySizes0, errors0)
    requires IsFolderTotals(folderSizes0, base, before)
    ensures Tallied(before + EntryFiles(entry), filesInfo, categorySizes, errors)
    ensures IsFolderTotals(folderSizes, base, before + EntryFiles(entry))
  {
    filesInfo, categorySizes, errors, folderSizes := filesInfo0, categorySizes0, errors0, folderSizes0;
    ghost var done := before;
    assert EntryFiles(entry)[..0] == [];
    for j := 0 to |entry.files|
      invariant done == before + EntryFiles(entry)[..j]
      invariant Tallied(done, filesInfo, categorySizes, errors)
      invariant IsFolderTotals(folderSizes, base, done)
    {
      var f := entry.files[j];
      EntryFilesStep(before, entry, j);
      filesInfo, categorySizes, errors, folderSizes :=
        RecordFileInTree(done, base, entry.dirpath, f, filesInfo, categorySizes, errors, folderSizes);
      done := done + [Walked(entry.dirpath, f)];
    }
    assert EntryFiles(entry)[..|entry.files|] == EntryFiles(entry);
  }

  /** The nested loops over the walk of the base. */
  method ScanTree(base: Path, walk: Walk)
    returns (filesInfo: seq<FileRecord>, categorySizes: Dict<Category>, errors: nat,
             folderSizes: Dict<Path>)
    requires |base| > 0 && Below(walk, base)
    ensures Tallied(Files(walk), filesInfo, categorySizes, errors)
    ensures IsFolderTotals(folderSizes, base, Files(walk))
  {
    folderSizes := Empty();
    categorySizes := Empty();
    filesInfo := [];
    errors := 0;
    for i := 0 to |walk|
      invariant Tallied(Files(walk[..i]), filesInfo, categorySizes, errors)
      invariant IsFolderTotals(folderSizes, base, Files(walk[..i]))
    {
      FilesStep(walk, i);
      filesInfo, categorySizes, errors, folderSizes :=
        ScanFiles(Files(walk[..i]), base, walk[i], filesInfo, categorySizes, errors, folderSizes);
    }
    assert walk[..|walk|] == walk;
  }

  /** A directory as `os.walk` sees it: its path as components, and its walk. */
  datatype Tree = Tree(root: Path, walk: Walk)

  /**
   * The directories a base may name: `os.path.isdir(s)` holds exactly for
   * the keys, and each tree's walk stays below its root.
   */
  type FileSystem = map<string, Tree>

  ghost predicate ValidFileSystem(fs: FileSystem) {
    forall s :: s in fs ==> |fs[s].root| > 0 && Below(fs[s].walk, fs[s].root)
  }

  /** What `scan_directory` prints, as data. */
  datatype Report = Report(
    folderSizes: Dict<Path>,
    categorySizes: Dict<Category>,
    filesInfo: seq<FileRecord>,
    errors: nat,
    topFolders: seq<(Path, nat)>,
    topFiles: seq<FileRecord>,
    catBreakdown: seq<(Category, nat)>)

  datatype Outcome = InvalidPath(base: string) | Scanned(report: Report)

  /**
   * `scan_directory`: clean the path; if it names no directory, stop with
   * nothing but the message. Otherwise every file is recorded, the folder
   * map holds the subtree totals from the base down, the base folder holds
   * every recorded byte, errors follow the two-read rule, and the three
   * listings are the stable descending sorts, cut at their limits.
   */
  method ScanDirectory(basePath: string, fs: FileSystem, topNFolders: int, topNFiles: int)
    returns (outcome: Outcome)
    requires ValidFileSystem(fs)
    ensures outcome.InvalidPath? <==> NormalizeBase(basePath) !in fs
    ensures outcome.InvalidPath? ==> outcome.base == NormalizeBase(basePath)
    ensures outcome.Scanned? ==>
      var tree, r := fs[NormalizeBase(basePath)], outcome.report;
      && Tallied(Files(tree.walk), r.filesInfo, r.categorySizes, r.errors)
      && IsFolderTotals(r.folderSizes, tree.root, Files(tree.walk))
      && Get(r.folderSizes, tree.root) == SumSizes(r.filesInfo) == Total(r.categorySizes)
      && r.errors <= |r.filesInfo|
      && r.topFolders == TopN.Top(Items(r.folderSizes), topNFolders, Value)
      && r.topFiles == TopN.Top(r.filesInfo, topNFiles, Size)
      && r.catBreakdown == TopN.SortDesc(Items(r.categorySizes), Value)
  {
    var base := NormalizeBase(basePath);
    if base !in fs {
      return InvalidPath(base);
    }
    var tree := fs[base];
    var filesInfo, categorySizes, errors, folderSizes := ScanTree(tree.root, tree.walk);
    FilesBelow(tree.walk, tree.root);
    BaseFolderTotal(Files(tree.walk), tree.root);
    ErrorCountBound(Files(tree.walk));
    var topFolders := TopN.Top(Items(folderSizes), topNFolders, Value);
    var topFiles := TopN.Top(filesInfo, topNFiles, Size);
    var catBreakdown := TopN.SortDesc(Items(categorySizes), Value);
    return Scanned(Report(folderSizes, categorySizes, filesInfo, errors, topFolders, topFiles, catBreakdown));
  }
}
