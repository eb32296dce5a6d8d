/**
 * GestorIA.py, the first version: `get_size` sums a file or a subtree,
 * and `scan_directory` lists, for every walked directory, one "Carpeta"
 * entry with the bytes of its direct files followed by one entry per file
 * whose size could be read, then sorts the whole list by size, largest
 * first. A failing read inside the folder sum is not caught and ends the
 * scan; the model returns None for that outcome.
 */
module GestorIA {
  import opened Wrappers
  import opened FileTree
  import opened Classifier
  import opened Bookkeeping
  import TopN

  /** What `get_size` is asked about: a regular file with its read, or anything else with its walk. */
  datatype SizeTarget = RegularFile(read: Option<nat>) | Directory(walk: Walk)

  /** The third field of an entry: "Carpeta" for a directory, otherwise the file's category. */
  datatype Kind = Carpeta | File(category: Category)

  datatype Entry = Entry(path: Path, size: nat, kind: Kind)

  function EntrySize(e: Entry): nat {
    e.size
  }

  /** The bytes of the files of `ws` whose read succeeds; a failed read adds nothing. */
  function ReadableTotal(ws: seq<Walked>): nat {
    if ws == [] then 0
    else
      var f := ws[|ws| - 1].file;
      ReadableTotal(ws[..|ws| - 1]) + (match f.firstRead case Some(n) => n case None => 0)
  }

  /**
   * `get_size`: a regular file answers its own read (a failure propagates),
   * anything else the readable bytes of its walk.
   */
  method GetSize(t: SizeTarget) returns (r: Option<nat>)
    ensures t.RegularFile? ==> r == t.read
    ensures t.Directory? ==> r == Some(ReadableTotal(Files(t.walk)))
  {
    match t
    case RegularFile(read) =>
      return read;
    case Directory(walk) =>
      var total := 0;
      for i := 0 to |walk|
        invariant total == ReadableTotal(Files(walk[..i]))
      {
        var entry := walk[i];
        ghost var before := Files(walk[..i]);
        assert before + EntryFiles(entry)[..0] == before;
        for j := 0 to |entry.files|
          invariant total == ReadableTotal(before + EntryFiles(entry)[..j])
        {
          EntryFilesStep(before, entry, j);
          match entry.files[j].firstRead
          case Some(n) => total := total + n;
          case None =>
        }
        assert EntryFiles(entry)[..|entry.files|] == EntryFiles(entry);
        FilesStep(walk, i);
      }
      assert walk[..|walk|] == walk;
      return Some(total);
  }

  /** The readable bytes of a subtree are the bytes the later scanners report for it. */
  lemma {:induction false} ReadableTotalIsScanTotal(ws: seq<Walked>)
    ensures ReadableTotal(ws) == SumSizes(Records(ws))
  {
    if ws != [] {
      var init, w := ws[..|ws| - 1], ws[|ws| - 1];
      assert ws == init + [w];
      ReadableTotalIsScanTotal(init);
      RecordsStep(init, w);
      SumsStep(Records(init), ToRecord(w));
    }
  }

  /**
   * What `get_size` is asked about for a listed name: a regular file, or
   * else a path whose walk lists nothing (`os.walk` of a non-directory).
   */
  function AsTarget(f: FileEntry): SizeTarget {
    if f.isFile then RegularFile(f.firstRead) else Directory([])
  }

  /** A listed regular file whose read fails makes the folder sum raise. */
  ghost predicate EntryAborts(e: WalkEntry) {
    exists k :: 0 <= k < |e.files| && e.files[k].isFile && e.files[k].firstRead.None?
  }

  ghost predicate Aborts(walk: Walk) {
    exists i :: 0 <= i < |walk| && EntryAborts(walk[i])
  }

  /**
   * The folder sum of a directory that does not abort: its regular files'
   * reads. It holds every regular file's bytes, and is positive only when
   * some regular file has bytes.
   */
  function DirectBytes(files: seq<FileEntry>): (r: nat)
    ensures forall k :: 0 <= k < |files| && files[k].isFile ==> SafeGetSize(files[k]) <= r
    ensures r > 0 ==> exists k :: 0 <= k < |files| && files[k].isFile && SafeGetSize(files[k]) > 0
  {
    if files == [] then 0
    else
      var init, f := files[..|files| - 1], files[|files| - 1];
      assert forall k :: 0 <= k < |init| ==> init[k] == files[k];
      DirectBytes(init) + (if f.isFile then SafeGetSize(f) else 0)
  }

  /** The entries of the files of one directory whose second read succeeds, in listing order. */
  function FileEntries(dir: Path, files: seq<FileEntry>): (r: seq<Entry>)
    ensures |r| <= |files|
    ensures forall k :: 0 <= k < |r| ==> r[k].kind.File?
  {
    if files == [] then []
    else
      FileEntries(dir, files[..|files| - 1]) + FileEntryOf(dir, files[|files| - 1])
  }

  /** The entry one file contributes: none when its second read fails. */
  function FileEntryOf(dir: Path, f: FileEntry): seq<Entry> {
    match f.secondRead
    case Some(n) => [Entry(dir + [f.name], n, File(Classify(SmallTable, f.name)))]
    case None => []
  }

  /** The entries one directory contributes: its "Carpeta" entry, then its file entries. */
  function DirEntries(e: WalkEntry): seq<Entry> {
    [Entry(e.dirpath, DirectBytes(e.files), Carpeta)] + FileEntries(e.dirpath, e.files)
  }

  /** `data` before the sort: at least one entry per walked directory. */
  function Collected(walk: Walk): (r: seq<Entry>)
    ensures |r| >= |walk|
  {
    if walk == [] then [] else Collected(walk[..|walk| - 1]) + DirEntries(walk[|walk| - 1])
  }

  lemma CollectedStep(walk: Walk, i: nat)
    requires i < |walk|
    ensures Collected(walk[..i + 1]) == Collected(walk[..i]) + DirEntries(walk[i])
  {
    assert walk[..i + 1][..i] == walk[..i];
  }

  /**
   * `sum(get_size(...) for f in filenames)`: the direct bytes of the
   * directory, or None when a regular file's read fails.
   */
  method FolderSize(e: WalkEntry) returns (r: Option<nat>)
    ensures r.None? <==> EntryAborts(e)
    ensures r.Some? ==> r.value == DirectBytes(e.files)
  {
    var total := 0;
    for k := 0 to |e.files|
      invariant total == DirectBytes(e.files[..k])
      invariant forall j :: 0 <= j < k ==> !(e.files[j].isFile && e.files[j].firstRead.None?)
    {
      assert e.files[..k + 1][..k] == e.files[..k];
      var s := GetSize(AsTarget(e.files[k]));
      if s.None? {
        return None;
      }
      total := total + s.value;
    }
    assert e.files[..|e.files|] == e.files;
    return Some(total);
  }

  lemma FileEntriesStep(dir: Path, files: seq<FileEntry>, k: nat)
    requires k < |files|
    ensures FileEntries(dir, files[..k + 1]) == FileEntries(dir, files[..k]) + FileEntryOf(dir, files[k])
  {
    assert files[..k + 1][..k] == files[..k];
  }

  /** The body of the inner loop of `scan_directory`: one entry for a file whose read succeeds. */
  method AppendFile(data0: seq<Entry>, dir: Path, f: FileEntry) returns (data: seq<Entry>)
    ensures data == data0 + FileEntryOf(dir, f)
  {
    data := data0;
    match f.secondRead
    case Some(size) =>
      var category := Classify(SmallTable, f.name);
      data := data + [Entry(dir + [f.name], size, File(category))];
    case None =>
  }

  /** The inner loop of `scan_directory`: append one entry per file whose read succeeds. */
  method AppendFiles(data0: seq<Entry>, dir: Path, files: seq<FileEntry>) returns (data: seq<Entry>)
    ensures data == data0 + FileEntries(dir, files)
  {
    data := data0;
    for k := 0 to |files|
      invariant data == data0 + FileEntries(dir, files[..k])
    {
      FileEntriesStep(dir, files, k);
      data := AppendFile(data, dir, files[k]);
    }
    assert files[..|files|] == files;
  }

  lemma DirEntriesAfter(data0: seq<Entry>, e: WalkEntry)
    ensures data0 + [Entry(e.dirpath, DirectBytes(e.files), Carpeta)] + FileEntries(e.dirpath, e.files)
      == data0 + DirEntries(e)
  {
  }

  /** One pass of the outer loop: the folder sum, the "Carpeta" entry, then the file entries. */
  method ScanEntry(data0: seq<Entry>, entry: WalkEntry) returns (r: Option<seq<Entry>>)
    ensures r.None? <==> EntryAborts(entry)
    ensures r.Some? ==> r.value == data0 + DirEntries(entry)
  {
    var folderSize := FolderSize(entry);
    if folderSize.None? {
      return None;
    }
    var carpeta := Entry(entry.dirpath, folderSize.value, Carpeta);
    var data := AppendFiles(data0 + [carpeta], entry.dirpath, entry.files);
    DirEntriesAfter(data0, entry);
    return Some(data);
  }

  /** No directory before index i makes its folder sum raise. */
  ghost predicate ClearUpTo(walk: Walk, i: nat) {
    forall j :: 0 <= j < i && j < |walk| ==> !EntryAborts(walk[j])
  }

  lemma ClearStep(walk: Walk, i: nat)
    requires ClearUpTo(walk, i) && i < |walk| && !EntryAborts(walk[i])
    ensures ClearUpTo(walk, i + 1)
  {
  }

  lemma ClearAll(walk: Walk)
    requires ClearUpTo(walk, |walk|)
    ensures !Aborts(walk)
  {
  }

  /** The outer loop of `scan_directory`: None when a folder sum raises, else every entry collected. */
  method CollectEntries(walk: Walk) returns (r: Option<seq<Entry>>)
    ensures r.None? <==> Aborts(walk)
    ensures r.Some? ==> r.value == Collected(walk)
  {
    var data := [];
    for i := 0 to |walk|
      invariant data == Collected(walk[..i])
      invariant ClearUpTo(walk, i)
    {
      CollectedStep(walk, i);
      var next := ScanEntry(data, walk[i]);
      if next.None? {
        return None;
      }
      ClearStep(walk, i);
      data := next.value;
    }
    ClearAll(walk);
    assert walk[..|walk|] == walk;
    return Some(data);
  }

  /**
   * `scan_directory`: None when a folder sum raises; otherwise the collected
   * entries sorted by size, largest first, as a permutation of them.
   */
  method ScanDirectory(walk: Walk) returns (r: Option<seq<Entry>>)
    ensures r.None? <==> Aborts(walk)
    ensures r.Some? ==> r.value == TopN.SortDesc(Collected(walk), EntrySize)
    ensures r.Some? ==> TopN.NonIncreasing(r.value, EntrySize)
    ensures r.Some? ==> multiset(r.value) == multiset(Collected(walk))
  {
    r := CollectEntries(walk);
    if r.Some? {
      r := Some(TopN.SortDesc(r.value, EntrySize));
    }
  }

  /** The number of "Carpeta" entries. */
  function Carpetas(s: seq<Entry>): nat {
    if s == [] then 0 else (if s[0].kind == Carpeta then 1 else 0) + Carpetas(s[1..])
  }

  lemma {:induction false} CarpetasAppend(a: seq<Entry>, b: seq<Entry>)
    ensures Carpetas(a + b) == Carpetas(a) + Carpetas(b)
  {
    if a == [] {
      assert a + b == b;
    } else {
      assert (a + b)[1..] == a[1..] + b;
      CarpetasAppend(a[1..], b);
    }
  }

  lemma {:induction false} FileEntriesNoCarpeta(dir: Path, files: seq<FileEntry>)
    ensures Carpetas(FileEntries(dir, files)) == 0
  {
    if files != [] {
      var f := files[|files| - 1];
      FileEntriesNoCarpeta(dir, files[..|files| - 1]);
      CarpetasAppend(FileEntries(dir, files[..|files| - 1]),
        match f.secondRead
        case Some(n) => [Entry(dir + [f.name], n, File(Classify(SmallTable, f.name)))]
        case None => []);
    }
  }

  /** Each walked directory yields exactly one "Carpeta" entry. */
  lemma {:induction false} OneCarpetaPerDirectory(walk: Walk)
    ensures Carpetas(Collected(walk)) == |walk|
  {
    if walk != [] {
      var last := walk[|walk| - 1];
      OneCarpetaPerDirectory(walk[..|walk| - 1]);
      CarpetasAppend(Collected(walk[..|walk| - 1]), DirEntries(last));
      FileEntriesNoCarpeta(last.dirpath, last.files);
      CarpetasAppend([Entry(last.dirpath, DirectBytes(last.files), Carpeta)], FileEntries(last.dirpath, last.files));
    }
  }

  /** `x` is the entry the inner loop appends for file `f` of directory `dir`. */
  ghost predicate EntryOf(x: Entry, dir: Path, f: FileEntry) {
    f.secondRead == Some(x.size) && x == Entry(dir + [f.name], x.size, File(Classify(SmallTable, f.name)))
  }

  /**
   * File entries exist only for files whose read succeeds: each carries
   * that read, the file's path and its category in the four-row table.
   */
  lemma {:induction false} FileEntriesSpec(dir: Path, files: seq<FileEntry>)
    ensures forall x :: x in FileEntries(dir, files) ==>
      exists k :: 0 <= k < |files| && EntryOf(x, dir, files[k])
  {
    if files != [] {
      var init := files[..|files| - 1];
      FileEntriesSpec(dir, init);
      forall x | x in FileEntries(dir, files)
        ensures exists k :: 0 <= k < |files| && EntryOf(x, dir, files[k])
      {
        if x in FileEntries(dir, init) {
          var k :| 0 <= k < |init| && EntryOf(x, dir, init[k]);
          assert files[k] == init[k];
        } else {
          assert EntryOf(x, dir, files[|files| - 1]);
        }
      }
    }
  }

  /** Extensions that only the later six-row table knows, such as ".doc" and ".zip", are "Otros" here. */
  lemma SmallTableOmits(name: string)
    requires Lower(Extension(name)) == ".doc" || Lower(Extension(name)) == ".zip"
    ensures Classify(SmallTable, name) == Otros
  {
    var ext := Lower(Extension(name));
    SmallTableValid();
    assert ext !in SmallTable[0].1 && ext !in SmallTable[1].1;
    assert ext !in SmallTable[2].1 && ext !in SmallTable[3].1;
    ClassifyOtros(SmallTable, name);
  }
}
