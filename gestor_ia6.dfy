/**
 * GestorIA6.py: `scan_directory` skips every file whose size reads as 0
 * (or cannot be read), keeps no error count, and sums the sizes of the
 * records it kept.
 */
module GestorIA6 {
  import opened FileTree
  import opened Classifier
  import opened DefaultDict
  import opened Bookkeeping
  import TopN

  /**
   * The listed files that the `if size == 0: continue` guard lets through,
   * in order: all of the listing except the files read as 0.
   */
  function Kept(ws: seq<Walked>): (r: seq<Walked>)
    ensures |r| + ZeroCount(ws) == |ws|
  {
    if ws == [] then []
    else
      var init, last := ws[..|ws| - 1], ws[|ws| - 1];
      assert ws == init + [last];
      Kept(init) + (if SafeGetSize(last.file) > 0 then [last] else [])
  }

  lemma KeptStep(ws: seq<Walked>, w: Walked)
    ensures Kept(ws + [w]) == Kept(ws) + (if SafeGetSize(w.file) > 0 then [w] else [])
  {
    assert (ws + [w])[..|ws|] == ws;
  }

  /** Every kept file has a positive size. */
  lemma {:induction false} KeptPositive(ws: seq<Walked>)
    ensures forall k :: 0 <= k < |Kept(ws)| ==> SafeGetSize(Kept(ws)[k].file) > 0
  {
    if ws != [] {
      KeptPositive(ws[..|ws| - 1]);
    }
  }

  /** The guard keeps exactly the listed files whose size is positive. */
  lemma {:induction false} KeptMembers(ws: seq<Walked>)
    ensures forall w :: w in Kept(ws) <==> w in ws && SafeGetSize(w.file) > 0
  {
    if ws != [] {
      var init, last := ws[..|ws| - 1], ws[|ws| - 1];
      assert ws == init + [last];
      KeptMembers(init);
    }
  }

  /** Skipping the files read as 0 loses no bytes: the kept records add up to all files' sizes. */
  lemma {:induction false} KeptTotal(ws: seq<Walked>)
    ensures SumSizes(Records(Kept(ws))) == SumSizes(Records(ws))
  {
    if ws != [] {
      var init, w := ws[..|ws| - 1], ws[|ws| - 1];
      assert ws == init + [w];
      var size := SafeGetSize(w.file);
      KeptTotal(init);
      KeptStep(init, w);
      RecordSumStep(init, w);
      if size > 0 {
        assert Kept(ws) == Kept(init) + [w];
        RecordSumStep(Kept(init), w);
      } else {
        assert Kept(ws) == Kept(init);
      }
    }
  }

  lemma RecordSumStep(ws: seq<Walked>, w: Walked)
    ensures SumSizes(Records(ws + [w])) == SumSizes(Records(ws)) + SafeGetSize(w.file)
  {
    RecordsStep(ws, w);
    SumsStep(Records(ws), ToRecord(w));
  }

  /** With only positive records, every category that occurs has a positive total. */
  lemma {:induction false} PositiveCatTotal(rs: seq<FileRecord>, c: Category)
    requires forall k :: 0 <= k < |rs| ==> rs[k].size > 0
    requires HasCategory(rs, c)
    ensures CatTotal(rs, c) > 0
  {
    var init := rs[..|rs| - 1];
    if rs[|rs| - 1].category != c {
      var k :| 0 <= k < |rs| && rs[k].category == c;
      assert init[k] == rs[k];
      PositiveCatTotal(init, c);
    }
  }

  /** Category totals of positive records are positive. */
  lemma PositiveTotals(d: Dict<Category>, rs: seq<FileRecord>)
    requires IsCategoryTotals(d, rs)
    requires forall k :: 0 <= k < |rs| ==> rs[k].size > 0
    ensures forall c :: c in d.m ==> d.m[c] > 0
  {
    forall c | c in d.m ensures d.m[c] > 0 {
      PositiveCatTotal(rs, c);
    }
  }

  /** The body of the inner loop: skip a file read as 0, otherwise record it. */
  method KeepFile(ghost done: seq<Walked>, dirpath: Path, f: FileEntry,
                  filesInfo: seq<FileRecord>, categorySizes: Dict<Category>)
    returns (filesInfo': seq<FileRecord>, categorySizes': Dict<Category>)
    requires Recorded(Kept(done), filesInfo, categorySizes)
    ensures Recorded(Kept(done + [Walked(dirpath, f)]), filesInfo', categorySizes')
  {
    KeptStep(done, Walked(dirpath, f));
    var size := SafeGetSize(f);
    if size == 0 {
      return filesInfo, categorySizes;
    }
    var cat := Classify(FullTable, f.name);
    RecordStep(Kept(done), Walked(dirpath, f), filesInfo, categorySizes);
    categorySizes' := Add(categorySizes, cat, size);
    filesInfo' := filesInfo + [FileRecord(dirpath + [f.name], size, cat)];
  }

  /** The inner `for name in filenames` loop over the files of one directory. */
  method ScanFiles(ghost before: seq<Walked>, entry: WalkEntry,
                   filesInfo0: seq<FileRecord>, categorySizes0: Dict<Category>)
    returns (filesInfo: seq<FileRecord>, categorySizes: Dict<Category>)
    requires Recorded(Kept(before), filesInfo0, categorySizes0)
    ensures Recorded(Kept(before + EntryFiles(entry)), filesInfo, categorySizes)
  {
    filesInfo, categorySizes := filesInfo0, categorySizes0;
    ghost var done := before;
    assert EntryFiles(entry)[..0] == [];
    for j := 0 to |entry.files|
      invariant done == before + EntryFiles(entry)[..j]
      invariant Recorded(Kept(done), filesInfo, categorySizes)
    {
      var f := entry.files[j];
      EntryFilesStep(before, entry, j);
      filesInfo, categorySizes := KeepFile(done, entry.dirpath, f, filesInfo, categorySizes);
      done := done + [Walked(entry.dirpath, f)];
    }
    assert EntryFiles(entry)[..|entry.files|] == EntryFiles(entry);
  }

  /**
   * One pass over the walk. The records are those of the files with a
   * positive size, each category that occurs holds a positive total, and
   * the total is every listed file's size added up.
   */
  method ScanDirectory(walk: Walk, topNFiles: int)
    returns (totalSize: nat, topFiles: seq<FileRecord>, categorySizes: Dict<Category>,
             filesInfo: seq<FileRecord>)
    ensures filesInfo == Records(Kept(Files(walk)))
    ensures |filesInfo| + ZeroCount(Files(walk)) == |Files(walk)|
    ensures forall k :: 0 <= k < |filesInfo| ==> filesInfo[k].size > 0
    ensures Valid(categorySizes) && IsCategoryTotals(categorySizes, filesInfo)
    ensures forall c :: c in categorySizes.m ==> categorySizes.m[c] > 0
    ensures totalSize == SumSizes(filesInfo) == Total(categorySizes) == SumSizes(Records(Files(walk)))
    ensures topFiles == TopN.Top(filesInfo, topNFiles, Size)
  {
    categorySizes := Empty();
    filesInfo := [];
    for i := 0 to |walk|
      invariant Recorded(Kept(Files(walk[..i])), filesInfo, categorySizes)
    {
      FilesStep(walk, i);
      filesInfo, categorySizes := ScanFiles(Files(walk[..i]), walk[i], filesInfo, categorySizes);
    }
    assert walk[..|walk|] == walk;
    topFiles := TopN.Top(filesInfo, topNFiles, Size);
    totalSize := SumSizes(filesInfo);
    KeptPositive(Files(walk));
    KeptTotal(Files(walk));
    PositiveTotals(categorySizes, filesInfo);
  }
}
