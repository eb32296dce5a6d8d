/**
 * GestorIA7.py: `scan_directory` returns the total size, the top files,
 * the per-category totals and the error count of one walk.
 */
module GestorIA7 {
  import opened Wrappers
  import opened FileTree
  import opened Classifier
  import opened DefaultDict
  import opened Bookkeeping
  import TopN

  /**
   * The inner `for f in files` loop over the files of one directory:
   * each is recorded and checked with the two-read heuristic.
   */
  method ScanFiles(ghost before: seq<Walked>, entry: WalkEntry,
                   filesInfo0: seq<FileRecord>, categorySizes0: Dict<Category>, errors0: nat)
    returns (filesInfo: seq<FileRecord>, categorySizes: Dict<Category>, errors: nat)
    requires Tallied(before, filesInfo0, categorySizes0, errors0)
    ensures Tallied(before + EntryFiles(entry), filesInfo, categorySizes, errors)
  {
    filesInfo, categorySizes, errors := filesInfo0, categorySizes0, errors0;
    ghost var done := before;
    assert EntryFiles(entry)[..0] == [];
    for j := 0 to |entry.files|
      invariant done == before + EntryFiles(entry)[..j]
      invariant Tallied(done, filesInfo, categorySizes, errors)
    {
      var f := entry.files[j];
      ghost var w := Walked(entry.dirpath, f);
      EntryFilesStep(before, entry, j);
      var size;
      filesInfo, categorySizes, errors, size := RecordFile(done, entry.dirpath, f, filesInfo, categorySizes, errors);
      done := done + [w];
    }
    assert EntryFiles(entry)[..|entry.files|] == EntryFiles(entry);
  }

  /**
   * One pass over the walk. Besides the program's four results the model
   * returns `files_info`, so that its contents can be stated.
   */
  method ScanDirectory(walk: Walk, topNFiles: int)
    returns (totalSize: nat, topFiles: seq<FileRecord>, categorySizes: Dict<Category>, errors: nat,
             filesInfo: seq<FileRecord>)
    ensures filesInfo == Records(Files(walk))
    ensures Valid(categorySizes) && IsCategoryTotals(categorySizes, filesInfo)
    ensures totalSize == Total(categorySizes) == SumSizes(filesInfo)
    ensures errors == ErrorCount(Files(walk)) <= |filesInfo|
    ensures topFiles == TopN.Top(filesInfo, topNFiles, Size)
    ensures Files(walk) == [] ==>
      totalSize == 0 && topFiles == [] && categorySizes.m == map[] && errors == 0
  {
    categorySizes := Empty();
    filesInfo := [];
    errors := 0;
    for i := 0 to |walk|
      invariant Tallied(Files(walk[..i]), filesInfo, categorySizes, errors)
    {
      FilesStep(walk, i);
      filesInfo, categorySizes, errors := ScanFiles(Files(walk[..i]), walk[i], filesInfo, categorySizes, errors);
    }
    assert walk[..|walk|] == walk;
    topFiles := TopN.Top(filesInfo, topNFiles, Size);
    totalSize := Total(categorySizes);
    ErrorCountBound(Files(walk));
    if Files(walk) == [] {
      RecordedNothing(filesInfo, categorySizes);
    }
  }
}
