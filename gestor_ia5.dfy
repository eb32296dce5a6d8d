/**
 * GestorIA5.py: `scan_directory` with a folder map that only ever gets the
 * key `base_path`; the total is the sum of that map's values.
 */
module GestorIA5 {
  import opened Wrappers
  import opened FileTree
  import opened Classifier
  import opened DefaultDict
  import opened Bookkeeping
  import TopN

  /**
   * The folder map after recording `filesInfo`: empty while there is no
   * record, afterwards the single key `basePath` holding their size sum.
   */
  ghost predicate BaseOnly(folderSizes: Dict<string>, basePath: string, filesInfo: seq<FileRecord>) {
    && Valid(folderSizes)
    && folderSizes.order == (if |filesInfo| > 0 then [basePath] else [])
    && Get(folderSizes, basePath) == SumSizes(filesInfo)
  }

  lemma BaseStep(folderSizes: Dict<string>, basePath: string, filesInfo: seq<FileRecord>,
                 filesInfo': seq<FileRecord>, size: nat)
    requires BaseOnly(folderSizes, basePath, filesInfo)
    requires |filesInfo'| > 0 && SumSizes(filesInfo') == SumSizes(filesInfo) + size
    ensures BaseOnly(Add(folderSizes, basePath, size), basePath, filesInfo')
  {
  }

  /** The body of the inner loop: RecordFile, then `folder_sizes[base_path] += size`. */
  method RecordFileAt(ghost done: seq<Walked>, basePath: string, dirpath: Path, f: FileEntry,
                      filesInfo: seq<FileRecord>, categorySizes: Dict<Category>, errors: nat,
                      folderSizes: Dict<string>)
    returns (filesInfo': seq<FileRecord>, categorySizes': Dict<Category>, errors': nat,
             folderSizes': Dict<string>)
    requires Tallied(done, filesInfo, categorySizes, errors)
    requires BaseOnly(folderSizes, basePath, filesInfo)
    ensures Tallied(done + [Walked(dirpath, f)], filesInfo', categorySizes', errors')
    ensures BaseOnly(folderSizes', basePath, filesInfo')
  {
    var size;
    filesInfo', categorySizes', errors', size := RecordFile(done, dirpath, f, filesInfo, categorySizes, errors);
    BaseStep(folderSizes, basePath, filesInfo, filesInfo', size);
    folderSizes' := Add(folderSizes, basePath, size);
  }

  /**
   * The inner `for f in files` loop over the files of one directory: each
   * is recorded, checked with the two-read heuristic, and its size added to
   * `folder_sizes[base_path]`.
   */
  method ScanFiles(ghost before: seq<Walked>, basePath: string, entry: WalkEntry,
                   filesInfo0: seq<FileRecord>, categorySizes0: Dict<Category>, errors0: nat,
                   folderSizes0: Dict<string>)
    returns (filesInfo: seq<FileRecord>, categorySizes: Dict<Category>, errors: nat,
             folderSizes: Dict<string>)
    requires Tallied(before, filesInfo0, categorySizes0, errors0)
    requires BaseOnly(folderSizes0, basePath, filesInfo0)
    ensures Tallied(before + EntryFiles(entry), filesInfo, categorySizes, errors)
    ensures BaseOnly(folderSizes, basePath, filesInfo)
  {
    filesInfo, categorySizes, errors, folderSizes := filesInfo0, categorySizes0, errors0, folderSizes0;
    ghost var done := before;
    assert EntryFiles(entry)[..0] == [];
    for j := 0 to |entry.files|
      invariant done == before + EntryFiles(entry)[..j]
      invariant Tallied(done, filesInfo, categorySizes, errors)
      invariant BaseOnly(folderSizes, basePath, filesInfo)
    {
      var f := entry.files[j];
      ghost var w := Walked(entry.dirpath, f);
      EntryFilesStep(before, entry, j);
      filesInfo, categorySizes, errors, folderSizes :=
        RecordFileAt(done, basePath, entry.dirpath, f, filesInfo, categorySizes, errors, folderSizes);
      done := done + [w];
    }
    assert EntryFiles(entry)[..|entry.files|] == EntryFiles(entry);
  }

  /**
   * One pass over the walk of `basePath`. Besides the program's four
   * results the model returns `files_info` and `folder_sizes`.
   */
  method ScanDirectory(basePath: string, walk: Walk, topNFiles: int)
    returns (totalSize: nat, topFiles: seq<FileRecord>, categorySizes: Dict<Category>, errors: nat,
             filesInfo: seq<FileRecord>, folderSizes: Dict<string>)
    ensures filesInfo == Records(Files(walk))
    ensures Valid(categorySizes) && IsCategoryTotals(categorySizes, filesInfo)
    ensures Valid(folderSizes) && forall p :: p in folderSizes.m ==> p == basePath
    ensures basePath in folderSizes.m <==> filesInfo != []
    ensures totalSize == Get(folderSizes, basePath) == Total(categorySizes) == SumSizes(filesInfo)
    ensures errors == ErrorCount(Files(walk)) <= |filesInfo|
    ensures topFiles == TopN.Top(filesInfo, topNFiles, Size)
  {
    folderSizes := Empty();
    categorySizes := Empty();
    filesInfo := [];
    errors := 0;
    for i := 0 to |walk|
      invariant Tallied(Files(walk[..i]), filesInfo, categorySizes, errors)
      invariant BaseOnly(folderSizes, basePath, filesInfo)
    {
      FilesStep(walk, i);
      filesInfo, categorySizes, errors, folderSizes :=
        ScanFiles(Files(walk[..i]), basePath, walk[i], filesInfo, categorySizes, errors, folderSizes);
    }
    assert walk[..|walk|] == walk;
    topFiles := TopN.Top(filesInfo, topNFiles, Size);
    if |filesInfo| > 0 {
      TotalOneKey(folderSizes, basePath);
    }
    totalSize := Total(folderSizes);
    ErrorCountBound(Files(walk));
  }
}
