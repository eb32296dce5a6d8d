/**
 * The `(path, size, category)` records of `files_info` and the
 * per-category totals of `category_sizes`, as functions of the listed
 * files; the scanners are proved to compute them.
 */
module Bookkeeping {
  import opened FileTree
  import opened Classifier
  import opened DefaultDict

  datatype FileRecord = FileRecord(path: Path, size: nat, category: Category)

  function Size(r: FileRecord): nat {
    r.size
  }

  /** The record a scanner appends for a listed file: its safe size and its category. */
  function ToRecord(w: Walked): FileRecord {
    FileRecord(FilePath(w), SafeGetSize(w.file), Classify(FullTable, w.file.name))
  }

  function Records(ws: seq<Walked>): seq<FileRecord> {
    seq(|ws|, k requires 0 <= k < |ws| => ToRecord(ws[k]))
  }

  function SumSizes(rs: seq<FileRecord>): nat {
    if rs == [] then 0 else SumSizes(rs[..|rs| - 1]) + rs[|rs| - 1].size
  }

  /** The bytes of the records of category `c`. */
  function CatTotal(rs: seq<FileRecord>, c: Category): nat {
    if rs == [] then 0
    else CatTotal(rs[..|rs| - 1], c) + (if rs[|rs| - 1].category == c then rs[|rs| - 1].size else 0)
  }

  ghost predicate HasCategory(rs: seq<FileRecord>, c: Category) {
    exists k :: 0 <= k < |rs| && rs[k].category == c
  }

  /**
   * `category_sizes` after recording `rs`: a key for each category that
   * occurs, holding the bytes of that category.
   */
  ghost predicate IsCategoryTotals(d: Dict<Category>, rs: seq<FileRecord>) {
    forall c :: (c in d.m <==> HasCategory(rs, c)) && (c in d.m ==> d.m[c] == CatTotal(rs, c))
  }

  lemma RecordsStep(ws: seq<Walked>, w: Walked)
    ensures Records(ws + [w]) == Records(ws) + [ToRecord(w)]
  {
  }

  lemma SumsStep(rs: seq<FileRecord>, r: FileRecord)
    ensures SumSizes(rs + [r]) == SumSizes(rs) + r.size
    ensures forall c :: CatTotal(rs + [r], c) == CatTotal(rs, c) + (if r.category == c then r.size else 0)
  {
    assert (rs + [r])[..|rs|] == rs;
  }

  /** `category_sizes[cat] += size` keeps `category_sizes` the category totals of the records. */
  lemma CategoryStep(d: Dict<Category>, rs: seq<FileRecord>, r: FileRecord)
    requires Valid(d) && IsCategoryTotals(d, rs)
    ensures IsCategoryTotals(Add(d, r.category, r.size), rs + [r])
  {
    SumsStep(rs, r);
    var rs' := rs + [r];
    forall c ensures HasCategory(rs', c) <==> HasCategory(rs, c) || c == r.category {
      if HasCategory(rs, c) {
        var k :| 0 <= k < |rs| && rs[k].category == c;
        assert rs'[k] == rs[k];
      }
      if HasCategory(rs', c) && c != r.category {
        var k :| 0 <= k < |rs'| && rs'[k].category == c;
        assert k < |rs| && rs'[k] == rs[k];
      }
      assert rs'[|rs|] == r;
    }
    forall c ensures Get(d, c) == CatTotal(rs, c) {
      CategoryGet(d, rs, c);
    }
  }

  /** A category that no record has totals 0. */
  lemma {:induction false} CatTotalAbsent(rs: seq<FileRecord>, c: Category)
    requires !HasCategory(rs, c)
    ensures CatTotal(rs, c) == 0
  {
    if rs != [] {
      var init := rs[..|rs| - 1];
      CatTotalAbsent(init, c);
      assert rs[|rs| - 1].category != c;
    }
  }

  /** With the category totals of `rs`, reading a missing key as 0 gives every category's bytes. */
  lemma CategoryGet(d: Dict<Category>, rs: seq<FileRecord>, c: Category)
    requires IsCategoryTotals(d, rs)
    ensures Get(d, c) == CatTotal(rs, c)
  {
    if c !in d.m {
      CatTotalAbsent(rs, c);
    }
  }

  /**
   * What `files_info` and `category_sizes` hold once the files `ws` are
   * recorded: one record per file, in order, and per-category totals whose
   * values add up to the bytes recorded.
   */
  ghost predicate Recorded(ws: seq<Walked>, filesInfo: seq<FileRecord>, categorySizes: Dict<Category>) {
    && filesInfo == Records(ws)
    && Valid(categorySizes)
    && IsCategoryTotals(categorySizes, filesInfo)
    && Total(categorySizes) == SumSizes(filesInfo)
  }

  /** Recorded, and `errors` is the number of files of `ws` that count as errors. */
  ghost predicate Tallied(ws: seq<Walked>, filesInfo: seq<FileRecord>, categorySizes: Dict<Category>, errors: nat) {
    Recorded(ws, filesInfo, categorySizes) && errors == ErrorCount(ws)
  }

  /** Recording one more file: append its record and add its size to its category. */
  lemma RecordStep(ws: seq<Walked>, w: Walked, filesInfo: seq<FileRecord>, categorySizes: Dict<Category>)
    requires Recorded(ws, filesInfo, categorySizes)
    ensures Recorded(ws + [w], filesInfo + [ToRecord(w)],
                     Add(categorySizes, ToRecord(w).category, ToRecord(w).size))
  {
    var r := ToRecord(w);
    RecordsStep(ws, w);
    SumsStep(filesInfo, r);
    CategoryStep(categorySizes, filesInfo, r);
    AddTotal(categorySizes, r.category, r.size);
  }

  /** Nothing recorded: no record, no category key, nothing counted. */
  lemma RecordedNothing(filesInfo: seq<FileRecord>, categorySizes: Dict<Category>)
    requires Recorded([], filesInfo, categorySizes)
    ensures filesInfo == [] && categorySizes.m == map[] && Total(categorySizes) == 0
  {
    assert forall c :: c !in categorySizes.m;
  }

  /**
   * The body of the scanners' inner loop for one listed file: read its size
   * with `safe_getsize`, apply the two-read error heuristic, classify it,
   * add its size to its category and append its record.
   */
  method RecordFile(ghost done: seq<Walked>, dirpath: Path, f: FileEntry,
                    filesInfo: seq<FileRecord>, categorySizes: Dict<Category>, errors: nat)
    returns (filesInfo': seq<FileRecord>, categorySizes': Dict<Category>, errors': nat, size: nat)
    requires Tallied(done, filesInfo, categorySizes, errors)
    ensures Tallied(done + [Walked(dirpath, f)], filesInfo', categorySizes', errors')
    ensures errors' == errors + (if CountsAsError(f) then 1 else 0)
    ensures size == SafeGetSize(f)
    ensures filesInfo' == filesInfo + [ToRecord(Walked(dirpath, f))]
    ensures SumSizes(filesInfo') == SumSizes(filesInfo) + size
  {
    CountsStep(done, Walked(dirpath, f));
    errors' := errors;
    size := SafeGetSize(f);
    if size == 0 {
      // an empty file is not an error; a second read that fails or is not 0 is
      match f.secondRead
      case None => errors' := errors' + 1;
      case Some(n) => if n != 0 { errors' := errors' + 1; }
    }
    var cat := Classify(FullTable, f.name);
    RecordStep(done, Walked(dirpath, f), filesInfo, categorySizes);
    categorySizes' := Add(categorySizes, cat, size);
    filesInfo' := filesInfo + [FileRecord(dirpath + [f.name], size, cat)];
    SumsStep(filesInfo, ToRecord(Walked(dirpath, f)));
  }
}
