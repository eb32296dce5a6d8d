/**
 * The filesystem as an input value. `os.walk` becomes a sequence of walk
 * entries, and each call of `os.path.getsize` or `os.path.isfile` on a
 * listed file becomes an answer stored with that file.
 */
module FileTree {
  import opened Wrappers

  /** A path as its sequence of components; `os.path.join` appends one. */
  type Path = seq<string>

  /**
   * A file as `os.walk` lists it: its name, whether `os.path.isfile` holds
   * for it, and the outcomes of the two `os.path.getsize` calls the scanners
   * make on its path (None when the call raised). In the later scanners
   * these are `safe_getsize` and the re-read of the error check; in
   * GestorIA.py they are the read of the folder sum and the read of the
   * file loop.
   */
  datatype FileEntry = FileEntry(name: string, isFile: bool, firstRead: Option<nat>, secondRead: Option<nat>)

  /** One `(dirpath, dirnames, filenames)` triple of `os.walk`; dirnames is not used. */
  datatype WalkEntry = WalkEntry(dirpath: Path, files: seq<FileEntry>)

  type Walk = seq<WalkEntry>

  /** A listed file together with the directory that lists it. */
  datatype Walked = Walked(dir: Path, file: FileEntry)

  /** `os.path.join(dirpath, name)`. */
  function FilePath(w: Walked): Path {
    w.dir + [w.file.name]
  }

  function EntryFiles(e: WalkEntry): seq<Walked> {
    seq(|e.files|, k requires 0 <= k < |e.files| => Walked(e.dirpath, e.files[k]))
  }

  /** Every listed file, in the order of the nested `for` loops over the walk. */
  function Files(walk: Walk): seq<Walked> {
    if walk == [] then [] else Files(walk[..|walk| - 1]) + EntryFiles(walk[|walk| - 1])
  }

  lemma FilesStep(walk: Walk, i: nat)
    requires i < |walk|
    ensures Files(walk[..i + 1]) == Files(walk[..i]) + EntryFiles(walk[i])
  {
    assert walk[..i + 1][..i] == walk[..i];
  }

  /** `os.walk(base)` lists `base` and directories below it, nothing else. */
  ghost predicate Below(walk: Walk, base: Path) {
    forall i :: 0 <= i < |walk| ==> base <= walk[i].dirpath
  }

  /** Every file of a walk below `base` is listed in a directory below `base`. */
  lemma {:induction false} FilesBelow(walk: Walk, base: Path)
    requires Below(walk, base)
    ensures forall k :: 0 <= k < |Files(walk)| ==> base <= Files(walk)[k].dir
  {
    if walk != [] {
      var init := walk[..|walk| - 1];
      assert Below(init, base) by {
        forall i | 0 <= i < |init| ensures base <= init[i].dirpath {
          assert init[i] == walk[i];
        }
      }
      FilesBelow(init, base);
      var fs := Files(walk);
      forall k | 0 <= k < |fs| ensures base <= fs[k].dir {
        if k >= |Files(init)| {
          assert fs[k] == EntryFiles(walk[|walk| - 1])[k - |Files(init)|];
        } else {
          assert fs[k] == Files(init)[k];
        }
      }
    }
  }

  /** `safe_getsize`: the first read, or 0 when it raised. */
  function SafeGetSize(f: FileEntry): (r: nat)
    ensures f.firstRead == Some(r) || (f.firstRead == None && r == 0)
  {
    match f.firstRead
    case Some(n) => n
    case None => 0
  }

  /**
   * The two-read heuristic: a first read of 0 (or a failed one) counts as
   * an error unless a second read answers exactly 0.
   */
  predicate CountsAsError(f: FileEntry)
    ensures CountsAsError(f) <==>
      (f.firstRead == None || f.firstRead == Some(0)) && (f.secondRead == None || f.secondRead.value != 0)
  {
    SafeGetSize(f) == 0 && f.secondRead != Some(0)
  }

  /** The number of listed files that count as errors. */
  function ErrorCount(ws: seq<Walked>): nat {
    if ws == [] then 0
    else ErrorCount(ws[..|ws| - 1]) + (if CountsAsError(ws[|ws| - 1].file) then 1 else 0)
  }

  /** The number of listed files whose first read gives 0 (or fails). */
  function ZeroCount(ws: seq<Walked>): nat {
    if ws == [] then 0
    else ZeroCount(ws[..|ws| - 1]) + (if SafeGetSize(ws[|ws| - 1].file) == 0 then 1 else 0)
  }

  /** Only a file read as 0 can be an error, so errors never outnumber such files, nor all files. */
  lemma {:induction false} ErrorCountBound(ws: seq<Walked>)
    ensures ErrorCount(ws) <= ZeroCount(ws) <= |ws|
  {
    if ws != [] {
      ErrorCountBound(ws[..|ws| - 1]);
    }
  }

  lemma CountsStep(ws: seq<Walked>, w: Walked)
    ensures ErrorCount(ws + [w]) == ErrorCount(ws) + (if CountsAsError(w.file) then 1 else 0)
  {
    assert (ws + [w])[..|ws|] == ws;
  }

  lemma EntryFilesStep(before: seq<Walked>, e: WalkEntry, j: nat)
    requires j < |e.files|
    ensures before + EntryFiles(e)[..j + 1] == (before + EntryFiles(e)[..j]) + [Walked(e.dirpath, e.files[j])]
  {
    assert EntryFiles(e)[..j + 1] == EntryFiles(e)[..j] + [Walked(e.dirpath, e.files[j])];
  }
}
