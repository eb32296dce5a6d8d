/**
 * GestorIA4.py: its `scan_directory` is the code of GestorIA5.py and is
 * modelled there. What this module adds is the main loop over the user's
 * folders: scan each folder that exists, merge its positive category
 * totals into `categorias_global`, note `(nombre, total)` in `resumen`, and
 * finally order `resumen` by total, largest first.
 */
module GestorIA4 {
  import opened FileTree
  import opened Classifier
  import opened DefaultDict
  import opened Bookkeeping
  import TopN
  import GestorIA5

  /** One entry of `target_folders`, with the answer of `os.path.exists` (`present`) and the walk of the folder. */
  datatype Target = Target(nombre: string, ruta: string, present: bool, walk: Walk)

  /** The bytes a scan of `walk` reports. */
  function ScanTotal(walk: Walk): nat {
    SumSizes(Records(Files(walk)))
  }

  /** The bytes of category `c` that a scan of `walk` reports. */
  function ScanCategory(walk: Walk, c: Category): nat {
    CatTotal(Records(Files(walk)), c)
  }

  /** `resumen`: one `(nombre, total)` per existing folder, in the order of `target_folders`. */
  function Summary(targets: seq<Target>): seq<(string, nat)> {
    if targets == [] then []
    else
      var t := targets[|targets| - 1];
      Summary(targets[..|targets| - 1]) + (if t.present then [(t.nombre, ScanTotal(t.walk))] else [])
  }

  /** The bytes of category `c` over all existing folders. */
  function GlobalCategory(targets: seq<Target>, c: Category): nat {
    if targets == [] then 0
    else
      var t := targets[|targets| - 1];
      GlobalCategory(targets[..|targets| - 1], c) + (if t.present then ScanCategory(t.walk, c) else 0)
  }

  /** A dict that holds a key only with a positive value. */
  ghost predicate PositiveDict(g: Dict<Category>) {
    Valid(g) && forall c :: c in g.m ==> g.m[c] > 0
  }

  /** The body of the merge loop: `categorias_global[cat] += size` when the size is positive. */
  method MergeItem(global0: Dict<Category>, item: (Category, nat)) returns (global: Dict<Category>)
    requires PositiveDict(global0)
    ensures PositiveDict(global)
    ensures forall c :: Get(global, c) == Get(global0, c) + PositiveAt(c)(item)
  {
    var (cat, size) := item;
    if size > 0 {
      global := Add(global0, cat, size);
    } else {
      global := global0;
    }
  }

  lemma MergeSumsStep(items: seq<(Category, nat)>, k: nat)
    requires k < |items|
    ensures forall c :: (TopN.SumBy(items[..k + 1], PositiveAt(c)) ==
      TopN.SumBy(items[..k], PositiveAt(c)) + PositiveAt(c)(items[k]))
  {
    assert items[..k + 1] == items[..k] + [items[k]];
    forall c ensures TopN.SumBy(items[..k + 1], PositiveAt(c)) ==
      TopN.SumBy(items[..k], PositiveAt(c)) + PositiveAt(c)(items[k])
    {
      TopN.SumByAppend(items[..k], items[k], PositiveAt(c));
    }
  }

  /** Over the sorted items, the positive values of each category add up to its value in `cats`. */
  lemma SortedItemsSums(cats: Dict<Category>)
    requires Valid(cats)
    ensures forall c :: TopN.SumBy(TopN.SortDesc(Items(cats), Value), PositiveAt(c)) == Get(cats, c)
  {
    forall c ensures TopN.SumBy(TopN.SortDesc(Items(cats), Value), PositiveAt(c)) == Get(cats, c) {
      TopN.SortDescSumBy(Items(cats), Value, PositiveAt(c));
      ItemsPositiveAt(cats.m, cats.order, c);
    }
  }

  /**
   * The loop over `sorted(cats.items(), key=size, reverse=True)` that adds
   * each positive size into `categorias_global`: every category gains
   * exactly its value in `cats`, and no key is created for a zero.
   */
  method MergeCategories(global0: Dict<Category>, cats: Dict<Category>) returns (global: Dict<Category>)
    requires PositiveDict(global0) && Valid(cats)
    ensures PositiveDict(global)
    ensures forall c :: Get(global, c) == Get(global0, c) + Get(cats, c)
  {
    var items := TopN.SortDesc(Items(cats), Value);
    global := global0;
    for k := 0 to |items|
      invariant PositiveDict(global)
      invariant forall c :: Get(global, c) == Get(global0, c) + TopN.SumBy(items[..k], PositiveAt(c))
    {
      MergeSumsStep(items, k);
      global := MergeItem(global, items[k]);
    }
    assert items[..|items|] == items;
    SortedItemsSums(cats);
  }

  /** One folder of the main loop: scan it if it exists, then merge and note its total. */
  method AnalyzeFolder(t: Target, resumen0: seq<(string, nat)>, global0: Dict<Category>)
    returns (resumen: seq<(string, nat)>, global: Dict<Category>)
    requires PositiveDict(global0)
    ensures PositiveDict(global)
    ensures resumen == resumen0 + (if t.present then [(t.nombre, ScanTotal(t.walk))] else [])
    ensures forall c :: Get(global, c) == Get(global0, c) + (if t.present then ScanCategory(t.walk, c) else 0)
  {
    if !t.present {
      return resumen0, global0;
    }
    var total, topFiles, cats, errors, filesInfo, folderSizes := GestorIA5.ScanDirectory(t.ruta, t.walk, 10);
    global := MergeCategories(global0, cats);
    forall c ensures Get(cats, c) == ScanCategory(t.walk, c) {
      CategoryGet(cats, filesInfo, c);
    }
    resumen := resumen0 + [(t.nombre, total)];
  }

  /**
   * The main loop. `categorias_global` holds, per category, the bytes of
   * that category over all existing folders, and has a key exactly for the
   * categories with a positive sum; `ordered` is `resumen` in non-increasing
   * order of total, a permutation of it.
   */
  method AnalyzeUserFolders(targets: seq<Target>)
    returns (resumen: seq<(string, nat)>, categoriasGlobal: Dict<Category>, ordered: seq<(string, nat)>)
    ensures resumen == Summary(targets)
    ensures Valid(categoriasGlobal)
    ensures forall c :: Get(categoriasGlobal, c) == GlobalCategory(targets, c)
    ensures forall c :: c in categoriasGlobal.m <==> GlobalCategory(targets, c) > 0
    ensures TopN.NonIncreasing(ordered, Value) && multiset(ordered) == multiset(resumen)
    ensures forall v :: TopN.WithKey(ordered, Value, v) == TopN.WithKey(resumen, Value, v)
  {
    resumen := [];
    categoriasGlobal := Empty();
    for i := 0 to |targets|
      invariant PositiveDict(categoriasGlobal)
      invariant resumen == Summary(targets[..i])
      invariant forall c :: Get(categoriasGlobal, c) == GlobalCategory(targets[..i], c)
    {
      assert targets[..i + 1][..i] == targets[..i];
      resumen, categoriasGlobal := AnalyzeFolder(targets[i], resumen, categoriasGlobal);
    }
    assert targets[..|targets|] == targets;
    ordered := TopN.SortDesc(resumen, Value);
    forall v ensures TopN.WithKey(ordered, Value, v) == TopN.WithKey(resumen, Value, v) {
      TopN.SortDescStable(resumen, Value, v);
    }
  }
}
