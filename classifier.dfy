/**
 * The extension classifier `get_category`: take the extension of a file
 * name as `os.path.splitext` does, lowercase it, and look it up in an
 * ordered category table; a name whose extension is in no set is "Otros".
 */
module Classifier {
  import opened Wrappers

  datatype Category = Videos | Musica | Imagenes | Documentos | Comprimidos | Instaladores | Otros

  /** A category table, in the iteration order of the program's dict. */
  type Table = seq<(Category, set<string>)>

  /** The six-category table shared by GestorIA2/4/5/6/7. */
  const FullTable: Table := [
    (Videos, {".mp4", ".mkv", ".avi", ".mov", ".wmv", ".flv", ".mpeg", ".mpg"}),
    (Musica, {".mp3", ".wav", ".flac", ".aac", ".m4a", ".ogg", ".wma"}),
    (Imagenes, {".jpg", ".jpeg", ".png", ".gif", ".bmp", ".tiff", ".webp", ".heic"}),
    (Documentos, {".pdf", ".doc", ".docx", ".xls", ".xlsx", ".ppt", ".pptx", ".txt", ".csv", ".md"}),
    (Comprimidos, {".zip", ".rar", ".7z", ".tar", ".gz"}),
    (Instaladores, {".exe", ".msi", ".apk", ".dmg", ".pkg"})
  ]

  /** The four-category table of the first version, GestorIA.py (its lists are read as sets). */
  const SmallTable: Table := [
    (Videos, {".mp4", ".mkv", ".avi", ".mov"}),
    (Musica, {".mp3", ".wav", ".flac"}),
    (Imagenes, {".jpg", ".jpeg", ".png", ".gif", ".bmp"}),
    (Documentos, {".pdf", ".docx", ".xlsx", ".pptx", ".txt"})
  ]

  /**
   * A table whose lookup does not depend on its order: no row is the
   * fallback, no category has two rows, no extension is in two rows, and
   * the empty extension is in none.
   */
  ghost predicate ValidTable(t: Table) {
    && (forall i :: 0 <= i < |t| ==> t[i].0 != Otros && "" !in t[i].1)
    && (forall i, j :: 0 <= i < j < |t| ==> t[i].0 != t[j].0 && t[i].1 !! t[j].1)
  }

  /** ASCII lowercasing of one character. */
  function LowerChar(c: char): char {
    if 'A' <= c <= 'Z' then (c as int - 'A' as int + 'a' as int) as char else c
  }

  /** ASCII lowercasing: upper-case letters become lower-case, every other character stays. */
  function Lower(s: string): (r: string)
    ensures |r| == |s|
    ensures forall i :: 0 <= i < |s| ==> !('A' <= r[i] <= 'Z')
    ensures forall i :: 0 <= i < |s| && 'A' <= s[i] <= 'Z' ==> r[i] as int == s[i] as int + 32
    ensures forall i :: 0 <= i < |s| && !('A' <= s[i] <= 'Z') ==> r[i] == s[i]
  {
    seq(|s|, i requires 0 <= i < |s| => LowerChar(s[i]))
  }

  /** The position of the last '.' in `s`, as `str.rfind('.')` finds it. */
  function LastDot(s: string): (r: Option<nat>)
    ensures r.Some? ==> r.value < |s| && s[r.value] == '.' && '.' !in s[r.value + 1..]
    ensures r.None? ==> '.' !in s
  {
    if |s| == 0 then None
    else if s[|s| - 1] == '.' then Some(|s| - 1)
    else
      var r := LastDot(s[..|s| - 1]);
      assert s == s[..|s| - 1] + [s[|s| - 1]];
      r
  }

  /**
   * `os.path.splitext(name)[1]` for a bare file name: from the last '.' to
   * the end, unless only dots come before that '.' (".bashrc", "..x"), in
   * which case there is no extension.
   */
  function Extension(name: string): (ext: string)
    ensures |ext| <= |name| && ext == name[|name| - |ext|..]
    ensures ext != [] ==>
      ext[0] == '.' && '.' !in ext[1..] &&
      exists k :: 0 <= k < |name| - |ext| && name[k] != '.'
    ensures ext == [] ==>
      forall k, j :: 0 <= j < k < |name| && name[k] == '.' ==> name[j] == '.'
  {
    match LastDot(name)
    case None => ""
    case Some(d) =>
      if exists k :: 0 <= k < d && name[k] != '.' then
        assert name[d..][1..] == name[d + 1..];
        name[d..]
      else
        assert forall k :: d < k < |name| ==> name[k] != '.' by {
          forall k | d < k < |name| ensures name[k] != '.' {
            assert name[k] == name[d + 1..][k - d - 1];
          }
        }
        ""
  }

  /** The first row of `t` whose set holds `ext`, or "Otros". */
  function Lookup(t: Table, ext: string): (c: Category)
    ensures c == Otros || exists i :: 0 <= i < |t| && t[i].0 == c && ext in t[i].1
  {
    if t == [] then Otros
    else if ext in t[0].1 then t[0].0
    else
      var c := Lookup(t[1..], ext);
      assert c != Otros ==> exists i :: 0 <= i < |t| - 1 && t[1..][i].0 == c && ext in t[1..][i].1;
      c
  }

  /**
   * `get_category`: the category of a file name under table `t`, which is
   * "Otros" or the category of a row holding the lowercased extension.
   */
  function Classify(t: Table, filename: string): (c: Category)
    ensures c == Otros || exists i :: 0 <= i < |t| && t[i].0 == c && Lower(Extension(filename)) in t[i].1
  {
    Lookup(t, Lower(Extension(filename)))
  }

  /**
   * In a valid table the lookup lands on a row exactly when that row's set
   * holds the extension, whatever the order of the rows.
   */
  lemma {:induction false} LookupExact(t: Table, ext: string, i: nat)
    requires ValidTable(t) && i < |t|
    ensures Lookup(t, ext) == t[i].0 <==> ext in t[i].1
  {
    if i != 0 {
      assert ValidTable(t[1..]) by {
        forall a, b | 0 <= a < b < |t| - 1
          ensures t[1..][a].0 != t[1..][b].0 && t[1..][a].1 !! t[1..][b].1
        {
          assert t[1..][a] == t[a + 1] && t[1..][b] == t[b + 1];
        }
      }
      if ext in t[0].1 {
        assert ext !in t[i].1 by { assert t[0].1 !! t[i].1; }
        assert t[0].0 != t[i].0;
      } else {
        LookupExact(t[1..], ext, i - 1);
      }
    }
  }

  /** In a valid table the fallback is chosen exactly when no set holds the extension. */
  lemma {:induction false} LookupOtros(t: Table, ext: string)
    requires ValidTable(t)
    ensures Lookup(t, ext) == Otros <==> forall i :: 0 <= i < |t| ==> ext !in t[i].1
  {
    if Lookup(t, ext) == Otros {
      forall i | 0 <= i < |t| ensures ext !in t[i].1 {
        LookupExact(t, ext, i);
      }
    }
  }

  /** `get_category` returns the row whose extension set holds the lowercased extension. */
  lemma ClassifyByRow(t: Table, filename: string, i: nat)
    requires ValidTable(t) && i < |t|
    ensures Classify(t, filename) == t[i].0 <==> Lower(Extension(filename)) in t[i].1
  {
    LookupExact(t, Lower(Extension(filename)), i);
  }

  /** `get_category` returns "Otros" exactly when no row's set holds the lowercased extension. */
  lemma ClassifyOtros(t: Table, filename: string)
    requires ValidTable(t)
    ensures Classify(t, filename) == Otros <==>
      forall i :: 0 <= i < |t| ==> Lower(Extension(filename)) !in t[i].1
  {
    LookupOtros(t, Lower(Extension(filename)));
  }

  /** Lowercasing keeps the dots where they are. */
  lemma {:induction false} LastDotLower(s: string)
    ensures LastDot(Lower(s)) == LastDot(s)
  {
    if |s| > 0 {
      assert Lower(s)[..|s| - 1] == Lower(s[..|s| - 1]);
      LastDotLower(s[..|s| - 1]);
    }
  }

  /** Lowercasing a suffix is the suffix of the lowercased string. */
  lemma LowerSuffix(s: string, d: nat)
    requires d <= |s|
    ensures Lower(s)[d..] == Lower(s[d..])
  {
    assert forall k :: 0 <= k < |s| - d ==> Lower(s)[d..][k] == LowerChar(s[d + k]);
  }

  /** Lowercasing changes no character into a dot or out of one. */
  lemma LowerDots(s: string)
    ensures forall k :: 0 <= k < |s| ==> (Lower(s)[k] == '.' <==> s[k] == '.')
  {
    assert forall k :: 0 <= k < |s| ==> Lower(s)[k] == LowerChar(s[k]);
  }

  /** Taking the extension commutes with lowercasing. */
  lemma ExtensionLower(name: string)
    ensures Extension(Lower(name)) == Lower(Extension(name))
  {
    LastDotLower(name);
    LowerDots(name);
    match LastDot(name)
    case None =>
    case Some(d) =>
      var lowered := Lower(name);
      LowerSuffix(name, d);
      assert LastDot(lowered) == Some(d);
      if exists k :: 0 <= k < d && name[k] != '.' {
        var k :| 0 <= k < d && name[k] != '.';
        assert lowered[k] != '.';
        assert Extension(lowered) == lowered[d..];
      } else {
        assert forall k :: 0 <= k < d ==> lowered[k] == '.';
        assert Extension(lowered) == "";
      }
  }

  /** Matching is case-insensitive: names equal up to ASCII case get the same category. */
  lemma ClassifyIgnoresCase(t: Table, a: string, b: string)
    requires Lower(a) == Lower(b)
    ensures Classify(t, a) == Classify(t, b)
  {
    ExtensionLower(a);
    ExtensionLower(b);
    assert Lower(Extension(a)) == Extension(Lower(a)) == Extension(Lower(b)) == Lower(Extension(b));
  }

  /** A name with no dot, or whose dots all lead, has no extension and lands in "Otros". */
  lemma NoExtensionIsOtros(t: Table, filename: string)
    requires ValidTable(t)
    requires forall k, j :: 0 <= j < k < |filename| && filename[k] == '.' ==> filename[j] == '.'
    ensures Classify(t, filename) == Otros
  {
    assert Extension(filename) == "";
    assert Lower("") == "";
    LookupOtros(t, "");
  }

  /** The six extension sets are pairwise disjoint, checked one row against the later rows. */
  lemma FullTableValid()
    ensures ValidTable(FullTable)
  {
    FullRowDisjoint0();
    FullRowDisjoint1();
    FullRowDisjoint2();
    FullRowDisjoint3();
    FullRowsNoEmpty();
    forall i, j | 0 <= i < j < |FullTable|
      ensures FullTable[i].0 != FullTable[j].0 && FullTable[i].1 !! FullTable[j].1
    {
      if i >= 3 {
        assert i == 3 || i == 4;
      }
    }
  }

  lemma FullRowDisjoint3()
    ensures FullTable[3].1 !! FullTable[4].1 && FullTable[3].1 !! FullTable[5].1
    ensures FullTable[4].1 !! FullTable[5].1
  {
  }

  lemma FullRowsNoEmpty()
    ensures forall i :: 0 <= i < |FullTable| ==> FullTable[i].0 != Otros && "" !in FullTable[i].1
  {
  }

  lemma FullRowDisjoint0()
    ensures forall j :: 0 < j < |FullTable| ==> FullTable[0].1 !! FullTable[j].1
  {
    VideosApartLow();
    VideosApartHigh();
  }

  lemma VideosApartLow()
    ensures FullTable[0].1 !! FullTable[1].1 && FullTable[0].1 !! FullTable[2].1
  {
  }

  lemma VideosApartHigh()
    ensures FullTable[0].1 !! FullTable[3].1
    ensures FullTable[0].1 !! FullTable[4].1 && FullTable[0].1 !! FullTable[5].1
  {
  }

  lemma FullRowDisjoint1()
    ensures forall j :: 1 < j < |FullTable| ==> FullTable[1].1 !! FullTable[j].1
  {
    assert FullTable[1].1 !! FullTable[2].1;
    assert FullTable[1].1 !! FullTable[3].1;
    assert FullTable[1].1 !! FullTable[4].1;
    assert FullTable[1].1 !! FullTable[5].1;
  }

  lemma FullRowDisjoint2()
    ensures forall j :: 2 < j < |FullTable| ==> FullTable[2].1 !! FullTable[j].1
  {
    assert FullTable[2].1 !! FullTable[3].1;
    assert FullTable[2].1 !! FullTable[4].1;
    assert FullTable[2].1 !! FullTable[5].1;
  }

  lemma SmallTableValid()
    ensures ValidTable(SmallTable)
  {
    SmallRowsApartLow();
    SmallRowsApartHigh();
  }

  lemma SmallRowsApartLow()
    ensures SmallTable[0].1 !! SmallTable[1].1 && SmallTable[0].1 !! SmallTable[2].1
    ensures SmallTable[0].1 !! SmallTable[3].1
  {
  }

  lemma SmallRowsApartHigh()
    ensures SmallTable[1].1 !! SmallTable[2].1
    ensures SmallTable[1].1 !! SmallTable[3].1 && SmallTable[2].1 !! SmallTable[3].1
  {
  }

  /** The result is one of the table's categories or "Otros". */
  lemma ClassifyRange(t: Table, filename: string)
    ensures Classify(t, filename) == Otros ||
      exists i :: 0 <= i < |t| && t[i].0 == Classify(t, filename)
  {
  }
}
