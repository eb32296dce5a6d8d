/**
 * Top-N selection: `sorted(xs, key=..., reverse=True)[:n]`. Python's sort
 * is stable also with `reverse=True`: elements with equal keys keep their
 * original order. SortDesc is that sort, written as an insertion sort, and
 * Top takes the slice.
 */
module TopN {

  /** Places `x` before the first element of `s` whose key is not larger than its own. */
  function Insert<T>(x: T, s: seq<T>, key: T -> nat): seq<T> {
    if s == [] then [x]
    else if key(s[0]) <= key(x) then [x] + s
    else [s[0]] + Insert(x, s[1..], key)
  }

  /** `sorted(s, key=key, reverse=True)`: the elements of `s`, in non-increasing key order. */
  function SortDesc<T>(s: seq<T>, key: T -> nat): (r: seq<T>)
    ensures NonIncreasing(r, key)
    ensures multiset(r) == multiset(s)
  {
    if s == [] then []
    else
      var sorted := SortDesc(s[1..], key);
      InsertSorted(s[0], sorted, key);
      InsertPermutation(s[0], sorted, key);
      assert s == [s[0]] + s[1..];
      Insert(s[0], sorted, key)
  }

  /** `s[:n]`, including Python's reading of a negative bound as "all but the last -n". */
  function Slice<T>(s: seq<T>, n: int): (r: seq<T>)
    ensures r <= s
    ensures 0 <= n ==> |r| == if n < |s| then n else |s|
    ensures n < 0 ==> |r| == if |s| + n < 0 then 0 else |s| + n
  {
    if n >= 0 then (if n < |s| then s[..n] else s)
    else if |s| + n < 0 then [] else s[..|s| + n]
  }

  /**
   * `sorted(s, key=key, reverse=True)[:n]`: for n >= 0, min(n, |s|) of the
   * elements of `s`, in non-increasing key order.
   */
  function Top<T>(s: seq<T>, n: int, key: T -> nat): (r: seq<T>)
    ensures NonIncreasing(r, key)
    ensures multiset(r) <= multiset(s)
    ensures 0 <= n ==> |r| == if n < |s| then n else |s|
  {
    var sorted := SortDesc(s, key);
    var r := Slice(sorted, n);
    assert sorted == r + sorted[|r|..];
    assert multiset(sorted) == multiset(r) + multiset(sorted[|r|..]);
    assert forall i, j :: 0 <= i < j < |r| ==> r[i] == sorted[i] && r[j] == sorted[j];
    r
  }

  ghost predicate NonIncreasing<T>(s: seq<T>, key: T -> nat) {
    forall i, j :: 0 <= i < j < |s| ==> key(s[i]) >= key(s[j])
  }

  /** The elements of `s` whose key is `v`, in their order in `s`. */
  function WithKey<T>(s: seq<T>, key: T -> nat, v: nat): seq<T> {
    if s == [] then []
    else (if key(s[0]) == v then [s[0]] else []) + WithKey(s[1..], key, v)
  }

  /** The sum of `f` over the elements of `s`. */
  function SumBy<T>(s: seq<T>, f: T -> nat): nat {
    if s == [] then 0 else f(s[0]) + SumBy(s[1..], f)
  }

  lemma {:induction false} InsertPermutation<T>(x: T, s: seq<T>, key: T -> nat)
    ensures multiset(Insert(x, s, key)) == multiset{x} + multiset(s)
  {
    if s != [] && key(s[0]) > key(x) {
      InsertPermutation(x, s[1..], key);
      assert s == [s[0]] + s[1..];
    }
  }

  lemma {:induction false} InsertSorted<T>(x: T, s: seq<T>, key: T -> nat)
    requires NonIncreasing(s, key)
    ensures NonIncreasing(Insert(x, s, key), key)
    ensures s != [] ==> key(Insert(x, s, key)[0]) == if key(x) < key(s[0]) then key(s[0]) else key(x)
  {
    if s != [] && key(s[0]) > key(x) {
      InsertSorted(x, s[1..], key);
      var r := Insert(x, s[1..], key);
      assert key(r[0]) <= key(s[0]) by {
        if s[1..] != [] { assert s[1..][0] == s[1]; }
      }
    }
  }


  lemma WithKeyCons<T>(a: T, s: seq<T>, key: T -> nat, v: nat)
    ensures WithKey([a] + s, key, v) == (if key(a) == v then [a] else []) + WithKey(s, key, v)
  {
    assert ([a] + s)[1..] == s;
  }

  lemma {:induction false} InsertStable<T>(x: T, s: seq<T>, key: T -> nat, v: nat)
    ensures WithKey(Insert(x, s, key), key, v) ==
      (if key(x) == v then [x] else []) + WithKey(s, key, v)
  {
    if s == [] {
    } else if key(s[0]) <= key(x) {
      WithKeyCons(x, s, key, v);
    } else {
      var rest := Insert(x, s[1..], key);
      WithKeyCons(s[0], rest, key, v);
      InsertStable(x, s[1..], key, v);
      if key(x) == v {
        assert key(s[0]) != v;
        assert WithKey(s, key, v) == WithKey(s[1..], key, v);
      } else {
        assert WithKey(rest, key, v) == WithKey(s[1..], key, v);
      }
    }
  }

  /**
   * Stability: for every key value, the elements with that key appear in
   * the sorted output in the same order as in the input.
   */
  lemma {:induction false} SortDescStable<T>(s: seq<T>, key: T -> nat, v: nat)
    ensures WithKey(SortDesc(s, key), key, v) == WithKey(s, key, v)
  {
    if s != [] {
      SortDescStable(s[1..], key, v);
      InsertStable(s[0], SortDesc(s[1..], key), key, v);
    }
  }

  lemma {:induction false} InsertSumBy<T>(x: T, s: seq<T>, key: T -> nat, f: T -> nat)
    ensures SumBy(Insert(x, s, key), f) == f(x) + SumBy(s, f)
  {
    if s == [] {
    } else if key(s[0]) <= key(x) {
      assert ([x] + s)[1..] == s;
    } else {
      assert ([s[0]] + Insert(x, s[1..], key))[1..] == Insert(x, s[1..], key);
      InsertSumBy(x, s[1..], key, f);
    }
  }

  /** Sorting keeps every additive measure of the sequence. */
  lemma {:induction false} SortDescSumBy<T>(s: seq<T>, key: T -> nat, f: T -> nat)
    ensures SumBy(SortDesc(s, key), f) == SumBy(s, f)
  {
    if s != [] {
      SortDescSumBy(s[1..], key, f);
      InsertSumBy(s[0], SortDesc(s[1..], key), key, f);
    }
  }

  /** Adding one more element adds its measure. */
  lemma {:induction false} SumByAppend<T>(s: seq<T>, x: T, f: T -> nat)
    ensures SumBy(s + [x], f) == SumBy(s, f) + f(x)
  {
    if s != [] {
      assert (s + [x])[1..] == s[1..] + [x];
      SumByAppend(s[1..], x, f);
    }
  }

  /**
   * `sorted(s, key, reverse=True)[:n]` for n >= 0: min(n, |s|) elements, in
   * non-increasing key order, a prefix of the stable sort; together with the
   * elements it leaves out it is exactly `s`, and none of those outranks it.
   */
  lemma TopSpec<T>(s: seq<T>, n: int, key: T -> nat)
    requires 0 <= n
    ensures |Top(s, n, key)| == if n < |s| then n else |s|
    ensures NonIncreasing(Top(s, n, key), key)
    ensures Top(s, n, key) <= SortDesc(s, key)
    ensures var t, rest := Top(s, n, key), SortDesc(s, key)[|Top(s, n, key)|..];
      && multiset(t) + multiset(rest) == multiset(s)
      && forall i, j :: 0 <= i < |t| && 0 <= j < |rest| ==> key(t[i]) >= key(rest[j])
  {
    var sorted := SortDesc(s, key);
    var t := Top(s, n, key);
    var rest := sorted[|t|..];
    assert sorted == t + rest;
    assert multiset(sorted) == multiset(t) + multiset(rest);
    forall i, j | 0 <= i < |t| && 0 <= j < |rest| ensures key(t[i]) >= key(rest[j]) {
      assert t[i] == sorted[i] && rest[j] == sorted[|t| + j];
    }
  }
}
