/**
 * The `defaultdict(int)` accumulators of the scanners. A Python dict keeps
 * its keys in insertion order, and `sorted(d.items(), ...)` breaks ties by
 * that order, so a Dict is its map together with the keys as inserted.
 */
module DefaultDict {
  import TopN

  datatype Dict<K> = Dict(m: map<K, nat>, order: seq<K>)

  /** The keys in `order` are exactly the keys of the map, each once. */
  ghost predicate Valid<K(!new)>(d: Dict<K>) {
    && (forall k :: k in d.m <==> k in d.order)
    && (forall i, j :: 0 <= i < j < |d.order| ==> d.order[i] != d.order[j])
  }

  function Empty<K(!new)>(): (d: Dict<K>)
    ensures Valid(d) && d.m == map[]
  {
    Dict(map[], [])
  }

  /** `d[k]` on a defaultdict(int), without inserting the key: the stored value, or 0. */
  function Get<K>(d: Dict<K>, k: K): (r: nat)
    ensures k in d.m ==> r == d.m[k]
    ensures k !in d.m ==> r == 0
  {
    if k in d.m then d.m[k] else 0
  }

  /** `d[k] += v`: a missing key starts at 0 and goes to the end of the order. */
  function Add<K(!new)>(d: Dict<K>, k: K, v: nat): (r: Dict<K>)
    requires Valid(d)
    ensures Valid(r)
    ensures d.order <= r.order
    ensures forall j :: j in r.m <==> j in d.m || j == k
    ensures forall j :: Get(r, j) == Get(d, j) + (if j == k then v else 0)
  {
    if k in d.m then Dict(d.m[k := d.m[k] + v], d.order)
    else Dict(d.m[k := v], d.order + [k])
  }

  /** The values of `m` at `keys`, added up. */
  function SumOver<K>(m: map<K, nat>, keys: seq<K>): nat
    requires forall k :: k in keys ==> k in m
  {
    if keys == [] then 0 else SumOver(m, keys[..|keys| - 1]) + m[keys[|keys| - 1]]
  }

  /** `sum(d.values())`. */
  function Total<K(!new)>(d: Dict<K>): nat
    requires Valid(d)
  {
    SumOver(d.m, d.order)
  }

  /** `sum(d.values())` is 0 exactly when every value is 0. */
  lemma TotalZero<K(!new)>(d: Dict<K>)
    requires Valid(d)
    ensures Total(d) == 0 <==> forall k :: k in d.m ==> d.m[k] == 0
  {
    SumOverBounds(d.m, d.order);
  }

  /** `sum(d.values())` is at least every single value. */
  lemma TotalHoldsEach<K(!new)>(d: Dict<K>, k: K)
    requires Valid(d)
    ensures Get(d, k) <= Total(d)
  {
    SumOverBounds(d.m, d.order);
  }

  /** A sum of values holds each of them, and is 0 exactly when each is 0. */
  lemma {:induction false} SumOverBounds<K>(m: map<K, nat>, keys: seq<K>)
    requires forall k :: k in keys ==> k in m
    ensures forall k :: k in keys ==> m[k] <= SumOver(m, keys)
    ensures SumOver(m, keys) == 0 <==> forall k :: k in keys ==> m[k] == 0
  {
    if keys != [] {
      var init := keys[..|keys| - 1];
      assert keys == init + [keys[|keys| - 1]];
      SumOverBounds(m, init);
    }
  }

  function Value<K>(item: (K, nat)): nat {
    item.1
  }

  /** `d.items()`, in insertion order: one pair per key, holding that key's value. */
  function Items<K(!new)>(d: Dict<K>): (r: seq<(K, nat)>)
    requires Valid(d)
    ensures |r| == |d.order|
    ensures forall kv: (K, nat) :: kv in r <==> kv.0 in d.m && kv.1 == d.m[kv.0]
  {
    ItemsMembers(d);
    ItemsAt(d.m, d.order)
  }

  lemma ItemsMembers<K(!new)>(d: Dict<K>)
    requires Valid(d)
    ensures forall kv: (K, nat) :: kv in ItemsAt(d.m, d.order) <==> kv.0 in d.m && kv.1 == d.m[kv.0]
  {
    var r := ItemsAt(d.m, d.order);
    forall kv: (K, nat) | kv.0 in d.m && kv.1 == d.m[kv.0] ensures kv in r {
      var i :| 0 <= i < |d.order| && d.order[i] == kv.0;
      assert r[i] == kv;
    }
  }

  function ItemsAt<K>(m: map<K, nat>, keys: seq<K>): seq<(K, nat)>
    requires forall k :: k in keys ==> k in m
  {
    seq(|keys|, i requires 0 <= i < |keys| => (keys[i], m[keys[i]]))
  }

  /** Overwriting one entry changes a sum over distinct keys by the difference at that key. */
  lemma {:induction false} SumOverUpdate<K>(m: map<K, nat>, keys: seq<K>, k: K, x: nat)
    requires forall j :: j in keys ==> j in m
    requires forall i, j :: 0 <= i < j < |keys| ==> keys[i] != keys[j]
    ensures SumOver(m[k := x], keys) + (if k in keys then m[k] else 0) ==
      SumOver(m, keys) + (if k in keys then x else 0)
  {
    if keys != [] {
      var init := keys[..|keys| - 1];
      var last := keys[|keys| - 1];
      assert keys == init + [last];
      SumOverUpdate(m, init, k, x);
    }
  }

  /** `d[k] += v` adds exactly v to `sum(d.values())`. */
  lemma AddTotal<K(!new)>(d: Dict<K>, k: K, v: nat)
    requires Valid(d)
    ensures Total(Add(d, k, v)) == Total(d) + v
  {
    var r := Add(d, k, v);
    if k in d.m {
      SumOverUpdate(d.m, d.order, k, d.m[k] + v);
    } else {
      SumOverUpdate(d.m, d.order, k, v);
      assert r.order[..|r.order| - 1] == d.order;
    }
  }

  /** The value at key `c`, if it is positive. */
  function PositiveAt<K(==)>(c: K): ((K, nat)) -> nat {
    (item: (K, nat)) => if item.0 == c && item.1 > 0 then item.1 else 0
  }

  /** Over the items of a dict, the positive values at key `c` add up to `c`'s value, if positive. */
  lemma {:induction false} ItemsPositiveAt<K>(m: map<K, nat>, keys: seq<K>, c: K)
    requires forall k :: k in keys ==> k in m
    requires forall i, j :: 0 <= i < j < |keys| ==> keys[i] != keys[j]
    ensures TopN.SumBy(ItemsAt(m, keys), PositiveAt(c)) ==
      if c in keys && m[c] > 0 then m[c] else 0
  {
    if keys != [] {
      assert ItemsAt(m, keys)[1..] == ItemsAt(m, keys[1..]);
      ItemsPositiveAt(m, keys[1..], c);
      assert keys == [keys[0]] + keys[1..];
    }
  }

  /** A dict holding one key sums to that key's value. */
  lemma TotalOneKey<K(!new)>(d: Dict<K>, k: K)
    requires Valid(d) && d.order == [k]
    ensures Total(d) == Get(d, k)
    ensures forall j :: j in d.m ==> j == k
  {
    assert k in d.order && d.order[..0] == [];
    assert SumOver(d.m, d.order[..0]) == 0;
  }
}
