/**
 * The unit choice of `fmt_size`: the magnitude is divided by 1024 until it
 * is below 1024 or the unit is TB. Only the unit and the magnitude are
 * modelled; the two-decimal text is not.
 */
module SizeFormat {

  const Units: seq<string> := ["B", "KB", "MB", "GB", "TB"]

  function Pow1024(k: nat): (p: nat)
    ensures p >= 1
  {
    if k == 0 then 1 else 1024 * Pow1024(k - 1)
  }

  /** A magnitude of at least 1024 means the byte count reaches the next unit. */
  lemma ScaleStep(shown: real, unit: nat, bytes: nat)
    requires shown * (Pow1024(unit) as real) == bytes as real
    requires shown >= 1024.0
    ensures (shown / 1024.0) * (Pow1024(unit + 1) as real) == bytes as real
    ensures Pow1024(unit + 1) <= bytes
  {
    var p := Pow1024(unit) as real;
    assert Pow1024(unit + 1) as real == 1024.0 * p;
    assert (shown / 1024.0) * (1024.0 * p) == shown * p;
    if shown > 1024.0 {
      MulPositive(shown - 1024.0, p);
      Distributes(shown, 1024.0, p);
    }
  }

  /** A magnitude below 1024 means the byte count stays below the next unit. */
  lemma BelowNext(shown: real, unit: nat, bytes: nat)
    requires shown * (Pow1024(unit) as real) == bytes as real
    requires shown < 1024.0
    ensures bytes < Pow1024(unit + 1)
  {
    var p := Pow1024(unit) as real;
    var q := Pow1024(unit + 1) as real;
    assert q == 1024.0 * p;
    MulPositive(1024.0 - shown, p);
    Distributes(1024.0, shown, p);
    assert bytes as real < q;
  }

  lemma Distributes(a: real, b: real, c: real)
    ensures (a - b) * c == a * c - b * c
  {
  }

  lemma MulPositive(x: real, y: real)
    requires x > 0.0 && y > 0.0
    ensures x * y > 0.0
  {
  }

  /**
   * The loop of `fmt_size` (the float `size` is an exact real here). The
   * chosen unit is the smallest k with bytes < 1024^(k+1), or TB when there
   * is none, and the magnitude times 1024^k is the byte count.
   */
  method FmtSize(bytes: nat) returns (unit: nat, shown: real)
    ensures unit < |Units|
    ensures shown * (Pow1024(unit) as real) == bytes as real
    ensures unit < |Units| - 1 ==> bytes < Pow1024(unit + 1)
    ensures forall k :: 1 <= k <= unit ==> Pow1024(k) <= bytes
  {
    shown := bytes as real;
    unit := 0;
    while !(shown < 1024.0 || unit == |Units| - 1)
      invariant unit < |Units|
      invariant shown * (Pow1024(unit) as real) == bytes as real
      invariant forall k :: 1 <= k <= unit ==> Pow1024(k) <= bytes
      decreases |Units| - unit
    {
      ScaleStep(shown, unit, bytes);
      shown := shown / 1024.0;
      unit := unit + 1;
    }
    if unit < |Units| - 1 {
      BelowNext(shown, unit, bytes);
    }
  }

  /** The unit is determined by the byte count alone: one k meets both bounds. */
  lemma UnitUnique(bytes: nat, u1: nat, u2: nat)
    requires u1 < |Units| && u2 < |Units|
    requires u1 < |Units| - 1 ==> bytes < Pow1024(u1 + 1)
    requires forall k :: 1 <= k <= u1 ==> Pow1024(k) <= bytes
    requires u2 < |Units| - 1 ==> bytes < Pow1024(u2 + 1)
    requires forall k :: 1 <= k <= u2 ==> Pow1024(k) <= bytes
    ensures u1 == u2
  {
  }
}
