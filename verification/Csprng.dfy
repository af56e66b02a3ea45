/** Unbiased bounded sampling (kernel/lib/csprng.c:366-386). */
module Csprng {
  import opened Arith
  import opened Base

  /** The number of values from `lo` up to `hi` that leave remainder `v`. */
  ghost function Hits(lo: nat, hi: nat, bound: nat, v: nat): nat
    requires bound > 0
    decreases hi - lo
  {
    if lo >= hi then 0 else (if lo % bound == v then 1 else 0) + Hits(lo + 1, hi, bound, v)
  }

  /** (0 - bound) % bound in 64-bit arithmetic. */
  function Threshold(bound: nat): (t: nat)
    requires 0 < bound < U64
    ensures t < bound
  {
    (U64 - bound) % bound
  }

  lemma {:induction false} HitsSplit(lo: nat, mid: nat, hi: nat, bound: nat, v: nat)
    requires bound > 0 && lo <= mid <= hi
    ensures Hits(lo, hi, bound, v) == Hits(lo, mid, bound, v) + Hits(mid, hi, bound, v)
    decreases mid - lo
  {
    if lo < mid {
      HitsSplit(lo + 1, mid, hi, bound, v);
    }
  }

  /** Within one block of `bound` values a remainder is met once, if at all ahead. */
  lemma {:induction false} HitsBlock(q: nat, r: nat, bound: nat, v: nat)
    requires r <= bound && v < bound
    ensures Hits(Mul(q, bound) + r, Mul(q, bound) + bound, bound, v) == if r <= v then 1 else 0
    decreases bound - r
  {
    hide Mul;
    if r < bound {
      DivModUnique(Mul(q, bound) + r, bound, q, r);
      HitsBlock(q, r + 1, bound, v);
    }
  }

  lemma {:induction false} HitsBlocks(q: nat, n: nat, bound: nat, v: nat)
    requires v < bound
    ensures Mul(q, bound) <= Mul(q + n, bound)
    ensures Hits(Mul(q, bound), Mul(q + n, bound), bound, v) == n
    decreases n
  {
    MulUp(q, q + n, bound);
    if n > 0 {
      assert Mul(q + 1, bound) == Mul(q, bound) + bound;
      HitsBlock(q, 0, bound, v);
      HitsBlocks(q + 1, n - 1, bound, v);
      MulUp(q + 1, q + n, bound);
      HitsSplit(Mul(q, bound), Mul(q + 1, bound), Mul(q + n, bound), bound, v);
    }
  }

  /** In the first `r` values of a block a remainder below `r` is met once, others not at all. */
  lemma HitsPart(q: nat, r: nat, bound: nat, v: nat)
    requires r <= bound && v < bound
    ensures Hits(Mul(q, bound), Mul(q, bound) + r, bound, v) == if v < r then 1 else 0
  {
    hide Mul;
    HitsBlock(q, 0, bound, v);
    HitsBlock(q, r, bound, v);
    HitsSplit(Mul(q, bound), Mul(q, bound) + r, Mul(q, bound) + bound, bound, v);
  }

  lemma ThresholdIsRemainder(bound: nat)
    requires 0 < bound < U64
    ensures Threshold(bound) == U64 % bound
    ensures U64 == Mul(Quot(U64, bound), bound) + Threshold(bound)
  {
    DivMod(U64, bound);
    var q := Quot(U64, bound);
    assert Mul(q, bound) == Mul(q - 1, bound) + bound;
    DivModUnique(U64 - bound, bound, q - 1, U64 % bound);
  }

  /** Every value below the bound comes from exactly floor(2^64 / bound) of the accepted draws. */
  lemma Unbiased(bound: nat, v: nat)
    requires 1 < bound < U64 && v < bound
    ensures Hits(Threshold(bound), U64, bound, v) == Quot(U64, bound)
  {
    var t, q := Threshold(bound), Quot(U64, bound);
    ThresholdIsRemainder(bound);
    assert Mul(0, bound) == 0;
    HitsBlocks(0, q, bound, v);
    HitsPart(0, t, bound, v);
    HitsPart(q, t, bound, v);
    hide Mul, Quot, Hits, Threshold;
    HitsSplit(0, Mul(q, bound), U64, bound, v);
    HitsSplit(0, t, U64, bound, v);
  }

  /** `csprng_bounded` drawing from `draws`: the first accepted draw, reduced; None when the draws
      given run out first. */
  method Bounded(bound: nat, draws: seq<nat>) returns (r: Option<nat>, used: nat)
    requires bound < U64 && forall i :: 0 <= i < |draws| ==> draws[i] < U64
    ensures bound <= 1 ==> r == Some(0) && used == 0
    ensures bound > 1 ==> used <= |draws| && forall i :: 0 <= i < used - 1 ==> draws[i] < Threshold(bound)
    ensures bound > 1 && r.Some? ==>
      used > 0 && draws[used - 1] >= Threshold(bound) && r.value == draws[used - 1] % bound && r.value < bound
    ensures bound > 1 && r.None? ==> used == |draws| && forall i :: 0 <= i < used ==> draws[i] < Threshold(bound)
  {
    used := 0;
    if bound <= 1 {
      return Some(0), used;
    }
    var threshold := Threshold(bound);
    while used < |draws|
      invariant 0 <= used <= |draws| && forall i :: 0 <= i < used ==> draws[i] < threshold
    {
      var x := draws[used];
      used := used + 1;
      if x >= threshold {
        return Some(x % bound), used;
      }
    }
    r := None;
  }
}
