/** Power-of-two blocks of page frames and their buddies (kernel/mm/pmm.c). */
module BuddyBlocks {

  const MAX_ORDER: nat := 11

  datatype Zone = Dma | Normal

  /** ZONE_DMA is the first 16 MiB. */
  function ZoneOf(p: int): Zone {
    if p < 4096 then Dma else Normal
  }

  function Pow2(o: nat): (r: nat)
    ensures r > 0
  {
    if o == 0 then 1 else 2 * Pow2(o - 1)
  }

  /** Frame `p` is a multiple of 2^o. */
  predicate BlockAligned(p: nat, o: nat) {
    o == 0 || (p % 2 == 0 && BlockAligned(p / 2, o - 1))
  }

  /** Bit `o` of `p` flipped: `pfn ^ (1 << order)`. */
  function Buddy(p: nat, o: nat): nat {
    if o == 0 then (if p % 2 == 0 then p + 1 else p - 1)
    else 2 * Buddy(p / 2, o - 1) + p % 2
  }

  function Range(lo: int, hi: int): (s: set<int>)
    ensures forall x :: x in s <==> lo <= x < hi
    decreases hi - lo
  {
    if hi <= lo then {} else {lo} + Range(lo + 1, hi)
  }

  /** The frames of the block of order `o` at `p`. */
  function Pages(p: nat, o: nat): set<int> {
    Range(p, p + Pow2(o))
  }

  function Times(k: nat, m: nat): nat {
    k * m
  }

  lemma {:induction false} MultipleAligned(k: nat, o: nat)
    ensures BlockAligned(Times(k, Pow2(o)), o)
  {
    if o > 0 {
      MultipleAligned(k, o - 1);
      assert Times(k, Pow2(o)) == 2 * Times(k, Pow2(o - 1));
    }
  }

  /** The recursive reading of alignment is divisibility by the block size. */
  lemma {:induction false} AlignedIsMultiple(p: nat, o: nat)
    ensures BlockAligned(p, o) <==> exists k: nat :: p == Times(k, Pow2(o))
  {
    if k: nat :| p == Times(k, Pow2(o)) {
      MultipleAligned(k, o);
    }
    if BlockAligned(p, o) {
      if o == 0 {
        assert p == Times(p, Pow2(0));
      } else {
        AlignedIsMultiple(p / 2, o - 1);
        var k: nat :| p / 2 == Times(k, Pow2(o - 1));
        assert p == Times(k, Pow2(o));
      }
    }
  }

  /** Both halves of an aligned block are aligned. */
  lemma {:induction false} AlignedHalves(p: nat, o: nat)
    requires BlockAligned(p, o + 1)
    ensures BlockAligned(p, o) && BlockAligned(p + Pow2(o), o)
    ensures Buddy(p, o) == p + Pow2(o) && Buddy(p + Pow2(o), o) == p
  {
    if o > 0 {
      AlignedHalves(p / 2, o - 1);
      assert (p + Pow2(o)) / 2 == p / 2 + Pow2(o - 1);
    }
  }

  /** A block and its buddy are the halves of an aligned block of the next order. */
  lemma {:induction false} BuddyHalves(p: nat, o: nat)
    requires BlockAligned(p, o)
    ensures var b := Buddy(p, o);
      var m := if b < p then b else p;
      && BlockAligned(m, o + 1) && p != b && (p == m || p == m + Pow2(o)) && (b == m || b == m + Pow2(o))
  {
    if o > 0 {
      BuddyHalves(p / 2, o - 1);
      var b := Buddy(p / 2, o - 1);
      var m := if b < p / 2 then b else p / 2;
      assert (2 * m) / 2 == m;
    }
  }

  /** BlockAligned blocks of the same order at different places do not meet. */
  lemma {:induction false} AlignedApart(p: nat, q: nat, o: nat)
    requires BlockAligned(p, o) && BlockAligned(q, o) && p < q
    ensures p + Pow2(o) <= q
  {
    if o > 0 {
      AlignedApart(p / 2, q / 2, o - 1);
    }
  }

  /** Blocks below the top order never cross the zone boundary. */
  lemma OneZone(p: nat, o: nat, x: int)
    requires BlockAligned(p, o) && o < MAX_ORDER && x in Pages(p, o)
    ensures ZoneOf(x) == ZoneOf(p)
  {
    AlignedTo(12, o);
    assert Pow2(3) == 8 && Pow2(6) == 8 * Pow2(3) && Pow2(9) == 8 * Pow2(6) && Pow2(12) == 8 * Pow2(9);
    if p < 4096 {
      AlignedApart(p, 4096, o);
    }
  }

  /** 2^k is a multiple of every smaller power. */
  lemma {:induction false} AlignedTo(k: nat, o: nat)
    requires o <= k
    ensures BlockAligned(Pow2(k), o)
    decreases k
  {
    if o > 0 {
      AlignedTo(k - 1, o - 1);
    }
  }

  lemma {:induction false} RangeCount(lo: int, hi: int)
    requires lo <= hi
    ensures |Range(lo, hi)| == hi - lo
    decreases hi - lo
  {
    if lo < hi {
      RangeCount(lo + 1, hi);
    }
  }

  lemma PagesStart(p: nat, o: nat)
    ensures p in Pages(p, o)
    ensures Pages(p, 0) == {p}
  {
  }

  lemma PagesHalves(p: nat, o: nat)
    ensures Pow2(o + 1) == Pow2(o) + Pow2(o)
    ensures Pages(p, o + 1) == Pages(p, o) + Pages(p + Pow2(o), o)
    ensures Pages(p, o) !! Pages(p + Pow2(o), o)
  {
  }

  lemma PagesCount(p: nat, o: nat)
    ensures |Pages(p, o)| == Pow2(o)
  {
    hide Pow2, Range;
    RangeCount(p, p + Pow2(o));
  }

  lemma {:induction false} BuddyTwice(p: nat, o: nat)
    ensures Buddy(Buddy(p, o), o) == p
  {
    if o > 0 {
      BuddyTwice(p / 2, o - 1);
      assert Buddy(p, o) / 2 == Buddy(p / 2, o - 1);
    }
  }

  /** The start and the end of an aligned block are aligned to every smaller block size. */
  lemma {:induction false} AlignedWithin(p: nat, o: nat, k: nat)
    requires BlockAligned(p, o) && k <= o
    ensures BlockAligned(p, k) && BlockAligned(p + Pow2(o), k)
    decreases o
  {
    if k > 0 {
      AlignedWithin(p / 2, o - 1, k - 1);
      assert (p + Pow2(o)) / 2 == p / 2 + Pow2(o - 1);
    }
  }

  /** BlockAligned blocks that meet are nested. */
  lemma Nested(p: nat, o: nat, q: nat, k: nat, x: int)
    requires BlockAligned(p, o) && BlockAligned(q, k) && k <= o && x in Pages(p, o) && x in Pages(q, k)
    ensures Pages(q, k) <= Pages(p, o) && p <= q && q + Pow2(k) <= p + Pow2(o)
  {
    AlignedWithin(p, o, k);
    if q < p {
      AlignedApart(q, p, k);
    } else if q < p + Pow2(o) {
      AlignedApart(q, p + Pow2(o), k);
    }
  }
}
