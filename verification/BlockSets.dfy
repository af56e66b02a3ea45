/** Sets of buddy blocks: splitting, merging and the coalesced form (kernel/mm/pmm.c). */
module BlockSets {
  import opened BuddyBlocks

  type Blocks = map<nat, nat>

  // ------------------------------------------------------------------------
  // Sets of blocks
  // ------------------------------------------------------------------------

  /** Blocks of the given orders at the given frames: aligned, inside the table, disjoint. */
  ghost predicate BlocksOk(n: nat, bs: Blocks) {
    && (forall p :: p in bs ==> bs[p] < MAX_ORDER && BlockAligned(p, bs[p]) && p + Pow2(bs[p]) <= n)
    && (forall p, q :: p in bs && q in bs && p < q ==> p + Pow2(bs[p]) <= q)
  }

  lemma BlockAt(n: nat, bs: Blocks, p: nat)
    requires BlocksOk(n, bs) && p in bs
    ensures bs[p] < MAX_ORDER && BlockAligned(p, bs[p]) && p < n
  {
  }

  /** All frames of a set of blocks. */
  ghost function Union(bs: Blocks): set<int> {
    set p, x | p in bs && x in Pages(p, bs[p]) :: x
  }

  lemma UnionAdd(bs: Blocks, p: nat, o: nat)
    requires p !in bs
    ensures Union(bs[p := o]) == Union(bs) + Pages(p, o)
  {
    var bs' := bs[p := o];
    forall x | x in Union(bs) ensures x in Union(bs') {
      var q :| q in bs && x in Pages(q, bs[q]);
      assert bs'[q] == bs[q];
    }
    forall x | x in Pages(p, o) ensures x in Union(bs') {
      assert bs'[p] == o;
    }
  }

  lemma UnionRemove(n: nat, bs: Blocks, p: nat)
    requires BlocksOk(n, bs) && p in bs
    ensures Union(bs - {p}) == Union(bs) - Pages(p, bs[p])
    ensures Pages(p, bs[p]) <= Union(bs)
  {
    var bs' := bs - {p};
    forall x | x in Union(bs) - Pages(p, bs[p]) ensures x in Union(bs') {
      var q :| q in bs && x in Pages(q, bs[q]);
      assert q in bs' && bs'[q] == bs[q];
    }
    forall x | x in Union(bs') ensures x in Union(bs) - Pages(p, bs[p]) {
      var q :| q in bs' && x in Pages(q, bs'[q]);
      assert q in bs && q != p;
      assert q < p ==> q + Pow2(bs[q]) <= p;
    }
  }

  /** A block gives way to its two halves. */
  lemma SplitBlock(n: nat, bs: Blocks, p: nat, o: nat)
    requires BlocksOk(n, bs) && p in bs && bs[p] == o + 1
    ensures var q := p + Pow2(o);
      && q !in bs
      && BlocksOk(n, bs[p := o][q := o])
      && Pages(p, o + 1) == Pages(p, o) + Pages(q, o)
      && Pages(p, o) !! Pages(q, o)
  {
    hide BlockAligned, Buddy, Pow2, Pages;
    AlignedHalves(p, o);
    PagesHalves(p, o);
    var q := p + Pow2(o);
    assert forall r :: r in bs && p < r ==> p + Pow2(o + 1) <= r;
  }

  /** Two buddies give way to the block they form. */
  lemma MergeBlocks(n: nat, bs: Blocks, p: nat, o: nat)
    requires BlocksOk(n, bs) && p in bs && bs[p] == o && Buddy(p, o) in bs && bs[Buddy(p, o)] == o && o + 1 < MAX_ORDER
    ensures var b := Buddy(p, o);
      var m := if b < p then b else p;
      && b != p
      && BlocksOk(n, (bs - {p, b})[m := o + 1])
      && Pages(m, o + 1) == Pages(p, o) + Pages(b, o)
      && Pages(p, o) !! Pages(b, o)
  {
    hide BlockAligned, Buddy, Pow2, Pages;
    BuddyHalves(p, o);
    var b := Buddy(p, o);
    var m := if b < p then b else p;
    PagesHalves(m, o);
    var h := m + Pow2(o);
    var bs' := (bs - {p, b})[m := o + 1];
    forall r, s | r in bs' && s in bs' && r < s ensures r + Pow2(bs'[r]) <= s {
      if r == m {
        assert h in bs && m in bs && bs[h] == o && bs[m] == o && s in bs;
      }
    }
  }

  // ------------------------------------------------------------------------
  // Coalesced sets of blocks
  // ------------------------------------------------------------------------

  /** No two buddies below the top order are both in the set. */
  ghost predicate Coalesced(bs: Blocks) {
    forall p :: p in bs && bs[p] + 1 < MAX_ORDER ==> !Paired(bs, p, Buddy(p, bs[p]))
  }

  ghost predicate Paired(bs: Blocks, p: nat, b: nat)
    requires p in bs
  {
    b in bs && bs[b] == bs[p]
  }

  lemma CoalescedRemove(bs: Blocks, p: nat)
    requires Coalesced(bs)
    ensures Coalesced(bs - {p})
  {
    forall q | q in bs - {p} && bs[q] + 1 < MAX_ORDER ensures !Paired(bs - {p}, q, Buddy(q, bs[q])) {
      assert !Paired(bs, q, Buddy(q, bs[q]));
    }
  }

  /** Adding a block whose buddy is not in the set, at its order. */
  lemma CoalescedAdd(bs: Blocks, p: nat, o: nat)
    requires Coalesced(bs) && p !in bs
    requires o + 1 < MAX_ORDER ==> !(Buddy(p, o) in bs && bs[Buddy(p, o)] == o)
    ensures Coalesced(bs[p := o])
  {
    hide Buddy;
    var bs' := bs[p := o];
    forall q | q in bs' && bs'[q] + 1 < MAX_ORDER ensures !Paired(bs', q, Buddy(q, bs'[q])) {
      BuddyTwice(q, bs'[q]);
      BuddyTwice(p, o);
      if q != p {
        assert !Paired(bs, q, Buddy(q, bs[q]));
      } else {
        BuddyDiffers(p, o);
      }
    }
  }

  lemma {:induction false} BuddyDiffers(p: nat, o: nat)
    ensures Buddy(p, o) != p
  {
    if o > 0 {
      BuddyDiffers(p / 2, o - 1);
    }
  }

  lemma NotBothHalves(bs: Blocks, q: nat, k: nat)
    requires Coalesced(bs) && BlockAligned(q, k + 1) && k + 1 < MAX_ORDER && q in bs && bs[q] == k
    ensures !(q + Pow2(k) in bs && bs[q + Pow2(k)] == k)
  {
    AlignedHalves(q, k);
    assert !Paired(bs, q, Buddy(q, k));
  }

  /** When each half of an aligned run lies in a block of a coalesced set, so does the run. */
  lemma JoinHalves(n: nat, bs: Blocks, q: nat, k: nat, p: nat, r: nat) returns (w: nat)
    requires BlocksOk(n, bs) && Coalesced(bs) && BlockAligned(q, k + 1) && k + 1 < MAX_ORDER
    requires p in bs && k <= bs[p] && Pages(q, k) <= Pages(p, bs[p])
    requires r in bs && k <= bs[r] && Pages(q + Pow2(k), k) <= Pages(r, bs[r])
    ensures w in bs && k + 1 <= bs[w] && Pages(q, k + 1) <= Pages(w, bs[w])
  {
    hide BlockAligned, Buddy, Pages, Pow2, Coalesced, BlocksOk;
    var h := q + Pow2(k);
    w := p;
    AlignedHalves(q, k);
    PagesHalves(q, k);
    PagesStart(q, k);
    PagesStart(h, k);
    BlockAt(n, bs, p);
    BlockAt(n, bs, r);
    if bs[p] > k {
      Nested(p, bs[p], q, k + 1, q);
    } else if bs[r] > k {
      Nested(r, bs[r], q, k + 1, h);
      w := r;
    } else {
      Nested(p, k, q, k, q);
      Nested(r, k, h, k, h);
      NotBothHalves(bs, q, k);
    }
  }

  /** In a coalesced set every aligned run of covered frames lies inside one block. */
  lemma {:induction false} OneBlock(n: nat, bs: Blocks, q: nat, k: nat) returns (p: nat)
    requires BlocksOk(n, bs) && Coalesced(bs) && k < MAX_ORDER && BlockAligned(q, k) && Pages(q, k) <= Union(bs)
    ensures p in bs && k <= bs[p] && Pages(q, k) <= Pages(p, bs[p])
    decreases k
  {
    hide BlockAligned, Buddy, Pages, Pow2, Coalesced, BlocksOk;
    if k == 0 {
      PagesStart(q, 0);
      p :| p in bs && q in Pages(p, bs[p]);
    } else {
      AlignedHalves(q, k - 1);
      PagesHalves(q, k - 1);
      p := OneBlock(n, bs, q, k - 1);
      var r := OneBlock(n, bs, q + Pow2(k - 1), k - 1);
      p := JoinHalves(n, bs, q, k - 1, p, r);
    }
  }

  lemma MeetingBlocks(n: nat, bs: Blocks, p: nat, q: nat, x: int)
    requires BlocksOk(n, bs) && p in bs && q in bs && x in Pages(p, bs[p]) && x in Pages(q, bs[q])
    ensures p == q
  {
  }

  /** A coalesced set of blocks is determined by the frames it covers. */
  lemma Canonical(n: nat, bs: Blocks, cs: Blocks)
    requires BlocksOk(n, bs) && Coalesced(bs) && BlocksOk(n, cs) && Coalesced(cs) && Union(bs) == Union(cs)
    ensures bs == cs
  {
    forall p | p in bs ensures p in cs && cs[p] == bs[p] {
      SameBlock(n, bs, cs, p);
    }
    forall p | p in cs ensures p in bs && bs[p] == cs[p] {
      SameBlock(n, cs, bs, p);
    }
  }

  lemma SameBlock(n: nat, bs: Blocks, cs: Blocks, p: nat)
    requires BlocksOk(n, bs) && Coalesced(bs) && BlocksOk(n, cs) && Coalesced(cs) && Union(bs) == Union(cs)
    requires p in bs
    ensures p in cs && cs[p] == bs[p]
  {
    UnionRemove(n, bs, p);
    var q := OneBlock(n, cs, p, bs[p]);
    UnionRemove(n, cs, q);
    var r := OneBlock(n, bs, q, cs[q]);
    assert p in Pages(p, bs[p]);
    MeetingBlocks(n, bs, p, r, p);
    Nested(q, cs[q], p, bs[p], p);
    Nested(p, bs[p], q, cs[q], p);
  }

  lemma ApartPages(p: nat, o: nat, q: nat, k: nat)
    requires Pages(p, o) !! Pages(q, k)
    ensures p + Pow2(o) <= q || q + Pow2(k) <= p
  {
    assert p in Pages(p, o) && q in Pages(q, k);
    assert p !in Pages(q, k) && q !in Pages(p, o);
  }

  /** A block of frames no block of the set covers can join it. */
  lemma AddBlock(n: nat, bs: Blocks, p: nat, o: nat)
    requires BlocksOk(n, bs) && o < MAX_ORDER && BlockAligned(p, o) && p + Pow2(o) <= n && Pages(p, o) !! Union(bs)
    ensures p !in bs && BlocksOk(n, bs[p := o])
  {
    hide BlockAligned, Pow2, Pages;
    forall q | q in bs ensures p + Pow2(o) <= q || q + Pow2(bs[q]) <= p {
      assert forall x :: x in Pages(q, bs[q]) ==> x in Union(bs);
      ApartPages(p, o, q, bs[q]);
    }
  }
}
