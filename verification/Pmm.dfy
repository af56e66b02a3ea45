/** The zoned buddy allocator (kernel/mm/pmm.c): allocation by splitting, freeing by
    coalescing, range registration, zero-on-free and the statistics. */
module Pmm {
  import opened Base
  import opened BlockSets
  import opened BuddyBlocks
  import opened FreeLists
  import opened PfnLinks

  /** The allocator's state: `zeroed` is the set of frames whose bytes are all zero, `live` the
      blocks handed out, `registered` the frames the allocator was given. */
  datatype State = State(pfns: seq<Pfn>, lists: map<Slot, seq<nat>>, stats: Stats, zeroed: set<int>,
                         live: Blocks, registered: set<int>)
  {
    ghost function Free(): Blocks {
      FreeBlocks(pfns)
    }

    ghost function FreeFrames(): set<int> {
      Union(Free())
    }

    /** The registered frames are partitioned into free blocks and live blocks, the lists and
        counters describe the free ones, and every free frame is zero. */
    ghost predicate Ok() {
      && Free().Keys !! live.Keys
      && BlocksOk(|pfns|, Free() + live)
      && registered == FreeFrames() + Union(live)
      && ListsOk(pfns, lists)
      && StatsOk(stats, FreeFrames(), registered, lists)
      && FreeFrames() <= zeroed
    }

    /** `list_remove`, the counters and clearing PFN_FREE. */
    function Taken(p: nat): State
      requires p < |pfns| && Slot(ZoneOf(p), pfns[p].order) in lists
      requires pfns[p].order in stats.byOrder && ZoneOf(p) in stats.zoneFree
    {
      var o := pfns[p].order;
      var s := Slot(ZoneOf(p), o);
      this.(pfns := pfns[p := pfns[p].(free := false)], lists := lists[s := Without(lists[s], p)],
            stats := Counted(stats, s.zone, o, -1, 0 - Pow2(o)), live := live[p := o])
    }

    /** `list_push` and the counters. */
    function Pushed(p: nat, o: nat): State
      requires p < |pfns| && Slot(ZoneOf(p), o) in lists && o in stats.byOrder && ZoneOf(p) in stats.zoneFree
    {
      var s := Slot(ZoneOf(p), o);
      this.(pfns := pfns[p := Pfn(true, o)], lists := lists[s := [p] + lists[s]],
            stats := Counted(stats, s.zone, o, 1, Pow2(o)), live := live - {p})
    }

    /** A block zeroed and counted into its zone, on no list yet. */
    ghost function Admitted(p: nat, o: nat): State
      requires ZoneOf(p) in stats.zoneTotal
    {
      var z := ZoneOf(p);
      this.(zeroed := zeroed + Pages(p, o), live := live[p := o], registered := registered + Pages(p, o),
            stats := stats.(zoneTotal := stats.zoneTotal[z := stats.zoneTotal[z] + Pow2(o)]))
    }
  }

  lemma FreePart(st: State)
    requires st.Ok()
    ensures BlocksOk(|st.pfns|, st.Free()) && BlocksOk(|st.pfns|, st.live)
    ensures st.FreeFrames() !! Union(st.live)
  {
    var all := st.Free() + st.live;
    assert forall p :: p in st.Free() ==> p in all && all[p] == st.Free()[p];
    assert forall p :: p in st.live ==> p in all && all[p] == st.live[p];
    forall x | x in st.FreeFrames() && x in Union(st.live) ensures false {
      var p :| p in st.Free() && x in Pages(p, st.Free()[p]);
      var q :| q in st.live && x in Pages(q, st.live[q]);
      MeetingBlocks(|st.pfns|, all, p, q, x);
    }
  }

  lemma FreeAt(pfns: seq<Pfn>, p: nat)
    ensures p in FreeBlocks(pfns) <==> p < |pfns| && pfns[p].free
    ensures p in FreeBlocks(pfns) ==> FreeBlocks(pfns)[p] == pfns[p].order
  {
  }

  lemma Moved(from: Blocks, to: Blocks, p: nat)
    requires p in from && p !in to
    ensures (from - {p}) + to[p := from[p]] == from + to
    ensures to[p := from[p]] + (from - {p}) == to + from
    ensures (from - {p}).Keys !! to[p := from[p]].Keys <== from.Keys !! to.Keys
  {
  }

  lemma TakenOk(st: State, p: nat)
    requires st.Ok() && p in st.Free()
    ensures p < |st.pfns| && Slot(ZoneOf(p), st.pfns[p].order) in st.lists
    ensures st.pfns[p].order in st.stats.byOrder && ZoneOf(p) in st.stats.zoneFree
    ensures var st' := st.Taken(p);
      && st'.Ok()
      && st'.Free() == st.Free() - {p}
      && st'.FreeFrames() == st.FreeFrames() - Pages(p, st.Free()[p])
      && p !in st.live
  {
    hide BlockAligned, Pow2, Pages, BlocksOk, ListsOk, StatsOk, Union, FreeBlocks, Without, ZoneOf;
    FreePart(st);
    FreeAt(st.pfns, p);
    var o := st.pfns[p].order;
    var s := Slot(ZoneOf(p), o);
    BlockAt(|st.pfns|, st.Free(), p);
    UnlistOk(st.pfns, st.lists, p);
    UnionRemove(|st.pfns|, st.Free(), p);
    UnionAdd(st.live, p, o);
    CountOut(st.stats, st.FreeFrames(), st.registered, st.lists, Without(st.lists[s], p), p, o);
    Moved(st.Free(), st.live, p);
  }

  lemma PushedOk(st: State, p: nat, o: nat)
    requires st.Ok() && p in st.live && st.live[p] == o && Pages(p, o) <= st.zeroed
    ensures p < |st.pfns| && Slot(ZoneOf(p), o) in st.lists && o in st.stats.byOrder && ZoneOf(p) in st.stats.zoneFree
    ensures var st' := st.Pushed(p, o);
      && st'.Ok()
      && st'.Free() == st.Free()[p := o]
      && p !in st.Free()
      && st'.FreeFrames() == st.FreeFrames() + Pages(p, o)
  {
    hide BlockAligned, Pow2, Pages, BlocksOk, ListsOk, StatsOk, Union, FreeBlocks, ZoneOf;
    FreePart(st);
    FreeAt(st.pfns, p);
    BlockAt(|st.pfns|, st.live, p);
    UnionRemove(|st.pfns|, st.live, p);
    UnionAdd(st.Free(), p, o);
    PushOk(st.pfns, st.lists, p, o);
    CountIn(st.stats, st.FreeFrames(), st.registered, st.lists, p, o);
    Moved(st.live, st.Free(), p);
  }

  lemma LiveNotFree(st: State, p: nat)
    requires st.Ok() && p in st.live
    ensures p !in st.Free()
  {
  }

  lemma LiveAt(st: State, p: nat)
    requires st.Ok() && p in st.live
    ensures p < |st.pfns| && st.live[p] < MAX_ORDER && BlockAligned(p, st.live[p])
  {
    hide BlocksOk, ListsOk, StatsOk, Union, FreeBlocks;
    FreePart(st);
    BlockAt(|st.pfns|, st.live, p);
  }

  lemma Relive(st: State, live: Blocks)
    requires st.Ok() && BlocksOk(|st.pfns|, st.Free() + live) && Union(live) == Union(st.live)
    requires st.Free().Keys !! live.Keys
    ensures st.(live := live).Ok()
  {
    hide Union, FreeBlocks, BlocksOk, ListsOk, StatsOk;
  }

  lemma UnionSplit(n: nat, bs: Blocks, p: nat, o: nat)
    requires BlocksOk(n, bs) && p in bs && bs[p] == o + 1 && p + Pow2(o) !in bs
    ensures Union(bs[p := o][p + Pow2(o) := o]) == Union(bs)
  {
    PagesHalves(p, o);
    hide Pow2, Pages, BlocksOk, Union;
    var q := p + Pow2(o);
    UnionRemove(n, bs, p);
    UnionAdd(bs - {p}, p, o);
    var l := (bs - {p})[p := o];
    assert l == bs[p := o];
    UnionAdd(l, q, o);
  }

  lemma UnionMerge(n: nat, bs: Blocks, p: nat, b: nat, m: nat, o: nat)
    requires BlocksOk(n, bs) && p in bs && bs[p] == o && b in bs && bs[b] == o && p != b && m in {p, b}
    requires Pages(m, o + 1) == Pages(p, o) + Pages(b, o)
    ensures Union((bs - {p, b})[m := o + 1]) == Union(bs)
  {
    hide Pow2, Pages, BlocksOk, Union;
    UnionRemove(n, bs, p);
    SubBlocks(n, bs, p);
    UnionRemove(n, bs - {p}, b);
    assert bs - {p, b} == bs - {p} - {b};
    UnionAdd(bs - {p, b}, m, o + 1);
  }

  /** A live block regarded as its two halves. */
  lemma SplitLive(st: State, p: nat, o: nat)
    requires st.Ok() && p in st.live && st.live[p] == o + 1
    ensures var q := p + Pow2(o);
      && q !in st.live && p != q
      && st.(live := st.live[p := o][q := o]).Ok()
      && Pages(p, o + 1) == Pages(p, o) + Pages(q, o)
      && Pages(p, o) !! Pages(q, o)
      && Buddy(q, o) == p
  {
    hide BlockAligned, Pow2, Pages, BlocksOk, ListsOk, StatsOk, Union, FreeBlocks, Buddy;
    FreePart(st);
    BlockAt(|st.pfns|, st.live, p);
    AlignedHalves(p, o);
    var q := p + Pow2(o);
    var live := st.live[p := o][q := o];
    SplitBlock(|st.pfns|, st.Free() + st.live, p, o);
    UnionSplit(|st.pfns|, st.live, p, o);
    assert (st.Free() + st.live)[p := o][q := o] == st.Free() + live;
    Relive(st, live);
  }

  /** Two live buddies regarded as one block. */
  lemma MergeLive(st: State, p: nat, o: nat)
    requires st.Ok() && p in st.live && st.live[p] == o && o + 1 < MAX_ORDER
    requires Buddy(p, o) in st.live && st.live[Buddy(p, o)] == o
    ensures var b := Buddy(p, o);
      var m := if b < p then b else p;
      && b != p
      && st.(live := (st.live - {p, b})[m := o + 1]).Ok()
      && Pages(m, o + 1) == Pages(p, o) + Pages(b, o)
  {
    hide BlockAligned, Pow2, Pages, BlocksOk, ListsOk, StatsOk, Union, FreeBlocks, Buddy;
    FreePart(st);
    var b := Buddy(p, o);
    var m := if b < p then b else p;
    var live := (st.live - {p, b})[m := o + 1];
    MergeBlocks(|st.pfns|, st.Free() + st.live, p, o);
    UnionMerge(|st.pfns|, st.live, p, b, m, o);
    assert ((st.Free() + st.live) - {p, b})[m := o + 1] == st.Free() + live;
    Relive(st, live);
  }

  lemma SubBlocks(n: nat, bs: Blocks, p: nat)
    requires BlocksOk(n, bs)
    ensures BlocksOk(n, bs - {p})
  {
  }

  /** A block and its buddy lie in one zone: the zone test of the coalescing loop never fails. */
  lemma BuddyZone(p: nat, o: nat)
    requires BlockAligned(p, o) && o + 1 < MAX_ORDER
    ensures ZoneOf(Buddy(p, o)) == ZoneOf(p)
  {
    BuddyHalves(p, o);
    var b := Buddy(p, o);
    var m := if b < p then b else p;
    PagesHalves(m, o);
    OneZone(m, o + 1, m + Pow2(o));
  }

  /** The smallest order from `o` up with a block on the zone's list, or MAX_ORDER. */
  function FirstOrder(lists: map<Slot, seq<nat>>, z: Zone, o: nat): (r: nat)
    requires o <= MAX_ORDER && forall k :: o <= k < MAX_ORDER ==> Slot(z, k) in lists
    ensures o <= r <= MAX_ORDER
    ensures r < MAX_ORDER ==> lists[Slot(z, r)] != []
    ensures forall k :: o <= k < r ==> lists[Slot(z, k)] == []
    decreases MAX_ORDER - o
  {
    if o == MAX_ORDER || lists[Slot(z, o)] != [] then o else FirstOrder(lists, z, o + 1)
  }

  lemma FirstOrderStep(lists: map<Slot, seq<nat>>, z: Zone, o: nat)
    requires o <= MAX_ORDER && forall k :: o <= k < MAX_ORDER ==> Slot(z, k) in lists
    ensures FirstOrder(lists, z, o) ==
            if o == MAX_ORDER || lists[Slot(z, o)] != [] then o else FirstOrder(lists, z, o + 1)
  {
  }

  lemma ListsPresent(st: State, z: Zone)
    requires st.Ok()
    ensures forall o :: 0 <= o < MAX_ORDER ==> Slot(z, o) in st.lists
  {
  }

  /** The block an allocation of this order in this zone is cut from. */
  ghost function Choice(st: State, z: Zone, order: nat): Option<nat>
    requires st.Ok() && order < MAX_ORDER
  {
    ListsPresent(st, z);
    var k := FirstOrder(st.lists, z, order);
    if k == MAX_ORDER then None else Some(st.lists[Slot(z, k)][0])
  }

  ghost function Chosen(st: State, order: int): Option<nat>
    requires st.Ok()
  {
    if order < 0 || order >= MAX_ORDER then None
    else if Choice(st, Normal, order).Some? then Choice(st, Normal, order)
    else Choice(st, Dma, order)
  }

  /** From `st` to `st'` the block of order `order` at `p`, all zero, goes from free to live;
      nothing else changes hands and coalescing is kept. */
  ghost predicate Handed(st: State, st': State, p: nat, order: nat) {
    && st'.Ok()
    && p !in st.live && st'.live == st.live[p := order]
    && Pages(p, order) <= st.FreeFrames() && st'.FreeFrames() == st.FreeFrames() - Pages(p, order)
    && Pages(p, order) <= st'.zeroed && st'.zeroed == st.zeroed
    && |st'.pfns| == |st.pfns| && st'.registered == st.registered
    && (Coalesced(st.Free()) ==> Coalesced(st'.Free()))
  }

  lemma HandedBy(st: State, st': State, p: nat, o: nat, order: nat)
    requires st.Ok() && st'.Ok() && p in st.Free() && st.Free()[p] == o && Pages(p, order) <= Pages(p, o)
    requires p !in st.live && st'.live == st.live[p := order]
    requires st'.FreeFrames() == st.FreeFrames() - Pages(p, o) + (Pages(p, o) - Pages(p, order))
    requires st'.zeroed == st.zeroed && |st'.pfns| == |st.pfns| && st'.registered == st.registered
    requires Coalesced(st.Free()) ==> Coalesced(st'.Free())
    ensures Handed(st, st', p, order)
  {
    hide State.Ok, FreeBlocks, Union, Pages, Coalesced, BlocksOk;
    FreePart(st);
    UnionRemove(|st.pfns|, st.Free(), p);
    FramesZero(st);
    assert Pages(p, o) <= st.FreeFrames();
  }

  lemma FramesZero(st: State)
    requires st.Ok()
    ensures forall p :: p in st.Free() ==> Pages(p, st.Free()[p]) <= st.zeroed
  {
    FreePart(st);
    forall p | p in st.Free() ensures Pages(p, st.Free()[p]) <= st.zeroed {
      UnionRemove(|st.pfns|, st.Free(), p);
    }
  }

  lemma HeadFree(st: State, z: Zone, o: nat)
    requires st.Ok() && o < MAX_ORDER && Slot(z, o) in st.lists && st.lists[Slot(z, o)] != []
    ensures var p := st.lists[Slot(z, o)][0];
      p in st.Free() && st.Free()[p] == o && ZoneOf(p) == z
  {
    hide StatsOk, BlocksOk, Union;
    var l := st.lists[Slot(z, o)];
    assert OnList(st.pfns, Slot(z, o), l) && l[0] in l;
    FreeAt(st.pfns, l[0]);
  }

  /** Recording the order of a block that is not free. */
  lemma SetOrderOk(st: State, p: nat, o: nat)
    requires st.Ok() && p in st.live
    ensures p < |st.pfns|
    ensures var st' := st.(pfns := st.pfns[p := Pfn(false, o)]);
      st'.Ok() && st'.Free() == st.Free()
  {
    hide ListsOk, FreeBlocks, StatsOk, BlocksOk, Union, Pages;
    FreePart(st);
    LiveNotFree(st, p);
    FreeAt(st.pfns, p);
    BlockAt(|st.pfns|, st.live, p);
    ReorderLists(st.pfns, st.lists, p, o);
  }

  lemma ReorderLists(pfns: seq<Pfn>, lists: map<Slot, seq<nat>>, p: nat, o: nat)
    requires ListsOk(pfns, lists) && p < |pfns| && !pfns[p].free
    ensures ListsOk(pfns[p := Pfn(false, o)], lists) && FreeBlocks(pfns[p := Pfn(false, o)]) == FreeBlocks(pfns)
  {
    var pfns' := pfns[p := Pfn(false, o)];
    forall s | s in lists ensures OnList(pfns', s, lists[s]) {
      assert OnList(pfns, s, lists[s]);
    }
    forall q | 0 <= q < |pfns'| ensures Listed(pfns', lists, q) {
      assert Listed(pfns, lists, q);
    }
  }

  lemma ZeroOk(st: State, more: set<int>)
    requires st.Ok()
    ensures st.(zeroed := st.zeroed + more).Ok()
  {
    hide StatsOk, BlocksOk, Union, ListsOk, FreeBlocks;
  }

  /** A fresh block counted into its zone and handled as live until it is pushed. */
  lemma AdmitOk(st: State, p: nat, o: nat)
    requires st.Ok() && o < MAX_ORDER && BlockAligned(p, o) && p + Pow2(o) <= |st.pfns| && Pages(p, o) !! st.registered
    ensures ZoneOf(p) in st.stats.zoneTotal && p !in st.live
    ensures st.Admitted(p, o).Ok()
  {
    hide BlockAligned, Pow2, Pages, BlocksOk, ListsOk, Union, FreeBlocks, ZoneOf, OrdersOk;
    UnionBoth(st.Free(), st.live);
    AddBlock(|st.pfns|, st.Free() + st.live, p, o);
    assert (st.Free() + st.live)[p := o] == st.Free() + st.live[p := o];
    UnionAdd(st.live, p, o);
    ZoneCount(st.stats.zoneTotal, st.registered, p, o);
  }

  lemma UnionBoth(bs: Blocks, cs: Blocks)
    requires bs.Keys !! cs.Keys
    ensures Union(bs + cs) == Union(bs) + Union(cs)
  {
    hide Pages;
    var all := bs + cs;
    assert forall p :: p in bs ==> all[p] == bs[p];
    assert forall p :: p in cs ==> all[p] == cs[p];
  }

  // ------------------------------------------------------------------------
  // What coalescing buys
  // ------------------------------------------------------------------------

  ghost predicate FreeRun(st: State, z: Zone, order: nat, q: nat) {
    BlockAligned(q, order) && ZoneOf(q) == z && Pages(q, order) <= st.FreeFrames()
  }

  /** No fragmentation beyond alignment: an allocation in a zone finds a block exactly when some
      aligned run of that many frames of the zone is free. */
  lemma Availability(st: State, z: Zone, order: nat)
    requires st.Ok() && order < MAX_ORDER && Coalesced(st.Free())
    ensures Choice(st, z, order).Some? <==> exists q :: FreeRun(st, z, order, q)
  {
    hide StatsOk, BlocksOk, Union, Coalesced, Pages, BlockAligned, ZoneOf;
    FreePart(st);
    ListsPresent(st, z);
    var k := FirstOrder(st.lists, z, order);
    if k < MAX_ORDER {
      HeadFree(st, z, k);
      var p := st.lists[Slot(z, k)][0];
      BlockAt(|st.pfns|, st.Free(), p);
      UnionRemove(|st.pfns|, st.Free(), p);
      AlignedWithin(p, k, order);
      Smaller(p, k, order);
      assert FreeRun(st, z, order, p);
    }
    if q :| FreeRun(st, z, order, q) {
      var p := OneBlock(|st.pfns|, st.Free(), q, order);
      BlockAt(|st.pfns|, st.Free(), p);
      InsideZone(p, st.Free()[p], q, order);
      ListedExactly(st.pfns, st.lists, Slot(z, st.Free()[p]), p);
    }
  }

  lemma Smaller(p: nat, k: nat, order: nat)
    requires order <= k
    ensures Pages(p, order) <= Pages(p, k)
    decreases k
  {
    if order < k {
      Smaller(p, k - 1, order);
    }
  }

  lemma InsideZone(p: nat, k: nat, q: nat, order: nat)
    requires BlockAligned(p, k) && k < MAX_ORDER && Pages(q, order) <= Pages(p, k)
    ensures ZoneOf(q) == ZoneOf(p)
  {
    assert q in Pages(q, order);
    OneZone(p, k, q);
  }

  /** Coalesced states with the same live blocks agree on every free block and every counter:
      allocating and freeing in any order leaves no trace once the same blocks are live. */
  lemma SameLive(st: State, st': State)
    requires st.Ok() && st'.Ok() && Coalesced(st.Free()) && Coalesced(st'.Free())
    requires st.live == st'.live && st.registered == st'.registered && |st.pfns| == |st'.pfns|
    ensures st.Free() == st'.Free() && st.stats.freePages == st'.stats.freePages
    ensures forall o :: 0 <= o < MAX_ORDER ==>
      o in st.stats.byOrder && o in st'.stats.byOrder && st.stats.byOrder[o] == st'.stats.byOrder[o]
    ensures forall z :: z in st.stats.zoneFree && z in st'.stats.zoneFree &&
              st.stats.zoneFree[z] == st'.stats.zoneFree[z]
  {
    hide BlocksOk, ListsOk, Union, FreeBlocks, Coalesced, InZone;
    FreePart(st);
    FreePart(st');
    assert st.FreeFrames() == st.registered - Union(st.live);
    assert st'.FreeFrames() == st.registered - Union(st.live);
    Canonical(|st.pfns|, st.Free(), st'.Free());
    forall s: Slot | s.order < MAX_ORDER ensures s in st.lists && s in st'.lists && |st.lists[s]| == |st'.lists[s]| {
      SameLength(st.pfns, st.lists, st'.pfns, st'.lists, s);
    }
  }

  // ------------------------------------------------------------------------
  // Registering a range greedily
  // ------------------------------------------------------------------------

  /** The block fits before `end`, and the next larger one is misaligned or does not. */
  ghost predicate Greedy(start: nat, order: nat, end: nat) {
    && BlockAligned(start, order) && start + Pow2(order) <= end
    && (order + 1 < MAX_ORDER && BlockAligned(start, order + 1) ==> start + Pow2(order + 1) > end)
  }

  ghost predicate GreedyFrom(bs: Blocks, first: nat, start: nat, end: nat) {
    forall p :: p in bs && first <= p < start ==> Greedy(p, bs[p], end)
  }

  lemma GreedyStart(st: State, first: nat, end: nat)
    ensures GreedyFrom(st.Free(), first, first, end)
  {
  }

  lemma RangeSplit(a: int, b: int, c: int)
    requires a <= b <= c
    ensures Range(a, c) == Range(a, b) + Range(b, c)
  {
  }

  lemma FreeCovers(st: State, b: nat, x: int)
    requires st.Ok() && b in st.Free() && b <= x < b + Pow2(st.Free()[b])
    ensures x in st.FreeFrames()
  {
    assert x in Pages(b, st.Free()[b]);
  }

  /** The next greedy block has no free buddy of its order: the one below would not have been
      greedy, the one above would reach `end`. */
  lemma GreedyAlone(st: State, first: nat, start: nat, order: nat, end: nat)
    requires st.Ok() && GreedyFrom(st.Free(), first, start, end) && Greedy(start, order, end)
    requires order + 1 < MAX_ORDER && first <= start
    requires first - 1 !in st.FreeFrames() && end !in st.FreeFrames()
    ensures var b := Buddy(start, order);
      !(b in st.Free() && st.Free()[b] == order)
  {
    hide State.Ok, FreeBlocks, Union, Pages, BlockAligned, Buddy, Pow2;
    BuddyHalves(start, order);
    PagesHalves(start, order);
    var b := Buddy(start, order);
    if b in st.Free() && st.Free()[b] == order {
      if start < b {
        FreeCovers(st, b, end);
      } else if b < first {
        FreeCovers(st, b, first - 1);
      }
    }
  }

  lemma GreedyAdd(st: State, first: nat, start: nat, order: nat, end: nat)
    requires st.Ok() && Coalesced(st.Free()) && GreedyFrom(st.Free(), first, start, end)
    requires order < MAX_ORDER && Greedy(start, order, end) && first <= start && Pages(start, order) !! st.registered
    requires start !in st.Free() && first - 1 !in st.FreeFrames() && end !in st.FreeFrames()
    ensures var bs := st.Free()[start := order];
      Coalesced(bs) && GreedyFrom(bs, first, start + Pow2(order), end)
  {
    hide State.Ok, FreeBlocks, Union, BlockAligned, Greedy, Coalesced, Buddy, Pow2, Pages;
    if order + 1 < MAX_ORDER {
      GreedyAlone(st, first, start, order, end);
    }
    CoalescedAdd(st.Free(), start, order);
    forall p | p in st.Free() && start < p ensures start + Pow2(order) <= p {
      FreeOutside(st, start, order, p);
    }
  }

  lemma FreeOutside(st: State, start: nat, order: nat, p: nat)
    requires st.Ok() && Pages(start, order) !! st.registered && p in st.Free() && start < p
    ensures start + Pow2(order) <= p
  {
    FreeCovers(st, p, p);
    assert p !in Pages(start, order);
  }

  lemma PagesRange(p: nat, o: nat)
    ensures Pages(p, o) == Range(p, p + Pow2(o))
  {
  }

  function EmptyLists(n: nat): (m: map<Slot, seq<nat>>)
    ensures forall s: Slot :: s in m <==> s.order < n
    ensures forall s: Slot :: s in m ==> m[s] == []
  {
    assert forall s: Slot :: s.zone == Dma || s.zone == Normal;
    if n == 0 then map[] else EmptyLists(n - 1)[Slot(Dma, n - 1) := []][Slot(Normal, n - 1) := []]
  }

  function NoBlocks(n: nat): (m: map<nat, int>)
    ensures forall o: nat :: o in m <==> o < n
    ensures forall o: nat :: o in m ==> m[o] == 0
  {
    if n == 0 then map[] else NoBlocks(n - 1)[n - 1 := 0]
  }

  function NoneFree(n: nat): (pfns: seq<Pfn>)
    ensures |pfns| == n && forall p :: 0 <= p < n ==> !pfns[p].free
  {
    seq(n, i => Pfn(false, 0))
  }

  lemma EmptyListsOk(pfns: seq<Pfn>)
    requires forall p :: 0 <= p < |pfns| ==> !pfns[p].free
    ensures ListsOk(pfns, EmptyLists(MAX_ORDER)) && FreeBlocks(pfns) == map[]
  {
    hide EmptyLists;
  }

  lemma EmptyStatsOk()
    ensures StatsOk(Stats(0, NoBlocks(MAX_ORDER), map[Dma := 0, Normal := 0], map[Dma := 0, Normal := 0]), {}, {},
                    EmptyLists(MAX_ORDER))
  {
    hide EmptyLists, NoBlocks;
    forall z: Zone ensures |InZone({}, z)| == 0 {
      assert InZone({}, z) == {};
    }
    var counts := map[Dma := 0, Normal := 0];
    forall z: Zone ensures z in counts && counts[z] == 0 {
      assert z == Dma || z == Normal;
    }
  }

  lemma EmptyOk(st: State)
    requires st.pfns == NoneFree(|st.pfns|) && st.lists == EmptyLists(MAX_ORDER)
    requires st.stats == Stats(0, NoBlocks(MAX_ORDER), map[Dma := 0, Normal := 0], map[Dma := 0, Normal := 0])
    requires st.live == map[] && st.registered == {}
    ensures st.Ok() && st.Free() == map[]
  {
    hide EmptyLists, NoBlocks, ListsOk, StatsOk, NoneFree, FreeBlocks;
    EmptyListsOk(st.pfns);
    EmptyStatsOk();
    assert Union(map[]) == {};
    assert st.Free() + st.live == map[];
  }

  function EmptyHeads(n: nat): (m: map<Slot, Option<nat>>)
    ensures forall s: Slot :: s in m <==> s.order < n
    ensures forall s: Slot :: s in m ==> m[s] == None
  {
    assert forall s: Slot :: s.zone == Dma || s.zone == Normal;
    if n == 0 then map[] else EmptyHeads(n - 1)[Slot(Dma, n - 1) := None][Slot(Normal, n - 1) := None]
  }

  function NoLinks(n: nat): (l: Links)
    ensures |l| == n
  {
    seq(n, i => None)
  }

  lemma EmptyLinks(next: Links, prev: Links)
    ensures LinksOk(EmptyHeads(MAX_ORDER), next, prev, EmptyLists(MAX_ORDER))
  {
    hide EmptyHeads, EmptyLists;
  }

  lemma FreeListed(st: State, p: nat)
    requires st.Ok() && p in st.Free()
    ensures Apart(st.lists) && p < |st.pfns|
    ensures var s := Slot(ZoneOf(p), st.pfns[p].order); s in st.lists && p in st.lists[s]
  {
    hide StatsOk, BlocksOk, Union, Apart;
    ListsApart(st.pfns, st.lists);
    ListedFree(st.pfns, st.lists, p);
  }

  lemma NotListed(st: State, p: nat)
    requires st.Ok() && p !in st.Free()
    ensures Apart(st.lists) && forall t :: t in st.lists ==> p !in st.lists[t]
  {
    hide StatsOk, BlocksOk, Union, Apart;
    ListsApart(st.pfns, st.lists);
    forall t | t in st.lists ensures p !in st.lists[t] {
      ListedExactly(st.pfns, st.lists, t, p);
    }
  }

  lemma HeadOf(heads: map<Slot, Option<nat>>, next: Links, prev: Links, lists: map<Slot, seq<nat>>, s: Slot)
    requires LinksOk(heads, next, prev, lists) && s in lists
    ensures s in heads && (heads[s].Some? <==> lists[s] != []) && (heads[s].Some? ==> heads[s].value == lists[s][0])
  {
    HeadBound(heads, next, prev, lists, s);
  }

  // ------------------------------------------------------------------------
  // Runs
  // ------------------------------------------------------------------------

  /** An allocation, an owner writing to frame `j` of its block, or a block given back. */
  datatype FrameOp = AllocOp(order: int) | DmaOp(size: nat) | WriteOp(p: nat, j: nat) | FreeOp(p: nat)

  /** The block at `p` is free and zero again. */
  ghost predicate Returned(st: State, st': State, p: nat)
    requires p in st.live
  {
    && st'.live == st.live - {p}
    && st'.FreeFrames() == st.FreeFrames() + Pages(p, st.live[p])
    && st'.zeroed == st.zeroed + Pages(p, st.live[p])
    && |st'.pfns| == |st.pfns| && st'.registered == st.registered
    && (Coalesced(st.Free()) ==> Coalesced(st'.Free()))
  }

  /** The chosen block is handed out, or there is none. */
  ghost predicate Hands(st: State, choice: Option<nat>, order: int, r: nat, st': State) {
    match choice
    case None => r == 0 && st' == st
    case Some(p) => r == p && 0 <= order && Handed(st, st', p, order)
  }

  /** What an operation may do: a block is handed out, zero and to nobody else, or there is none; a
      write reaches the owner's frame; a block comes back. */
  ghost predicate Stepped(st: State, op: FrameOp, r: nat, st': State)
    requires st.Ok()
  {
    match op
    case WriteOp(p, j) =>
      if p in st.live && j < Pow2(st.live[p]) then st' == st.(zeroed := st.zeroed - {p + j}) else st' == st
    case FreeOp(p) => if p in st.live then Returned(st, st', p) else st' == st
    case AllocOp(order) => Hands(st, Chosen(st, order), order, r, st')
    case DmaOp(size) => Hands(st, if size < MAX_ORDER then Choice(st, Dma, size) else None, size, r, st')
  }

  /** A run, state by state. */
  ghost predicate Runs(trace: seq<State>, ops: seq<FrameOp>, rs: seq<nat>) {
    && |trace| == |ops| + 1 && |rs| == |ops|
    && (forall i :: 0 <= i < |trace| ==> trace[i].Ok())
    && forall i :: 0 <= i < |ops| ==> Stepped(trace[i], ops[i], rs[i], trace[i + 1])
  }

  lemma RunsMore(trace: seq<State>, ops: seq<FrameOp>, rs: seq<nat>, st: State, op: FrameOp, r: nat)
    requires Runs(trace, ops, rs) && st.Ok() && Stepped(trace[|ops|], op, r, st)
    ensures Runs(trace + [st], ops + [op], rs + [r])
  {
    hide State.Ok, Stepped;
  }

  lemma SteppedKeeps(st: State, op: FrameOp, r: nat, st': State)
    requires st.Ok() && Stepped(st, op, r, st')
    ensures st'.registered == st.registered && |st'.pfns| == |st.pfns|
    ensures Coalesced(st.Free()) ==> Coalesced(st'.Free())
  {
    hide State.Ok, Coalesced, FreeBlocks, Choice, Chosen;
  }

  /** A whole run keeps the registered frames and leaves nothing to merge; if the same blocks are
      live at its end, so are all free blocks and counters the same, and every free frame is zero
      whatever the owners wrote in between. */
  lemma {:induction false} RunKeeps(trace: seq<State>, ops: seq<FrameOp>, rs: seq<nat>)
    requires Runs(trace, ops, rs)
    ensures var st, st' := trace[0], trace[|ops|];
      && st'.registered == st.registered && |st'.pfns| == |st.pfns|
      && (Coalesced(st.Free()) ==> Coalesced(st'.Free()))
      && st'.FreeFrames() <= st'.zeroed
      && (Coalesced(st.Free()) && st'.live == st.live ==>
            && st'.Free() == st.Free() && st'.stats.freePages == st.stats.freePages
            && forall o :: 0 <= o < MAX_ORDER ==>
                 o in st.stats.byOrder && o in st'.stats.byOrder && st'.stats.byOrder[o] == st.stats.byOrder[o])
    decreases |ops|
  {
    hide Stepped, Coalesced, FreeBlocks;
    var st, st' := trace[0], trace[|ops|];
    if ops != [] {
      var n := |ops| - 1;
      assert Runs(trace[..n + 1], ops[..n], rs[..n]);
      assert trace[..n + 1][|ops[..n]|] == trace[n];
      RunKeeps(trace[..n + 1], ops[..n], rs[..n]);
      SteppedKeeps(trace[n], ops[n], rs[n], trace[n + 1]);
    }
    if Coalesced(st.Free()) && st'.live == st.live {
      SameLive(st, st');
    }
  }

  lemma NoRun(st: State)
    requires st.Ok()
    ensures Runs([st], [], [])
  {
  }

  /** Frame 0 is never handed out if it was never registered. */
  lemma NotZero(st: State, st': State, p: nat, order: int)
    requires st.Ok() && 0 !in st.registered
    ensures 0 <= order && Handed(st, st', p, order) ==> p != 0
  {
    hide State.Ok, FreeBlocks, Coalesced;
    if 0 <= order && Handed(st, st', p, order) {
      PagesRange(p, order);
      Positive(order);
      assert p in Pages(p, order);
      RegisteredFree(st);
    }
  }

  lemma RegisteredFree(st: State)
    requires st.Ok()
    ensures st.FreeFrames() <= st.registered
  {
  }

  lemma Positive(o: nat)
    ensures Pow2(o) > 0
  {
  }

  function FirstFrame(r: (nat, nat)): nat {
    (r.0 + PAGE_SIZE - 1) / PAGE_SIZE
  }

  function LastFrame(r: (nat, nat)): nat {
    r.1 / PAGE_SIZE
  }

  /** The whole frames of the ranges. */
  ghost function Frames(ranges: seq<(nat, nat)>): set<int> {
    if ranges == [] then {}
    else
      var n := |ranges| - 1;
      Frames(ranges[..n]) + Range(FirstFrame(ranges[n]), LastFrame(ranges[n]))
  }

  lemma NoRanges()
    ensures Frames([]) == {}
  {
  }

  lemma FramesMore(ranges: seq<(nat, nat)>, r: (nat, nat))
    ensures Frames(ranges + [r]) == Frames(ranges) + Range(FirstFrame(r), LastFrame(r))
  {
    assert (ranges + [r])[..|ranges|] == ranges;
  }

  /** Earlier ranges end at least one frame before the next begins. */
  lemma {:induction false} FramesBelow(ranges: seq<(nat, nat)>, i: nat, b: int)
    requires i <= |ranges| && forall j :: 0 <= j < i ==> LastFrame(ranges[j]) <= b
    ensures forall x :: x in Frames(ranges[..i]) ==> x < b
  {
    if i > 0 {
      assert ranges[..i][..i - 1] == ranges[..i - 1];
      FramesBelow(ranges, i - 1, b);
    }
  }

  lemma FramesApart(ranges: seq<(nat, nat)>, i: nat)
    requires i < |ranges| && ranges[i].0 <= ranges[i].1
    requires forall j :: 0 <= j < i ==> LastFrame(ranges[j]) < FirstFrame(ranges[i])
    ensures var s, e := (ranges[i].0 + PAGE_SIZE - 1) / PAGE_SIZE, ranges[i].1 / PAGE_SIZE;
      && s == FirstFrame(ranges[i]) && e == LastFrame(ranges[i])
      && Range(s, e) !! Frames(ranges[..i]) && s - 1 !in Frames(ranges[..i]) && e !in Frames(ranges[..i])
  {
    hide Frames, Range;
    FramesBelow(ranges, i, FirstFrame(ranges[i]) - 1);
  }

  lemma NoFrames(st: State)
    requires st.Free() == map[]
    ensures st.FreeFrames() == {} && Coalesced(st.Free())
  {
  }

  lemma WriteOk(st: State, p: nat, j: nat)
    requires st.Ok() && p in st.live && j < Pow2(st.live[p])
    ensures st.(zeroed := st.zeroed - {p + j}).Ok()
  {
    hide FreeBlocks, BlocksOk, ListsOk, StatsOk, Pow2;
    FreePart(st);
    PagesRange(p, st.live[p]);
    assert p + j in Pages(p, st.live[p]);
    assert p + j in Union(st.live);
    assert st.(zeroed := st.zeroed - {p + j}).Free() == st.Free();
  }

  class Allocator {
    var pfns: seq<Pfn>
    var heads: map<Slot, Option<nat>>
    var next: Links
    var prev: Links
    var stats: Stats
    var zeroed: set<int>
    ghost var lists: map<Slot, seq<nat>>
    ghost var live: Blocks
    ghost var registered: set<int>

    ghost predicate Inv()
      reads this
    {
      View().Ok() && LinksOk(heads, next, prev, lists) && |next| == |prev| == |pfns|
    }

    ghost function View(): State
      reads this
    {
      State(pfns, lists, stats, zeroed, live, registered)
    }

    /** The empty allocator over `n` frames. */
    constructor (n: nat)
      ensures Inv() && live == map[] && registered == {} && |pfns| == n
      ensures View().Free() == map[]
    {
      hide State.Ok, FreeBlocks, EmptyLists, NoBlocks, NoneFree, EmptyHeads, NoLinks, LinksOk;
      pfns := NoneFree(n);
      heads, next, prev := EmptyHeads(MAX_ORDER), NoLinks(n), NoLinks(n);
      lists := EmptyLists(MAX_ORDER);
      stats := Stats(0, NoBlocks(MAX_ORDER), map[Dma := 0, Normal := 0], map[Dma := 0, Normal := 0]);
      zeroed := {};
      live := map[];
      registered := {};
      new;
      EmptyOk(View());
      EmptyLinks(next, prev);
    }

    /** `list_remove`. */
    method Unlink(p: nat, s: Slot)
      requires LinksOk(heads, next, prev, lists) && Apart(lists) && s in lists && p in lists[s]
      modifies this`heads, this`next, this`prev, this`lists
      ensures LinksOk(heads, next, prev, lists) && lists == old(lists)[s := Without(old(lists)[s], p)]
      ensures |next| == old(|next|) && |prev| == old(|prev|)
    {
      hide LinksOk, Apart, Without;
      RemoveLinks(heads, next, prev, lists, s, p);
      var before, after := prev[p], next[p];
      if before.Some? {
        next := next[before.value := after];
      } else {
        heads := heads[s := after];
      }
      if after.Some? {
        prev := prev[after.value := before];
      }
      next := next[p := None];
      prev := prev[p := None];
      lists := lists[s := Without(lists[s], p)];
    }

    /** `list_push`. */
    method Link(p: nat, s: Slot)
      requires LinksOk(heads, next, prev, lists) && Apart(lists) && s in lists && p < |next| && p < |prev|
      requires forall t :: t in lists ==> p !in lists[t]
      modifies this`heads, this`next, this`prev, this`lists
      ensures LinksOk(heads, next, prev, lists) && lists == old(lists)[s := [p] + old(lists)[s]]
      ensures |next| == old(|next|) && |prev| == old(|prev|)
    {
      PushLinks(heads, next, prev, lists, s, p);
      hide Linked, Apart;
      var head := heads[s];
      prev := prev[p := None];
      next := next[p := head];
      if head.Some? {
        prev := prev[head.value := Some(p)];
      }
      heads := heads[s := Some(p)];
      lists := lists[s := [p] + lists[s]];
    }

    /** Removes a free block from its list. */
    method Take(p: nat)
      requires Inv() && p in View().Free()
      modifies this
      ensures Inv() && p !in old(live) && p in old(View().Free())
      ensures View().Free() == old(View().Free()) - {p}
      ensures live == old(live)[p := old(View().Free())[p]]
      ensures View().FreeFrames() == old(View().FreeFrames()) - Pages(p, old(View().Free())[p])
      ensures |pfns| == old(|pfns|) && zeroed == old(zeroed) && registered == old(registered)
    {
      hide State.Ok, FreeBlocks, Union, Pages, Without, LinksOk, Apart;
      ghost var st := View();
      TakenOk(st, p);
      FreeAt(pfns, p);
      FreeListed(st, p);
      var o := pfns[p].order;
      var s := Slot(ZoneOf(p), o);
      Unlink(p, s);
      pfns := pfns[p := pfns[p].(free := false)];
      stats := Counted(stats, s.zone, o, -1, 0 - Pow2(o));
      live := live[p := o];
      assert View() == st.Taken(p);
    }

    /** Puts a detached block on the list of its zone and order. */
    method Push(p: nat, o: nat)
      requires Inv() && p in live && live[p] == o && Pages(p, o) <= zeroed
      modifies this
      ensures Inv() && p !in old(View().Free())
      ensures View().Free() == old(View().Free())[p := o]
      ensures live == old(live) - {p}
      ensures View().FreeFrames() == old(View().FreeFrames()) + Pages(p, o)
      ensures |pfns| == old(|pfns|) && zeroed == old(zeroed) && registered == old(registered)
    {
      hide State.Ok, FreeBlocks, Union, Pages, LinksOk, Apart;
      ghost var st := View();
      PushedOk(st, p, o);
      NotListed(st, p);
      var s := Slot(ZoneOf(p), o);
      Link(p, s);
      pfns := pfns[p := Pfn(true, o)];
      stats := Counted(stats, s.zone, o, 1, Pow2(o));
      live := live - {p};
      assert View() == st.Pushed(p, o);
    }

    /** Halves a detached block down to `order`, freeing the upper halves. */
    method Carve(p: nat, k: nat, order: nat)
      requires Inv() && p in live && live[p] == k && order <= k && Pages(p, k) <= zeroed
      modifies this
      ensures Inv() && live == old(live)[p := order]
      ensures Pages(p, order) <= Pages(p, k)
      ensures View().FreeFrames() == old(View().FreeFrames()) + (Pages(p, k) - Pages(p, order))
      ensures old(Coalesced(View().Free())) ==> Coalesced(View().Free())
      ensures |pfns| == old(|pfns|) && zeroed == old(zeroed) && registered == old(registered)
    {
      hide State.Ok, FreeBlocks, Union, Pages, Coalesced, Buddy;
      var o := k;
      while o > order
        invariant order <= o <= k
        invariant Inv() && live == old(live)[p := o]
        invariant Pages(p, o) <= Pages(p, k)
        invariant View().FreeFrames() == old(View().FreeFrames()) + (Pages(p, k) - Pages(p, o))
        invariant old(Coalesced(View().Free())) ==> Coalesced(View().Free())
        invariant |pfns| == old(|pfns|) && zeroed == old(zeroed) && registered == old(registered)
      {
        o := o - 1;
        var buddy := p + Pow2(o);
        SplitLive(View(), p, o);
        ghost var free := View().Free();
        live := live[p := o][buddy := o];
        LiveNotFree(View(), p);
        Push(buddy, o);
        if old(Coalesced(View().Free())) {
          CoalescedAdd(free, buddy, o);
        }
        assert live == old(live)[p := o];
      }
    }

    /** The scan for the first order with a block. */
    method FindOrder(z: Zone, order: nat) returns (o: nat)
      requires LinksOk(heads, next, prev, lists) && order <= MAX_ORDER
      requires forall k :: 0 <= k < MAX_ORDER ==> Slot(z, k) in lists
      ensures o == FirstOrder(lists, z, order)
    {
      hide LinksOk, FirstOrder;
      o := order;
      FirstOrderStep(lists, z, o);
      if o < MAX_ORDER {
        HeadOf(heads, next, prev, lists, Slot(z, o));
      }
      while o < MAX_ORDER && heads[Slot(z, o)] == None
        invariant order <= o <= MAX_ORDER && FirstOrder(lists, z, order) == FirstOrder(lists, z, o)
        invariant o < MAX_ORDER ==> Slot(z, o) in heads && (heads[Slot(z, o)].None? <==> lists[Slot(z, o)] == [])
        invariant o == MAX_ORDER || lists[Slot(z, o)] != [] ==> FirstOrder(lists, z, o) == o
      {
        FirstOrderStep(lists, z, o);
        o := o + 1;
        FirstOrderStep(lists, z, o);
        if o < MAX_ORDER {
          HeadOf(heads, next, prev, lists, Slot(z, o));
        }
      }
    }

    /** The search and split shared by `pmm_alloc_pages_locked` and `pmm_alloc_dma`. */
    method AllocZone(z: Zone, order: nat) returns (r: Option<nat>)
      requires Inv() && order < MAX_ORDER
      modifies this
      ensures Inv() && old(View().Ok()) && r == Choice(old(View()), z, order)
      ensures r.None? ==> View() == old(View())
      ensures r.Some? ==> ZoneOf(r.value) == z && Handed(old(View()), View(), r.value, order)
    {
      hide State.Ok, FreeBlocks, Union, Pages, Coalesced, Handed, ZoneOf, FirstOrder, LinksOk;
      ghost var st := View();
      ListsPresent(st, z);
      var o := FindOrder(z, order);
      if o == MAX_ORDER {
        return None;
      }
      HeadOf(heads, next, prev, lists, Slot(z, o));
      var p := heads[Slot(z, o)].value;
      HeadFree(st, z, o);
      Take(p);
      if Coalesced(st.Free()) {
        CoalescedRemove(st.Free(), p);
      }
      FramesZero(st);
      Carve(p, o, order);
      SetOrderOk(View(), p, order);
      pfns := pfns[p := Pfn(false, order)];
      HandedBy(st, View(), p, o, order);
      r := Some(p);
    }

    /** `pmm_alloc_pages_locked`: ZONE_NORMAL first, then ZONE_DMA; frame 0 doubles as failure. */
    method AllocPages(order: int) returns (r: nat)
      requires Inv()
      modifies this
      ensures Inv() && old(View().Ok())
      ensures var chosen := Chosen(old(View()), order);
        if chosen.None? then r == 0 && View() == old(View())
        else r == chosen.value && Handed(old(View()), View(), r, order)
    {
      if order < 0 || order >= MAX_ORDER {
        return 0;
      }
      var p := AllocZone(Normal, order);
      if p.None? {
        p := AllocZone(Dma, order);
      }
      match p {
        case Some(f) => r := f;
        case None => r := 0;
      }
    }

    /** `pmm_alloc_dma`: never falls back to another zone. */
    method AllocDma(order: nat) returns (r: nat)
      requires Inv()
      modifies this
      ensures Inv() && old(View().Ok())
      ensures order >= MAX_ORDER || Choice(old(View()), Dma, order).None? ==> r == 0 && View() == old(View())
      ensures order < MAX_ORDER && Choice(old(View()), Dma, order).Some? ==>
        r == Choice(old(View()), Dma, order).value && r < 4096 && Handed(old(View()), View(), r, order)
    {
      if order >= MAX_ORDER {
        return 0;
      }
      var p := AllocZone(Dma, order);
      match p {
        case Some(f) => r := f;
        case None => r := 0;
      }
    }

    /** One round of coalescing: the detached block at `f` absorbs its free buddy. */
    method Absorb(f: nat, o: nat) returns (m: nat)
      requires Inv() && f in live && live[f] == o && o + 1 < MAX_ORDER && Pages(f, o) <= zeroed
      requires Buddy(f, o) in View().Free() && View().Free()[Buddy(f, o)] == o
      modifies this
      ensures Inv() && m in live && live[m] == o + 1 && live - {m} == old(live) - {f}
      ensures Pages(m, o + 1) <= zeroed && m == (if Buddy(f, o) < f then Buddy(f, o) else f)
      ensures View().FreeFrames() + Pages(m, o + 1) == old(View().FreeFrames()) + Pages(f, o)
      ensures |pfns| == old(|pfns|) && zeroed == old(zeroed) && registered == old(registered)
      ensures old(Coalesced(View().Free())) ==> Coalesced(View().Free())
    {
      hide State.Ok, FreeBlocks, Union, Pages, Coalesced, Buddy, BlocksOk, BlockAligned, ZoneOf;
      var b := Buddy(f, o);
      ghost var before := View();
      LiveNotFree(before, f);
      FramesZero(before);
      FreePart(before);
      UnionRemove(|pfns|, before.Free(), b);
      Take(b);
      if Coalesced(before.Free()) {
        CoalescedRemove(before.Free(), b);
      }
      MergeLive(View(), f, o);
      m := if b < f then b else f;
      live := (live - {f, b})[m := o + 1];
      assert live - {m} == before.live - {f};
    }

    /** `pmm_free_pages`: zero the block, coalesce upward, push. */
    method FreePages(p: nat, order: nat)
      requires Inv() && p in live && live[p] == order
      modifies this
      ensures Inv() && live == old(live) - {p}
      ensures View().FreeFrames() == old(View().FreeFrames()) + Pages(p, order)
      ensures zeroed == old(zeroed) + Pages(p, order)
      ensures |pfns| == old(|pfns|) && registered == old(registered)
      ensures old(Coalesced(View().Free())) ==> Coalesced(View().Free())
    {
      hide State.Ok, FreeBlocks, Union, Pages, Coalesced, Buddy, BlocksOk, BlockAligned, ZoneOf;
      ZeroOk(View(), Pages(p, order));
      zeroed := zeroed + Pages(p, order);
      ghost var st := View();
      var f, o, z := p, order, ZoneOf(p);
      LiveAt(View(), f);
      while o + 1 < MAX_ORDER
        invariant Inv() && f in live && live[f] == o && o < MAX_ORDER && BlockAligned(f, o) && ZoneOf(f) == z
        invariant live - {f} == st.live - {p}
        invariant Pages(f, o) <= zeroed
        invariant View().FreeFrames() + Pages(f, o) == st.FreeFrames() + Pages(p, order)
        invariant |pfns| == |st.pfns| && zeroed == st.zeroed && registered == st.registered
        invariant Coalesced(st.Free()) ==> Coalesced(View().Free())
        decreases MAX_ORDER - o
      {
        var b := Buddy(f, o);
        FreeAt(pfns, b);
        if b >= |pfns| || !pfns[b].free || pfns[b].order != o {
          break;
        }
        BuddyZone(f, o);
        if ZoneOf(b) != z {
          break;
        }
        f := Absorb(f, o);
        o := o + 1;
        LiveAt(View(), f);
      }
      ghost var free := View().Free();
      FreeAt(pfns, Buddy(f, o));
      LiveNotFree(View(), f);
      Push(f, o);
      if Coalesced(free) {
        CoalescedAdd(free, f, o);
      }
    }

    /** `pmm_register_block`. */
    method RegisterBlock(p: nat, o: nat)
      requires Inv() && o < MAX_ORDER && BlockAligned(p, o) && p + Pow2(o) <= |pfns| && Pages(p, o) !! registered
      modifies this
      ensures Inv() && p !in old(View().Free()) && View().Free() == old(View().Free())[p := o]
      ensures live == old(live) && registered == old(registered) + Pages(p, o)
      ensures View().FreeFrames() == old(View().FreeFrames()) + Pages(p, o)
      ensures zeroed == old(zeroed) + Pages(p, o) && |pfns| == old(|pfns|)
    {
      hide State.Ok, FreeBlocks, Union, Pages, BlockAligned, ZoneOf;
      ghost var st := View();
      AdmitOk(st, p, o);
      var z := ZoneOf(p);
      zeroed := zeroed + Pages(p, o);
      stats := stats.(zoneTotal := stats.zoneTotal[z := stats.zoneTotal[z] + Pow2(o)]);
      live := live[p := o];
      registered := registered + Pages(p, o);
      assert View() == st.Admitted(p, o);
      Push(p, o);
    }

    /** The largest order whose block at `start` is aligned and ends by `end`. */
    method GreedyOrder(start: nat, end: nat) returns (order: nat)
      requires start < end
      ensures order < MAX_ORDER && Greedy(start, order, end)
    {
      order := 0;
      while order + 1 < MAX_ORDER && BlockAligned(start, order + 1) && start + Pow2(order + 1) <= end
        invariant order < MAX_ORDER && BlockAligned(start, order) && start + Pow2(order) <= end
      {
        order := order + 1;
      }
    }

    /** `pmm_register_range`: every whole frame of the byte range becomes free. */
    method RegisterRange(startPa: nat, endPa: nat)
      requires Inv() && endPa / PAGE_SIZE <= |pfns|
      requires Range((startPa + PAGE_SIZE - 1) / PAGE_SIZE, endPa / PAGE_SIZE) !! registered
      modifies this
      ensures Inv() && live == old(live) && |pfns| == old(|pfns|)
      ensures var s, e := (startPa + PAGE_SIZE - 1) / PAGE_SIZE, endPa / PAGE_SIZE;
        && registered == old(registered) + Range(s, e)
        && View().FreeFrames() == old(View().FreeFrames()) + Range(s, e)
        && zeroed == old(zeroed) + Range(s, e)
        && (old(Coalesced(View().Free())) && s - 1 !in old(View().FreeFrames()) && e !in old(View().FreeFrames())
            ==> Coalesced(View().Free()))
    {
      hide State.Ok, FreeBlocks, Union, Pages, BlockAligned, Coalesced, GreedyFrom;
      var first, end := (startPa + PAGE_SIZE - 1) / PAGE_SIZE, endPa / PAGE_SIZE;
      var start := first;
      ghost var st := View();
      ghost var apart := Coalesced(st.Free()) && first - 1 !in st.FreeFrames() && end !in st.FreeFrames();
      GreedyStart(st, first, end);
      while start < end
        invariant first <= start && (start <= end || start == first)
        invariant Inv() && live == st.live && |pfns| == |st.pfns|
        invariant registered == st.registered + Range(first, start)
        invariant View().FreeFrames() == st.FreeFrames() + Range(first, start)
        invariant zeroed == st.zeroed + Range(first, start)
        invariant apart ==> Coalesced(View().Free()) && GreedyFrom(View().Free(), first, start, end)
      {
        var order := GreedyOrder(start, end);
        ghost var before := View();
        RangeSplit(first, start, start + Pow2(order));
        PagesRange(start, order);
        assert Range(start, start + Pow2(order)) <= Range(first, end);
        RegisterBlock(start, order);
        if apart {
          GreedyAdd(before, first, start, order, end);
        }
        start := start + Pow2(order);
      }
    }

    /** The memory map of `pmm_init`: ranges in order, with at least one frame between any two.
        Their frames are free and zero, and nothing can be merged. */
    method RegisterAll(ranges: seq<(nat, nat)>)
      requires Inv() && registered == {} && live == map[] && View().Free() == map[]
      requires forall i :: 0 <= i < |ranges| ==> ranges[i].0 <= ranges[i].1 && LastFrame(ranges[i]) <= |pfns|
      requires forall i, j :: 0 <= i < j < |ranges| ==> LastFrame(ranges[i]) < FirstFrame(ranges[j])
      modifies this
      ensures Inv() && live == map[] && |pfns| == old(|pfns|) && Coalesced(View().Free())
      ensures View().FreeFrames() == registered == Frames(ranges)
    {
      hide Inv, FreeBlocks, Coalesced, Frames, Range, Union, FirstFrame, LastFrame;
      NoFrames(View());
      NoRanges();
      var i := 0;
      while i < |ranges|
        invariant 0 <= i <= |ranges| && Inv() && live == map[] && |pfns| == old(|pfns|) && Coalesced(View().Free())
        invariant View().FreeFrames() == registered == Frames(ranges[..i])
      {
        FramesApart(ranges, i);
        FramesMore(ranges[..i], ranges[i]);
        assert ranges[..i + 1] == ranges[..i] + [ranges[i]];
        RegisterRange(ranges[i].0, ranges[i].1);
        i := i + 1;
      }
      assert ranges[..i] == ranges;
    }

    /** The owner of a block writes to one of its frames. */
    method Write(p: nat, j: nat)
      requires Inv() && p in live && j < Pow2(live[p])
      modifies this`zeroed
      ensures Inv() && zeroed == old(zeroed) - {p + j}
    {
      hide State.Ok, LinksOk;
      WriteOk(View(), p, j);
      zeroed := zeroed - {p + j};
    }

    /** One operation; `held` are the blocks the callers have.  With frame 0 not in the allocator,
        the answer 0 means that there was none. */
    method Act(op: FrameOp, held: map<nat, nat>) returns (r: nat, held': map<nat, nat>)
      requires Inv() && held == live && 0 !in registered
      modifies this
      ensures Inv() && held' == live && registered == old(registered)
      ensures old(View().Ok()) && Stepped(old(View()), op, r, View())
    {
      hide State.Ok, LinksOk, FreeBlocks, Coalesced, Pow2, Choice, FirstOrder, Union, Pages, Range;
      ghost var st := View();
      held', r := held, 0;
      match op
      case AllocOp(order) =>
        r := AllocPages(order);
        if r != 0 {
          held' := held[r := order];
        }
        NotZero(st, View(), r, order);
      case DmaOp(order) =>
        r := AllocDma(order);
        if r != 0 {
          held' := held[r := order];
        }
        NotZero(st, View(), r, order);
      case WriteOp(p, j) =>
        if p in held && j < Pow2(held[p]) {
          Write(p, j);
        }
      case FreeOp(p) =>
        if p in held {
          FreePages(p, held[p]);
          held' := held - {p};
        }
    }

    /** Every sequence of allocations, writes and frees. */
    method Run(ops: seq<FrameOp>, held: map<nat, nat>)
      returns (rs: seq<nat>, held': map<nat, nat>, ghost trace: seq<State>)
      requires Inv() && held == live && 0 !in registered
      modifies this
      ensures Inv() && held' == live && Runs(trace, ops, rs)
      ensures trace[0] == old(View()) && trace[|ops|] == View()
    {
      hide State.Ok, LinksOk, Stepped, Runs;
      rs, held', trace := [], held, [View()];
      NoRun(View());
      var i := 0;
      while i < |ops|
        invariant 0 <= i <= |ops| && Inv() && held' == live && 0 !in registered
        invariant |rs| == i && |trace| == i + 1 && trace[0] == old(View()) && trace[i] == View()
        invariant Runs(trace, ops[..i], rs)
      {
        var r;
        r, held' := Act(ops[i], held');
        RunsMore(trace, ops[..i], rs, View(), ops[i], r);
        assert ops[..i + 1] == ops[..i] + [ops[i]];
        rs, trace := rs + [r], trace + [View()];
        i := i + 1;
      }
      assert ops[..i] == ops;
    }
  }
}
