/** The free lists and counters of the buddy allocator (kernel/mm/pmm.c). */
module FreeLists {
  import opened BlockSets
  import opened BuddyBlocks

  datatype Pfn = Pfn(free: bool, order: nat)

  datatype Slot = Slot(zone: Zone, order: nat)

  datatype Stats = Stats(freePages: int, byOrder: map<nat, int>, zoneTotal: map<Zone, int>, zoneFree: map<Zone, int>)

  // ------------------------------------------------------------------------
  // Free lists
  // ------------------------------------------------------------------------

  ghost predicate NoDup(s: seq<nat>) {
    forall i, j :: 0 <= i < j < |s| ==> s[i] != s[j]
  }

  /** A list of distinct free blocks of one zone and order. */
  ghost predicate OnList(pfns: seq<Pfn>, s: Slot, l: seq<nat>) {
    && NoDup(l)
    && forall p :: p in l ==> p < |pfns| && pfns[p] == Pfn(true, s.order) && ZoneOf(p) == s.zone
  }

  /** The free lists hold exactly the frames whose entry is marked free, each on the list of
      its zone and order. */
  ghost predicate ListsOk(pfns: seq<Pfn>, lists: map<Slot, seq<nat>>) {
    && SlotsExist(lists)
    && (forall s :: s in lists ==> OnList(pfns, s, lists[s]))
    && (forall p :: 0 <= p < |pfns| ==> Listed(pfns, lists, p))
  }

  ghost predicate SlotsExist(lists: map<Slot, seq<nat>>) {
    forall z, o :: 0 <= o < MAX_ORDER ==> Slot(z, o) in lists
  }

  ghost predicate Listed(pfns: seq<Pfn>, lists: map<Slot, seq<nat>>, p: nat)
    requires p < |pfns|
  {
    pfns[p].free ==>
      && pfns[p].order < MAX_ORDER && Slot(ZoneOf(p), pfns[p].order) in lists
      && p in lists[Slot(ZoneOf(p), pfns[p].order)]
  }

  ghost function FreeBlocks(pfns: seq<Pfn>): Blocks {
    map p | 0 <= p < |pfns| && pfns[p].free :: pfns[p].order
  }

  function Without(s: seq<nat>, p: nat): seq<nat> {
    if s == [] then [] else if s[0] == p then s[1..] else [s[0]] + Without(s[1..], p)
  }

  lemma {:induction false} WithoutNoDup(s: seq<nat>, p: nat)
    requires NoDup(s) && p in s
    ensures NoDup(Without(s, p)) && |Without(s, p)| == |s| - 1
    ensures forall q :: q in Without(s, p) <==> q in s && q != p
  {
    if s[0] == p {
      assert forall q :: q in s <==> q == s[0] || q in s[1..];
    } else {
      assert forall q :: q in s <==> q == s[0] || q in s[1..];
      WithoutNoDup(s[1..], p);
      var w := Without(s[1..], p);
      assert Without(s, p) == [s[0]] + w;
      assert s[0] !in w;
    }
  }

  lemma ListedFree(pfns: seq<Pfn>, lists: map<Slot, seq<nat>>, p: nat)
    requires ListsOk(pfns, lists) && p < |pfns| && pfns[p].free
    ensures var s := Slot(ZoneOf(p), pfns[p].order);
      s in lists && p in lists[s] && OnList(pfns, s, lists[s])
  {
    assert Listed(pfns, lists, p);
  }

  lemma UnlistHere(pfns: seq<Pfn>, s: Slot, l: seq<nat>, p: nat)
    requires OnList(pfns, s, l) && p in l
    ensures OnList(pfns[p := pfns[p].(free := false)], s, Without(l, p)) && |Without(l, p)| == |l| - 1
    ensures forall q :: q in Without(l, p) <==> q in l && q != p
  {
    WithoutNoDup(l, p);
    hide Without, NoDup;
  }

  lemma UnlistThere(pfns: seq<Pfn>, s: Slot, l: seq<nat>, p: nat)
    requires OnList(pfns, s, l) && p < |pfns| && s != Slot(ZoneOf(p), pfns[p].order)
    ensures p !in l && OnList(pfns[p := pfns[p].(free := false)], s, l)
  {
    hide NoDup;
  }

  /** `list_remove` and clearing PFN_FREE. */
  lemma UnlistOk(pfns: seq<Pfn>, lists: map<Slot, seq<nat>>, p: nat)
    requires ListsOk(pfns, lists) && p < |pfns| && pfns[p].free
    ensures var s := Slot(ZoneOf(p), pfns[p].order);
      && s in lists && p in lists[s]
      && ListsOk(pfns[p := pfns[p].(free := false)], lists[s := Without(lists[s], p)])
      && |Without(lists[s], p)| == |lists[s]| - 1
      && FreeBlocks(pfns[p := pfns[p].(free := false)]) == FreeBlocks(pfns) - {p}
  {
    hide Without, ZoneOf, OnList, Listed, SlotsExist;
    var s := Slot(ZoneOf(p), pfns[p].order);
    ListedFree(pfns, lists, p);
    UnlistHere(pfns, s, lists[s], p);
    var pfns', lists' := pfns[p := pfns[p].(free := false)], lists[s := Without(lists[s], p)];
    SlotsKept(lists, s, Without(lists[s], p));
    forall r | r in lists' ensures OnList(pfns', r, lists'[r]) {
      if r != s {
        UnlistThere(pfns, r, lists[r], p);
      }
    }
    forall q | 0 <= q < |pfns'| ensures Listed(pfns', lists', q) {
      assert Listed(pfns, lists, q);
      UnlistOther(pfns, lists, p, q);
    }
  }

  lemma SlotsKept(lists: map<Slot, seq<nat>>, s: Slot, l: seq<nat>)
    requires SlotsExist(lists)
    ensures SlotsExist(lists[s := l])
  {
  }

  lemma UnlistOther(pfns: seq<Pfn>, lists: map<Slot, seq<nat>>, p: nat, q: nat)
    requires p < |pfns| && q < |pfns| && Listed(pfns, lists, q)
    requires Slot(ZoneOf(p), pfns[p].order) in lists
    requires var l := lists[Slot(ZoneOf(p), pfns[p].order)];
      forall r :: r in Without(l, p) <==> r in l && r != p
    ensures var s := Slot(ZoneOf(p), pfns[p].order);
      Listed(pfns[p := pfns[p].(free := false)], lists[s := Without(lists[s], p)], q)
  {
    hide Without, ZoneOf;
  }

  /** `list_push`. */
  lemma PushOk(pfns: seq<Pfn>, lists: map<Slot, seq<nat>>, p: nat, o: nat)
    requires ListsOk(pfns, lists) && p < |pfns| && !pfns[p].free && o < MAX_ORDER
    ensures var s := Slot(ZoneOf(p), o);
      && s in lists
      && ListsOk(pfns[p := Pfn(true, o)], lists[s := [p] + lists[s]])
      && FreeBlocks(pfns[p := Pfn(true, o)]) == FreeBlocks(pfns)[p := o]
  {
    hide SlotsExist, ZoneOf;
    var s := Slot(ZoneOf(p), o);
    SlotThere(lists, s);
    var pfns', lists' := pfns[p := Pfn(true, o)], lists[s := [p] + lists[s]];
    SlotsKept(lists, s, [p] + lists[s]);
    forall r | r in lists' ensures OnList(pfns', r, lists'[r]) {
      assert OnList(pfns, r, lists[r]);
      assert p !in lists[r];
    }
    forall q | 0 <= q < |pfns'| ensures Listed(pfns', lists', q) {
      assert Listed(pfns, lists, q);
    }
  }

  lemma SlotThere(lists: map<Slot, seq<nat>>, s: Slot)
    requires SlotsExist(lists) && s.order < MAX_ORDER
    ensures s in lists
  {
  }

  // ------------------------------------------------------------------------
  // Statistics
  // ------------------------------------------------------------------------

  ghost function InZone(s: set<int>, z: Zone): set<int> {
    set x | x in s && ZoneOf(x) == z
  }

  ghost predicate OrdersOk(byOrder: map<nat, int>, lists: map<Slot, seq<nat>>) {
    forall o :: 0 <= o < MAX_ORDER ==>
      && o in byOrder && Slot(Dma, o) in lists && Slot(Normal, o) in lists
      && byOrder[o] == |lists[Slot(Dma, o)]| + |lists[Slot(Normal, o)]|
  }

  ghost predicate ZonesOk(perZone: map<Zone, int>, s: set<int>) {
    forall z :: z in perZone && perZone[z] == |InZone(s, z)|
  }

  /** Every counter matches the set of free frames and the lists. */
  ghost predicate StatsOk(st: Stats, free: set<int>, registered: set<int>, lists: map<Slot, seq<nat>>) {
    && st.freePages == |free|
    && OrdersOk(st.byOrder, lists)
    && ZonesOk(st.zoneFree, free)
    && ZonesOk(st.zoneTotal, registered)
  }

  /** The counters with `blocks` more blocks of order `o`, of `pages` frames in all, in zone `z`. */
  function Counted(st: Stats, z: Zone, o: nat, blocks: int, pages: int): Stats
    requires o in st.byOrder && z in st.zoneFree
  {
    st.(freePages := st.freePages + pages,
        byOrder := st.byOrder[o := st.byOrder[o] + blocks],
        zoneFree := st.zoneFree[z := st.zoneFree[z] + pages])
  }

  lemma ZoneSplit(s: set<int>, p: nat, o: nat)
    requires BlockAligned(p, o) && o < MAX_ORDER
    ensures InZone(s + Pages(p, o), ZoneOf(p)) == InZone(s, ZoneOf(p)) + Pages(p, o)
    ensures forall z :: z != ZoneOf(p) ==> InZone(s + Pages(p, o), z) == InZone(s, z)
  {
    forall x | x in Pages(p, o) ensures ZoneOf(x) == ZoneOf(p) {
      OneZone(p, o, x);
    }
  }

  /** Counting a block of frames into a zone, or (with the sets exchanged) out of it. */
  lemma ZoneCount(perZone: map<Zone, int>, s: set<int>, p: nat, o: nat)
    requires BlockAligned(p, o) && o < MAX_ORDER && s !! Pages(p, o) && ZoneOf(p) in perZone
    ensures |s + Pages(p, o)| == |s| + Pow2(o)
    ensures var z := ZoneOf(p);
      && (ZonesOk(perZone, s) ==> ZonesOk(perZone[z := perZone[z] + Pow2(o)], s + Pages(p, o)))
      && (ZonesOk(perZone, s + Pages(p, o)) ==> ZonesOk(perZone[z := perZone[z] - Pow2(o)], s))
  {
    hide BlockAligned, Pow2, Pages, ZoneOf;
    PagesCount(p, o);
    ZoneSplit(s, p, o);
    var z := ZoneOf(p);
    assert InZone(s, z) !! Pages(p, o);
    assert |InZone(s, z) + Pages(p, o)| == |InZone(s, z)| + |Pages(p, o)|;
  }

  lemma CountIn(st: Stats, free: set<int>, registered: set<int>, lists: map<Slot, seq<nat>>, p: nat, o: nat)
    requires StatsOk(st, free, registered, lists) && BlockAligned(p, o) && o < MAX_ORDER && free !! Pages(p, o)
    ensures var s := Slot(ZoneOf(p), o);
      && s in lists && o in st.byOrder && s.zone in st.zoneFree
      && StatsOk(Counted(st, s.zone, o, 1, Pow2(o)), free + Pages(p, o), registered, lists[s := [p] + lists[s]])
  {
    hide BlockAligned, Pow2, Pages;
    ZoneCount(st.zoneFree, free, p, o);
  }

  lemma CountOut(st: Stats, free: set<int>, registered: set<int>, lists: map<Slot, seq<nat>>, l: seq<nat>, p: nat,
                 o: nat)
    requires StatsOk(st, free, registered, lists) && BlockAligned(p, o) && o < MAX_ORDER && Pages(p, o) <= free
    requires Slot(ZoneOf(p), o) in lists && |l| == |lists[Slot(ZoneOf(p), o)]| - 1
    ensures var s := Slot(ZoneOf(p), o);
      && o in st.byOrder && s.zone in st.zoneFree
      && StatsOk(Counted(st, s.zone, o, -1, 0 - Pow2(o)), free - Pages(p, o), registered, lists[s := l])
  {
    hide BlockAligned, Pow2, Pages;
    var rest := free - Pages(p, o);
    assert rest + Pages(p, o) == free;
    ZoneCount(st.zoneFree, rest, p, o);
  }

  ghost function Elems(l: seq<nat>): set<nat> {
    set p | p in l
  }

  lemma {:induction false} NoDupCount(l: seq<nat>)
    requires NoDup(l)
    ensures |Elems(l)| == |l|
  {
    if l != [] {
      NoDupCount(l[1..]);
      assert Elems(l) == {l[0]} + Elems(l[1..]);
      assert l[0] !in Elems(l[1..]);
    }
  }

  /** A list holds exactly the free blocks of its zone and order. */
  lemma ListedExactly(pfns: seq<Pfn>, lists: map<Slot, seq<nat>>, s: Slot, p: nat)
    requires ListsOk(pfns, lists) && s in lists
    ensures p in lists[s] <==> p in FreeBlocks(pfns) && FreeBlocks(pfns)[p] == s.order && ZoneOf(p) == s.zone
  {
    assert OnList(pfns, s, lists[s]);
    if p < |pfns| {
      assert Listed(pfns, lists, p);
    }
  }

  /** Lists over the same free blocks are equally long. */
  lemma SameLength(pfns: seq<Pfn>, lists: map<Slot, seq<nat>>, pfns': seq<Pfn>, lists': map<Slot, seq<nat>>, s: Slot)
    requires ListsOk(pfns, lists) && ListsOk(pfns', lists') && FreeBlocks(pfns) == FreeBlocks(pfns')
    requires s.order < MAX_ORDER
    ensures s in lists && s in lists' && |lists[s]| == |lists'[s]|
  {
    SlotThere(lists, s);
    SlotThere(lists', s);
    assert OnList(pfns, s, lists[s]) && OnList(pfns', s, lists'[s]);
    NoDupCount(lists[s]);
    NoDupCount(lists'[s]);
    forall p: nat ensures p in lists[s] <==> p in lists'[s] {
      ListedExactly(pfns, lists, s, p);
      ListedExactly(pfns', lists', s, p);
    }
    assert Elems(lists[s]) == Elems(lists'[s]);
  }
}
