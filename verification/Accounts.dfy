/** The accounting behind copy-on-write: which frame is held by what, what every space reads,
    and how each primitive change of entries, tables and frames keeps the accounts
    (the refcounts of kernel/mm/pmm.c against the entries of kernel/arch/x86_64/paging.c). */
module Accounts {
  import opened Base
  import opened Vmas
  import opened DeepCopy

  type Frame = nat

  datatype Pte = Pte(frame: Frame, user: bool, write: bool, nx: bool)

  datatype Space = Space(vmas: seq<Vma>, mmapBase: nat)

  /** A page-table page: level 4 is the PML4, level 1 a last-level table;
      `index` is the address prefix that the table translates. */
  datatype TableKey = TableKey(space: int, level: int, index: int)

  const REFCOUNT_MAX: nat := 0xFFFF

  function TableOf(k: Key, level: int): TableKey {
    TableKey(k.space, level,
             if level == 3 then k.va / 0x80_0000_0000
             else if level == 2 then k.va / 0x4000_0000
             else if level == 1 then k.va / 0x20_0000
             else 0)
  }

  /** The walk to `k`'s last-level table meets no missing entry. */
  predicate Walked(tables: map<TableKey, Frame>, k: Key) {
    forall level {:trigger TableOf(k, level)} :: 1 <= level <= 4 ==> TableOf(k, level) in tables
  }

  lemma WalkLevels(tables: map<TableKey, Frame>, k: Key)
    ensures Walked(tables, k) <==>
              TableOf(k, 4) in tables && TableOf(k, 3) in tables && TableOf(k, 2) in tables && TableOf(k, 1) in tables
    ensures forall level :: TableOf(k, level).space == k.space
  {
  }

  /** All page-table entries, over every live space, that map frame `f`. */
  ghost function Refs(pte: map<Key, Pte>, f: Frame): set<Key> {
    set k | k in pte && pte[k].frame == f
  }

  ghost function PageOf(pte: map<Key, Pte>, bytes: map<Frame, Page>, k: Key): Page {
    if k in pte && pte[k].frame in bytes then bytes[pte[k].frame] else ZERO
  }

  ghost predicate Covered(spaces: map<int, Space>, k: Key) {
    k.space in spaces && Aligned(k.va) && FlagsAt(spaces[k.space].vmas, k.va).Some?
  }

  /** What programs see: an untouched page of a mapped area reads as zero. */
  ghost function View(spaces: map<int, Space>, pte: map<Key, Pte>, bytes: map<Frame, Page>): Memory {
    imap k | Covered(spaces, k) :: MappedPage(FlagsAt(spaces[k.space].vmas, k.va).value, PageOf(pte, bytes, k))
  }

  lemma PageOfAbsent(pte: map<Key, Pte>, bytes: map<Frame, Page>)
    ensures forall k :: k !in pte ==> PageOf(pte, bytes, k) == ZERO
  {
  }

  lemma ViewAt(spaces: map<int, Space>, pte: map<Key, Pte>, bytes: map<Frame, Page>, k: Key)
    ensures k in View(spaces, pte, bytes) <==>
              k.space in spaces && Aligned(k.va) && FlagsAt(spaces[k.space].vmas, k.va).Some?
    ensures k in View(spaces, pte, bytes) ==>
              View(spaces, pte, bytes)[k] ==
                  MappedPage(FlagsAt(spaces[k.space].vmas, k.va).value, PageOf(pte, bytes, k))
  {
  }

  lemma MapAt(m: Memory, s: int, lo: int, hi: int, f: Flags, k: Key)
    ensures k in Map(m, s, lo, hi, f) <==> k in m || (k.space == s && lo <= k.va < hi && Aligned(k.va))
    ensures In(k, s, lo, hi) <==> k.space == s && lo <= k.va < hi
    ensures k in Map(m, s, lo, hi, f) ==>
              Map(m, s, lo, hi, f)[k] == if k.space == s && lo <= k.va < hi then MappedPage(f, ZERO) else m[k]
  {
  }

  lemma CoveredAt(spaces: map<int, Space>, k: Key)
    ensures Covered(spaces, k) <==> k.space in spaces && Aligned(k.va) && FlagsAt(spaces[k.space].vmas, k.va).Some?
  {
  }

  lemma UnmapAt(m: Memory, s: int, lo: int, hi: int, k: Key)
    ensures k in Unmap(m, s, lo, hi) <==> k in m && !(k.space == s && lo <= k.va < hi)
    ensures In(k, s, lo, hi) <==> k.space == s && lo <= k.va < hi
    ensures k in Unmap(m, s, lo, hi) ==> Unmap(m, s, lo, hi)[k] == m[k]
  {
  }

  lemma ForkAt(m: Memory, src: int, dst: int, k: Key)
    ensures var j := if k.space == dst then Key(src, k.va) else k;
      (k in Fork(m, src, dst) <==> j in m) && (k in Fork(m, src, dst) ==> Fork(m, src, dst)[k] == m[j])
  {
  }

  lemma SameView(spaces: map<int, Space>, pte: map<Key, Pte>, bytes: map<Frame, Page>,
                 pte': map<Key, Pte>, bytes': map<Frame, Page>)
    requires forall k :: Covered(spaces, k) ==> PageOf(pte, bytes, k) == PageOf(pte', bytes', k)
    ensures View(spaces, pte, bytes) == View(spaces, pte', bytes')
  {
  }

  lemma RefsUpdate(pte: map<Key, Pte>, k: Key, e: Pte, f: Frame)
    ensures Refs(pte[k := e], f) == if e.frame == f then Refs(pte, f) + {k} else Refs(pte, f) - {k}
  {
  }

  lemma RefsRemove(pte: map<Key, Pte>, k: Key, f: Frame)
    ensures Refs(pte - {k}, f) == Refs(pte, f) - {k}
  {
  }

  /** A frame counted once is mapped by nobody else. */
  lemma SoleRef(pte: map<Key, Pte>, k: Key, j: Key)
    requires k in pte && j in pte && pte[j].frame == pte[k].frame
    requires |Refs(pte, pte[k].frame)| == 1
    ensures j == k
  {
    var s := Refs(pte, pte[k].frame);
    assert k in s && j in s;
    assert |s - {k}| == 0;
  }

  // ------------------------------------------------------------------------
  // Physical frames
  // ------------------------------------------------------------------------

  /** The physical page manager: which frames are free, the user refcounts, the contents. */
  datatype Pool = Pool(frames: set<Frame>, zero: Frame, free: set<Frame>, refs: map<Frame, nat>, bytes: map<Frame,
      Page>)

  /** `pmm_alloc_user_page`: the frame leaves the free set with one reference. */
  function Taken(p: Pool, f: Frame): Pool {
    p.(free := p.free - {f}, refs := p.refs[f := 1])
  }

  /** `pmm_put_user_page`: the last reference returns the frame, zeroed, to the free set. */
  function Released(p: Pool, g: Frame): Pool
    requires g in p.refs && p.refs[g] > 0
  {
    if p.refs[g] > 1 then p.(refs := p.refs[g := p.refs[g] - 1])
    else p.(refs := p.refs[g := 0], free := p.free + {g}, bytes := p.bytes[g := ZERO])
  }

  // ------------------------------------------------------------------------
  // The invariant, clause by clause
  // ------------------------------------------------------------------------

  /** A frame is free exactly when nothing holds it, and free frames are zero.
      `owner` is the inverse of `tables`, so no two tables share a frame. */
  ghost predicate PoolOk(p: Pool, tables: map<TableKey, Frame>, owner: map<Frame, TableKey>) {
    && p.refs.Keys == p.frames
    && p.bytes.Keys == p.frames
    && p.zero in p.frames
    && p.refs[p.zero] == 0
    && p.bytes[p.zero] == ZERO
    && (forall t :: t in tables ==> tables[t] in owner && owner[tables[t]] == t)
    && (forall f :: f in owner ==>
          f in p.frames && f != p.zero && p.refs[f] == 0 && owner[f] in tables && tables[owner[f]] == f)
    && (forall f :: f in p.free <==> f in p.frames && f != p.zero && p.refs[f] == 0 && f !in owner)
    && (forall f :: f in p.free ==> p.bytes[f] == ZERO)
  }

  /** Refcounts are exact; a frame in `pins` carries one reference that no entry holds yet. */
  ghost predicate RefsOk(p: Pool, pte: map<Key, Pte>, pins: set<Frame>) {
    forall f :: f in p.frames && f != p.zero ==>
      f in p.refs && p.refs[f] == |Refs(pte, f)| + (if f in pins then 1 else 0)
  }

  /** An entry's frame is counted; a writable entry is the frame's only one and is not executable. */
  ghost predicate Held(p: Pool, e: Pte) {
    && e.frame in p.frames
    && e.frame in p.refs
    && (e.frame != p.zero ==> p.refs[e.frame] > 0)
    && (e.write ==> e.nx && e.frame != p.zero && p.refs[e.frame] == 1)
  }

  ghost predicate AllHeld(p: Pool, pte: map<Key, Pte>) {
    forall k :: k in pte ==> Held(p, pte[k])
  }

  /** The entry allows no more writing or executing than the flags. */
  predicate Grants(e: Pte, f: Flags) {
    (e.write ==> f.write) && (!e.nx ==> f.exec)
  }

  /** An entry lies in an area of a live space and its table walk is complete;
      a writable one lies in a writable area, an executable one in an executable area. */
  ghost predicate Placed(spaces: map<int, Space>, tables: map<TableKey, Frame>, k: Key, e: Pte) {
    && Covered(spaces, k)
    && Walked(tables, k)
    && e.user
    && Grants(e, FlagsAt(spaces[k.space].vmas, k.va).value)
  }

  ghost predicate AllPlaced(spaces: map<int, Space>, tables: map<TableKey, Frame>, pte: map<Key, Pte>) {
    forall k :: k in pte ==> Placed(spaces, tables, k, pte[k])
  }

  ghost predicate SpacesOk(spaces: map<int, Space>, tables: map<TableKey, Frame>) {
    && (forall s :: s in spaces ==>
          && WellFormed(spaces[s].vmas)
          && Aligned(spaces[s].mmapBase)
          && spaces[s].mmapBase <= MMAP_BASE
          && TableKey(s, 4, 0) in tables)
    && (forall t :: t in tables ==> t.space in spaces)
  }

  /** Frames and entries together. */
  ghost predicate Accounted(p: Pool, tables: map<TableKey, Frame>, owner: map<Frame, TableKey>,
                            pte: map<Key, Pte>, pins: set<Frame>)
  {
    PoolOk(p, tables, owner) && RefsOk(p, pte, pins) && AllHeld(p, pte)
  }

  // ------------------------------------------------------------------------
  // How each primitive change keeps the accounts
  // ------------------------------------------------------------------------

  /** Taking a free frame as a user page pins it until an entry is installed. */
  lemma TakeFrame(p: Pool, tables: map<TableKey, Frame>, owner: map<Frame, TableKey>, pte: map<Key, Pte>, f: Frame)
    requires Accounted(p, tables, owner, pte, {}) && f in p.free
    ensures Accounted(Taken(p, f), tables, owner, pte, {f})
    ensures Refs(pte, f) == {} && f in p.frames && f != p.zero && f in p.bytes && p.bytes[f] == ZERO
  {
    assert |Refs(pte, f)| == 0;
    forall k | k in pte ensures pte[k].frame != f {
      assert Held(p, pte[k]);
    }
  }

  /** Contents of a frame that no entry maps may change freely while it is pinned. */
  lemma FillPinned(p: Pool, tables: map<TableKey, Frame>, owner: map<Frame, TableKey>, pte: map<Key, Pte>, f: Frame,
                   page: Page)
    requires Accounted(p, tables, owner, pte, {f}) && f in p.frames && f != p.zero && Refs(pte, f) == {}
    ensures Accounted(p.(bytes := p.bytes[f := page]), tables, owner, pte, {f})
    ensures forall k :: PageOf(pte, p.bytes[f := page], k) == PageOf(pte, p.bytes, k)
  {
    forall k ensures PageOf(pte, p.bytes[f := page], k) == PageOf(pte, p.bytes, k) {
      assert k in pte && pte[k].frame == f ==> k in Refs(pte, f);
    }
    assert p.refs[f] == 1;
    forall k | k in pte ensures Held(p.(bytes := p.bytes[f := page]), pte[k]) {
      assert Held(p, pte[k]);
    }
  }

  /** Dropping a pinned reference. */
  lemma ReleasePin(p: Pool, tables: map<TableKey, Frame>, owner: map<Frame, TableKey>, pte: map<Key, Pte>, g: Frame)
    requires Accounted(p, tables, owner, pte, {g}) && g in p.frames && g != p.zero
    ensures g in p.refs && p.refs[g] > 0 && g !in p.free
    ensures Accounted(Released(p, g), tables, owner, pte, {})
    ensures forall k :: PageOf(pte, Released(p, g).bytes, k) == PageOf(pte, p.bytes, k)
  {
    hide PoolOk, RefsOk, AllHeld, PageOf;
    ReleasePool(p, tables, owner, pte, g);
    ReleaseHeld(p, pte, g);
    ReleasePages(p, pte, g);
  }

  lemma ReleasePool(p: Pool, tables: map<TableKey, Frame>, owner: map<Frame, TableKey>, pte: map<Key, Pte>, g: Frame)
    requires PoolOk(p, tables, owner) && RefsOk(p, pte, {g}) && g in p.frames && g != p.zero
    ensures g in p.refs && p.refs[g] == |Refs(pte, g)| + 1 && g !in p.free
    ensures PoolOk(Released(p, g), tables, owner) && RefsOk(Released(p, g), pte, {})
  {
  }

  lemma ReleaseHeld(p: Pool, pte: map<Key, Pte>, g: Frame)
    requires AllHeld(p, pte) && g in p.refs && p.refs[g] == |Refs(pte, g)| + 1
    ensures AllHeld(Released(p, g), pte)
  {
    forall k | k in pte ensures Held(Released(p, g), pte[k]) {
      assert Held(p, pte[k]);
      assert k in Refs(pte, pte[k].frame);
    }
  }

  lemma ReleasePages(p: Pool, pte: map<Key, Pte>, g: Frame)
    requires g in p.refs && p.refs[g] == |Refs(pte, g)| + 1
    ensures forall k :: PageOf(pte, Released(p, g).bytes, k) == PageOf(pte, p.bytes, k)
  {
    forall k ensures PageOf(pte, Released(p, g).bytes, k) == PageOf(pte, p.bytes, k) {
      assert k in pte && pte[k].frame == g ==> k in Refs(pte, g);
    }
  }

  /** A free frame becomes a page-table page; its bytes are no longer accounted for. */
  lemma TakeTable(p: Pool, tables: map<TableKey, Frame>, owner: map<Frame, TableKey>, t: TableKey, f: Frame,
                  words: Page)
    requires PoolOk(p, tables, owner) && f in p.free && t !in tables
    ensures PoolOk(p.(free := p.free - {f}, bytes := p.bytes[f := words]), tables[t := f], owner[f := t])
    ensures f in p.bytes
  {
  }

  /** Installing an entry for a pinned frame moves the pin to the frame it displaces. */
  lemma InstallPinned(p: Pool, tables: map<TableKey, Frame>, owner: map<Frame, TableKey>, pte: map<Key, Pte>, k: Key,
                      e: Pte)
    requires Accounted(p, tables, owner, pte, {e.frame})
    requires e.frame in p.frames && e.frame != p.zero && Refs(pte, e.frame) == {} && (e.write ==> e.nx)
    ensures Accounted(p, tables, owner, pte[k := e], if k in pte && pte[k].frame != p.zero then {pte[k].frame} else {})
  {
    var pte' := pte[k := e];
    forall f | f in p.frames && f != p.zero
      ensures p.refs[f] == |Refs(pte', f)| + (if k in pte && f == pte[k].frame then 1 else 0)
    {
      RefsUpdate(pte, k, e, f);
      assert k in pte && f == pte[k].frame ==> k in Refs(pte, f);
    }
    forall j | j in pte' ensures Held(p, pte'[j]) {
      assert j != k ==> Held(p, pte[j]);
    }
  }

  /** The zero page is mapped without being counted. */
  lemma InstallZero(p: Pool, tables: map<TableKey, Frame>, owner: map<Frame, TableKey>, pte: map<Key, Pte>, k: Key,
                    e: Pte)
    requires Accounted(p, tables, owner, pte, {}) && k !in pte && e.frame == p.zero && !e.write
    ensures Accounted(p, tables, owner, pte[k := e], {})
  {
    var pte' := pte[k := e];
    forall f | f in p.frames && f != p.zero ensures Refs(pte', f) == Refs(pte, f) {
      RefsUpdate(pte, k, e, f);
    }
    forall j | j in pte' ensures Held(p, pte'[j]) {
      assert j != k ==> Held(p, pte[j]);
    }
  }

  lemma PlaceEntry(spaces: map<int, Space>, tables: map<TableKey, Frame>, pte: map<Key, Pte>, k: Key, e: Pte)
    requires AllPlaced(spaces, tables, pte) && Placed(spaces, tables, k, e)
    ensures AllPlaced(spaces, tables, pte[k := e])
  {
  }

  lemma SpaceFacts(spaces: map<int, Space>, tables: map<TableKey, Frame>, s: int)
    requires SpacesOk(spaces, tables) && s in spaces
    ensures WellFormed(spaces[s].vmas) && TableKey(s, 4, 0) in tables
    ensures Aligned(spaces[s].mmapBase) && spaces[s].mmapBase <= MMAP_BASE
  {
  }

  lemma BadList(spaces: map<int, Space>, tables: map<TableKey, Frame>, s: int)
    requires s in spaces && !WellFormed(spaces[s].vmas)
    ensures !SpacesOk(spaces, tables)
  {
  }

  /** Changing the permissions of an entry: write may be granted only to a sole entry. */
  lemma ReprotectEntry(p: Pool, tables: map<TableKey, Frame>, owner: map<Frame, TableKey>, pte: map<Key, Pte>, k: Key,
                       e: Pte)
    requires Accounted(p, tables, owner, pte, {})
    requires k in pte && e.frame == pte[k].frame && e.frame in p.refs
    requires e.write ==> e.nx && e.frame != p.zero && p.refs[e.frame] <= 1
    ensures Accounted(p, tables, owner, pte[k := e], {})
    ensures forall j :: PageOf(pte[k := e], p.bytes, j) == PageOf(pte, p.bytes, j)
  {
    forall f ensures Refs(pte[k := e], f) == Refs(pte, f) {
      RefsUpdate(pte, k, e, f);
    }
    var pte' := pte[k := e];
    forall j | j in pte' ensures Held(p, pte'[j]) {
      assert Held(p, pte[j]);
    }
  }

  /** Between the two states only tables of space `s` were added, out of the free set. */
  ghost predicate Grew(p: Pool, p': Pool, tables: map<TableKey, Frame>, tables': map<TableKey, Frame>, s: int) {
    && p' == p.(free := p'.free, bytes := p'.bytes)
    && p'.free <= p.free
    && |p'.free| + |TablesOf(tables', s)| == |p.free| + |TablesOf(tables, s)|
    && (forall t :: t in tables ==> t in tables' && tables'[t] == tables[t])
    && (forall t :: t in tables' && t !in tables ==> t.space == s)
    && p'.bytes.Keys == p.bytes.Keys
    && (forall f :: f in p.bytes && f !in p.free ==> p'.bytes[f] == p.bytes[f])
  }

  lemma GrewNot(p: Pool, tables: map<TableKey, Frame>, s: int)
    ensures Grew(p, p, tables, tables, s)
  {
  }

  lemma GrewOne(p: Pool, tables: map<TableKey, Frame>, t: TableKey, f: Frame, words: Page)
    requires f in p.free && f in p.bytes && t !in tables
    ensures Grew(p, p.(free := p.free - {f}, bytes := p.bytes[f := words]), tables, tables[t := f], t.space)
  {
    TableAdded(tables, t, f);
  }

  lemma GrewCount(p: Pool, p': Pool, tables: map<TableKey, Frame>, tables': map<TableKey, Frame>, s: int)
    requires Grew(p, p', tables, tables', s)
    ensures tables.Keys <= tables'.Keys && |p'.free| + |TablesOf(tables', s)| == |p.free| + |TablesOf(tables, s)|
  {
  }

  lemma GrewTwice(p: Pool, p': Pool, p'': Pool, tables: map<TableKey, Frame>, tables': map<TableKey, Frame>,
                  tables'': map<TableKey, Frame>, s: int)
    requires Grew(p, p', tables, tables', s) && Grew(p', p'', tables', tables'', s)
    ensures Grew(p, p'', tables, tables'', s)
  {
  }

  lemma GrewBytes(p: Pool, p': Pool, tables: map<TableKey, Frame>, tables': map<TableKey, Frame>, s: int, f: Frame)
    requires Grew(p, p', tables, tables', s) && f in p.bytes && f !in p.free
    ensures f in p'.bytes && p'.bytes[f] == p.bytes[f]
  {
  }

  lemma ZeroFacts(p: Pool, tables: map<TableKey, Frame>, owner: map<Frame, TableKey>)
    requires PoolOk(p, tables, owner)
    ensures p.zero in p.bytes && p.zero !in p.free && p.bytes[p.zero] == ZERO
  {
  }

  /** New tables disturb neither the accounts nor what any space reads. */
  lemma GrewAccounted(p: Pool, p': Pool, tables: map<TableKey, Frame>, tables': map<TableKey, Frame>,
                      owner: map<Frame, TableKey>, owner': map<Frame, TableKey>,
                      pte: map<Key, Pte>, pins: set<Frame>, s: int)
    requires Grew(p, p', tables, tables', s)
    requires Accounted(p, tables, owner, pte, pins) && PoolOk(p', tables', owner')
    ensures Accounted(p', tables', owner', pte, pins)
    ensures p' == p.(free := p'.free, bytes := p'.bytes)
    ensures forall k :: PageOf(pte, p'.bytes, k) == PageOf(pte, p.bytes, k)
  {
    forall k | k in pte ensures Held(p', pte[k]) && pte[k].frame !in p.free {
      assert Held(p, pte[k]);
    }
  }

  lemma GrewPlaced(p: Pool, p': Pool, tables: map<TableKey, Frame>, tables': map<TableKey, Frame>,
                   spaces: map<int, Space>, pte: map<Key, Pte>, s: int)
    requires Grew(p, p', tables, tables', s) && s in spaces
    requires AllPlaced(spaces, tables, pte) && SpacesOk(spaces, tables)
    ensures AllPlaced(spaces, tables', pte) && SpacesOk(spaces, tables')
  {
    forall k | k in pte ensures Placed(spaces, tables', k, pte[k]) {
      assert Placed(spaces, tables, k, pte[k]);
    }
  }

  /** What the invariant says of one entry. */
  lemma EntryFacts(p: Pool, tables: map<TableKey, Frame>, owner: map<Frame, TableKey>, spaces: map<int, Space>,
                   pte: map<Key, Pte>, k: Key)
    requires Accounted(p, tables, owner, pte, {}) && AllPlaced(spaces, tables, pte) && k in pte
    ensures pte[k].frame in p.frames && pte[k].frame in p.refs && pte[k].frame in p.bytes
    ensures Placed(spaces, tables, k, pte[k]) && Held(p, pte[k])
    ensures pte[k].frame !in p.free
  {
    assert Held(p, pte[k]);
  }

  /** The access that faulted, from the #PF error code. */
  datatype Access = Read | Write | Fetch

  predicate Allows(f: Flags, a: Access) {
    match a
    case Read => f.read
    case Write => f.write
    case Fetch => f.exec
  }

  /** An entry disappears; its reference is left pinned, to be put. */
  lemma RemoveEntry(p: Pool, tables: map<TableKey, Frame>, owner: map<Frame, TableKey>, pte: map<Key, Pte>, k: Key)
    requires Accounted(p, tables, owner, pte, {}) && k in pte
    ensures Accounted(p, tables, owner, pte - {k}, if pte[k].frame == p.zero then {} else {pte[k].frame})
  {
    var pte' := pte - {k};
    forall f | f in p.frames && f != p.zero
      ensures p.refs[f] == |Refs(pte', f)| + (if f == pte[k].frame then 1 else 0)
    {
      RefsRemove(pte, k, f);
      assert f == pte[k].frame ==> k in Refs(pte, f);
    }
    forall j | j in pte' ensures Held(p, pte'[j]) {
      assert Held(p, pte[j]);
    }
  }

  /** All entries outside [lo, hi) of space `s`. */
  function Without(pte: map<Key, Pte>, s: int, lo: int, hi: int): map<Key, Pte> {
    map k | k in pte && !(k.space == s && lo <= k.va < hi) :: pte[k]
  }

  lemma WithoutStep(pte: map<Key, Pte>, s: int, lo: int, va: int)
    requires forall k :: k in pte ==> Aligned(k.va)
    requires Aligned(va) && lo <= va
    ensures Without(pte, s, lo, va + PAGE_SIZE) == Without(pte, s, lo, va) - {Key(s, va)}
  {
    forall k | k in pte && In(k, s, va, va + PAGE_SIZE) ensures k == Key(s, va) {
      AlignedAlone(va, k.va);
    }
  }

  lemma AlignedAlone(a: int, b: int)
    requires Aligned(a) && Aligned(b) && a <= b < a + PAGE_SIZE
    ensures a == b
  {
  }

  lemma EntriesAligned(spaces: map<int, Space>, tables: map<TableKey, Frame>, pte: map<Key, Pte>)
    requires AllPlaced(spaces, tables, pte)
    ensures forall k :: k in pte ==> Aligned(k.va) && k.space in spaces
  {
    forall k | k in pte ensures Aligned(k.va) && k.space in spaces {
      assert Placed(spaces, tables, k, pte[k]);
    }
  }

  lemma EntriesCovered(spaces: map<int, Space>, tables: map<TableKey, Frame>, pte: map<Key, Pte>)
    requires AllPlaced(spaces, tables, pte)
    ensures forall k :: k in pte ==> k.space in spaces && FlagsAt(spaces[k.space].vmas, k.va).Some?
    ensures forall k :: k in pte ==> Grants(pte[k], FlagsAt(spaces[k.space].vmas, k.va).value)
  {
    forall k | k in pte
      ensures k.space in spaces && FlagsAt(spaces[k.space].vmas, k.va).Some?
      ensures Grants(pte[k], FlagsAt(spaces[k.space].vmas, k.va).value)
    {
      assert Placed(spaces, tables, k, pte[k]);
    }
  }

  lemma FewerPlaced(spaces: map<int, Space>, tables: map<TableKey, Frame>, pte: map<Key, Pte>, pte': map<Key, Pte>)
    requires AllPlaced(spaces, tables, pte)
    requires forall k :: k in pte' ==> k in pte && pte'[k] == pte[k]
    ensures AllPlaced(spaces, tables, pte')
  {
    forall k | k in pte' ensures Placed(spaces, tables, k, pte'[k]) {
      assert Placed(spaces, tables, k, pte[k]);
    }
  }

  /** Replacing the area list of a space keeps every entry placed if the entries' pages
      stay covered and no entry grants more than its area. */
  lemma Relist(spaces: map<int, Space>, tables: map<TableKey, Frame>, pte: map<Key, Pte>, s: int, vs: seq<Vma>)
    requires s in spaces && WellFormed(vs) && AllPlaced(spaces, tables, pte) && SpacesOk(spaces, tables)
    requires forall k :: k in pte && k.space == s ==>
               FlagsAt(vs, k.va).Some? && Grants(pte[k], FlagsAt(vs, k.va).value)
    ensures AllPlaced(spaces[s := spaces[s].(vmas := vs)], tables, pte)
    ensures SpacesOk(spaces[s := spaces[s].(vmas := vs)], tables)
  {
    var spaces' := spaces[s := spaces[s].(vmas := vs)];
    forall k | k in pte ensures Placed(spaces', tables, k, pte[k]) {
      assert Placed(spaces, tables, k, pte[k]);
    }
  }

  lemma KeepsPlaced(spaces: map<int, Space>, tables: map<TableKey, Frame>, pte: map<Key, Pte>, s: int, vs: seq<Vma>)
    requires s in spaces && WellFormed(vs) && AllPlaced(spaces, tables, pte) && SpacesOk(spaces, tables)
    requires forall a :: FlagsAt(vs, a) == FlagsAt(spaces[s].vmas, a)
    ensures AllPlaced(spaces[s := spaces[s].(vmas := vs)], tables, pte)
    ensures SpacesOk(spaces[s := spaces[s].(vmas := vs)], tables)
  {
    forall k | k in pte && k.space == s
      ensures FlagsAt(vs, k.va).Some? && Grants(pte[k], FlagsAt(vs, k.va).value)
    {
      assert Placed(spaces, tables, k, pte[k]);
    }
    Relist(spaces, tables, pte, s, vs);
  }

  /** What range removal does to the view, from what it does to areas and pages. */
  lemma UnmapView(spaces: map<int, Space>, spaces': map<int, Space>, pte: map<Key, Pte>, pte': map<Key, Pte>,
                  bytes: map<Frame, Page>, bytes': map<Frame, Page>, s: int, lo: int, hi: int)
    requires s in spaces && s in spaces' && spaces' == spaces[s := spaces'[s]]
    requires forall a :: FlagsAt(spaces'[s].vmas, a) == if lo <= a < hi then None else FlagsAt(spaces[s].vmas, a)
    requires forall k :: !In(k, s, lo, hi) ==> PageOf(pte', bytes', k) == PageOf(pte, bytes, k)
    ensures View(spaces', pte', bytes') == Unmap(View(spaces, pte, bytes), s, lo, hi)
  {
    hide *;
    var m, m' := View(spaces, pte, bytes), View(spaces', pte', bytes');
    forall k ensures (k in m' <==> k in Unmap(m, s, lo, hi)) && (k in m' ==> m'[k] == Unmap(m, s, lo, hi)[k]) {
      assert FlagsAt(spaces'[s].vmas, k.va) == if lo <= k.va < hi then None else FlagsAt(spaces[s].vmas, k.va);
      ViewAt(spaces, pte, bytes, k);
      ViewAt(spaces', pte', bytes', k);
      UnmapAt(m, s, lo, hi, k);
    }
  }

  lemma MapView(spaces: map<int, Space>, spaces': map<int, Space>, pte: map<Key, Pte>, bytes: map<Frame, Page>,
                s: int, lo: int, hi: int, f: Flags)
    requires s in spaces && s in spaces' && spaces' == spaces[s := spaces'[s]]
    requires forall a :: FlagsAt(spaces'[s].vmas, a) == if lo <= a < hi then Some(f) else FlagsAt(spaces[s].vmas, a)
    requires forall k :: k in pte ==> !In(k, s, lo, hi)
    ensures View(spaces', pte, bytes) == Map(View(spaces, pte, bytes), s, lo, hi, f)
  {
    hide *;
    var m, m' := View(spaces, pte, bytes), Map(View(spaces, pte, bytes), s, lo, hi, f);
    forall k ensures (k in View(spaces', pte, bytes) <==> k in m') &&
                     (k in m' ==> View(spaces', pte, bytes)[k] == m'[k])
    {
      assert FlagsAt(spaces'[s].vmas, k.va) == if lo <= k.va < hi then Some(f) else FlagsAt(spaces[s].vmas, k.va);
      ViewAt(spaces, pte, bytes, k);
      ViewAt(spaces', pte, bytes, k);
      MapAt(m, s, lo, hi, f, k);
      PageOfAbsent(pte, bytes);
    }
  }

  lemma MemAligned(spaces: map<int, Space>, pte: map<Key, Pte>, bytes: map<Frame, Page>)
    ensures forall k :: k in View(spaces, pte, bytes) ==> Aligned(k.va)
  {
  }

  lemma UncoveredKeys(spaces: map<int, Space>, pte: map<Key, Pte>, bytes: map<Frame, Page>, s: int, lo: int, hi: int)
    requires s in spaces && forall a :: lo <= a < hi ==> FlagsAt(spaces[s].vmas, a) == None
    ensures forall k :: In(k, s, lo, hi) ==> k !in View(spaces, pte, bytes)
  {
  }

  /** The gaps between areas are the room the reference memory has. */
  lemma RoomIsFit(spaces: map<int, Space>, pte: map<Key, Pte>, bytes: map<Frame, Page>, s: int, len: nat, b: int)
    requires s in spaces && WellFormed(spaces[s].vmas) && len > 0
    ensures Room(View(spaces, pte, bytes), s, len, spaces[s].mmapBase, b) <==>
              Fits(spaces[s].vmas, len, spaces[s].mmapBase, b)
  {
    hide FlagsAt, View, WellFormed;
    var m, vs, top := View(spaces, pte, bytes), spaces[s].vmas, spaces[s].mmapBase;
    if Room(m, s, len, top, b) {
      forall a | b <= a < b + len && Aligned(a) ensures FlagsAt(vs, a) == None {
        ViewAt(spaces, pte, bytes, Key(s, a));
        assert In(Key(s, a), s, b, b + len);
      }
      FitsUnmapped(vs, len, top, b);
    }
    if Fits(vs, len, top, b) {
      FitsUncovered(vs, len, top, b);
      forall k | In(k, s, b, b + len) ensures k !in m {
        ViewAt(spaces, pte, bytes, k);
      }
    }
  }

  lemma HighestIsHighest(spaces: map<int, Space>, pte: map<Key, Pte>, bytes: map<Frame, Page>, s: int, len: nat, b: int)
    requires s in spaces && WellFormed(spaces[s].vmas) && len > 0
    requires Highest(spaces[s].vmas, len, spaces[s].mmapBase, b)
    ensures HighestRoom(View(spaces, pte, bytes), s, len, spaces[s].mmapBase, b)
  {
    hide Fits, Room, View, WellFormed;
    RoomIsFit(spaces, pte, bytes, s, len, b);
    forall c | Room(View(spaces, pte, bytes), s, len, spaces[s].mmapBase, c) ensures c <= b {
      RoomIsFit(spaces, pte, bytes, s, len, c);
    }
  }

  lemma NothingMapped(spaces: map<int, Space>, pte: map<Key, Pte>, bytes: map<Frame, Page>, s: int)
    requires s in spaces && spaces[s].vmas == []
    ensures forall k :: k in View(spaces, pte, bytes) ==> k.space != s
  {
  }

  /** Mapping over a range that was just cleared is the same as mapping over it at once. */
  lemma MapAfterUnmap(m: Memory, s: int, lo: int, hi: int, f: Flags)
    requires forall k :: k in m ==> Aligned(k.va)
    ensures Map(Unmap(m, s, lo, hi), s, lo, hi, f) == Map(m, s, lo, hi, f)
  {
  }

  /** The one request on which the gap search overflows 64 bits. */
  predicate Wraps(space: Space, len: nat) {
    space.vmas == [] && len == U64 - PAGE_SIZE
  }

  /** The entry with neither permission. */
  function Bare(e: Pte): Pte {
    e.(write := false, nx := true)
  }

  ghost function Ceilings(spaces: map<int, Space>): map<int, nat> {
    map s | s in spaces :: spaces[s].mmapBase
  }

  lemma SameCeilings(spaces: map<int, Space>, s: int, vs: seq<Vma>)
    requires s in spaces
    ensures Ceilings(spaces[s := spaces[s].(vmas := vs)]) == Ceilings(spaces)
  {
  }

  /** As AllPlaced, except that entries of [lo, hi) of space `s` may still grant what their area
      no longer does: `sys_mprotect` changes the area first and the entries one by one. */
  ghost predicate HalfPlaced(spaces: map<int, Space>, tables: map<TableKey, Frame>, pte: map<Key, Pte>, s: int,
                             lo: int, hi: int) {
    forall k :: k in pte ==> Placed(spaces, tables, k, if In(k, s, lo, hi) then Bare(pte[k]) else pte[k])
  }

  lemma ReflagHalfPlaced(spaces: map<int, Space>, tables: map<TableKey, Frame>, pte: map<Key, Pte>, s: int, i: nat,
                         f: Flags)
    requires s in spaces && i < |spaces[s].vmas| && !(f.write && f.exec)
    requires AllPlaced(spaces, tables, pte) && SpacesOk(spaces, tables)
    ensures var v, vs := spaces[s].vmas[i], spaces[s].vmas[i := spaces[s].vmas[i].(flags := f)];
      && HalfPlaced(spaces[s := spaces[s].(vmas := vs)], tables, pte, s, v.start, v.end)
      && SpacesOk(spaces[s := spaces[s].(vmas := vs)], tables)
  {
    hide FlagsAt;
    var v, vs := spaces[s].vmas[i], spaces[s].vmas[i := spaces[s].vmas[i].(flags := f)];
    SetFlagsFlags(spaces[s].vmas, i, f);
    var spaces' := spaces[s := spaces[s].(vmas := vs)];
    forall k | k in pte
      ensures Placed(spaces', tables, k, if In(k, s, v.start, v.end) then Bare(pte[k]) else pte[k])
    {
      assert Placed(spaces, tables, k, pte[k]);
    }
  }

  lemma ProtectStep(spaces: map<int, Space>, tables: map<TableKey, Frame>, pte: map<Key, Pte>, pte': map<Key, Pte>,
                    s: int, va: int, hi: int)
    requires HalfPlaced(spaces, tables, pte, s, va, hi) && Aligned(va) && va < hi
    requires pte'.Keys == pte.Keys
    requires forall k :: k in pte && k != Key(s, va) ==> pte'[k] == pte[k]
    requires Key(s, va) in pte' ==> Placed(spaces, tables, Key(s, va), pte'[Key(s, va)])
    ensures HalfPlaced(spaces, tables, pte', s, va + PAGE_SIZE, hi)
  {
    forall k | k in pte'
      ensures Placed(spaces, tables, k, if In(k, s, va + PAGE_SIZE, hi) then Bare(pte'[k]) else pte'[k])
    {
      assert Placed(spaces, tables, k, if In(k, s, va, hi) then Bare(pte[k]) else pte[k]);
      if In(k, s, va, va + PAGE_SIZE) {
        AlignedAlone(va, k.va);
      }
    }
  }

  lemma HalfPlacedAt(spaces: map<int, Space>, tables: map<TableKey, Frame>, pte: map<Key, Pte>, s: int, lo: int,
                     hi: int, k: Key)
    requires HalfPlaced(spaces, tables, pte, s, lo, hi) && In(k, s, lo, hi)
    ensures k in pte ==> Placed(spaces, tables, k, Bare(pte[k]))
  {
  }

  lemma HalfPlacedDone(spaces: map<int, Space>, tables: map<TableKey, Frame>, pte: map<Key, Pte>, s: int, hi: int)
    requires HalfPlaced(spaces, tables, pte, s, hi, hi)
    ensures AllPlaced(spaces, tables, pte)
  {
  }

  lemma ProtectView(spaces: map<int, Space>, spaces': map<int, Space>, pte: map<Key, Pte>, pte': map<Key, Pte>,
                    bytes: map<Frame, Page>, s: int, lo: int, hi: int, f: Flags)
    requires s in spaces && s in spaces' && spaces' == spaces[s := spaces'[s]]
    requires forall a :: FlagsAt(spaces'[s].vmas, a) ==
               if lo <= a < hi && FlagsAt(spaces[s].vmas, a).Some? then Some(f) else FlagsAt(spaces[s].vmas, a)
    requires forall k :: PageOf(pte', bytes, k) == PageOf(pte, bytes, k)
    ensures View(spaces', pte', bytes) == Protect(View(spaces, pte, bytes), s, lo, hi, f)
  {
    hide FlagsAt;
    var m, m' := View(spaces, pte, bytes), View(spaces', pte', bytes);
    forall k ensures k in m' <==> k in m {
    }
    forall k | k in m' ensures m'[k] == if In(k, s, lo, hi) then m[k].(flags := f) else m[k] {
    }
  }

  /** A page-table page goes back to the free set, zeroed. */
  lemma DropTable(p: Pool, tables: map<TableKey, Frame>, owner: map<Frame, TableKey>, pte: map<Key, Pte>, t: TableKey)
    requires Accounted(p, tables, owner, pte, {}) && t in tables
    ensures tables[t] !in p.free && tables[t] in p.bytes
    ensures var f := tables[t];
      var p' := p.(free := p.free + {f}, bytes := p.bytes[f := ZERO]);
      && Accounted(p', tables - {t}, owner - {f}, pte, {})
      && forall k :: PageOf(pte, p'.bytes, k) == PageOf(pte, p.bytes, k)
  {
    var f := tables[t];
    var p' := p.(free := p.free + {f}, bytes := p.bytes[f := ZERO]);
    forall k | k in pte ensures Held(p', pte[k]) && pte[k].frame != f {
      assert Held(p, pte[k]);
    }
    forall k ensures PageOf(pte, p'.bytes, k) == PageOf(pte, p.bytes, k) {
    }
  }

  lemma DropTablePlaced(spaces: map<int, Space>, tables: map<TableKey, Frame>, pte: map<Key, Pte>, t: TableKey)
    requires AllPlaced(spaces, tables, pte) && forall k :: k in pte ==> k.space != t.space
    ensures AllPlaced(spaces, tables - {t}, pte)
  {
    forall k | k in pte ensures Placed(spaces, tables - {t}, k, pte[k]) {
      assert Placed(spaces, tables, k, pte[k]);
    }
  }

  lemma DropSpacePlaced(spaces: map<int, Space>, tables: map<TableKey, Frame>, pte: map<Key, Pte>, s: int)
    requires AllPlaced(spaces, tables, pte) && forall k :: k in pte ==> k.space != s
    ensures AllPlaced(spaces - {s}, tables, pte)
  {
    forall k | k in pte ensures Placed(spaces - {s}, tables, k, pte[k]) {
      assert Placed(spaces, tables, k, pte[k]);
    }
  }

  lemma DestroyView(spaces: map<int, Space>, pte: map<Key, Pte>, pte': map<Key, Pte>,
                    bytes: map<Frame, Page>, bytes': map<Frame, Page>, s: int)
    requires forall k: Key :: k.space != s ==> PageOf(pte', bytes', k) == PageOf(pte, bytes, k)
    ensures View(spaces - {s}, pte', bytes') == Destroy(View(spaces, pte, bytes), s)
  {
    hide FlagsAt;
    var m, m' := View(spaces, pte, bytes), View(spaces - {s}, pte', bytes');
    forall k ensures k in m' <==> k in Destroy(m, s) {
    }
    forall k | k in m' ensures m'[k] == m[k] {
    }
  }

  lemma EmptyFlags()
    ensures forall a :: FlagsAt([], a) == None
  {
  }

  lemma NewSpace(spaces: map<int, Space>, tables: map<TableKey, Frame>, pte: map<Key, Pte>, bytes: map<Frame, Page>,
                 s: int, base: nat, f: Frame)
    requires AllPlaced(spaces, tables, pte) && SpacesOk(spaces, tables) && s !in spaces
    requires Aligned(base) && base <= MMAP_BASE
    ensures var spaces', tables' := spaces[s := Space([], base)], tables[TableKey(s, 4, 0) := f];
      && TableKey(s, 4, 0) !in tables
      && AllPlaced(spaces', tables', pte)
      && SpacesOk(spaces', tables')
      && (forall k :: k in pte ==> k.space != s)
      && View(spaces', pte, bytes) == View(spaces, pte, bytes)
  {
    var spaces', tables' := spaces[s := Space([], base)], tables[TableKey(s, 4, 0) := f];
    EmptyFlags();
    hide FlagsAt;
    forall k | k in pte ensures Placed(spaces', tables', k, pte[k]) && k.space != s {
      assert Placed(spaces, tables, k, pte[k]);
    }
    forall k ensures Covered(spaces', k) <==> Covered(spaces, k) {
    }
  }

  lemma AccountedPool(p: Pool, tables: map<TableKey, Frame>, owner: map<Frame, TableKey>, pte: map<Key, Pte>)
    requires Accounted(p, tables, owner, pte, {})
    ensures PoolOk(p, tables, owner)
  {
  }

  /** Entries of spaces other than `s`. */
  function Others(pte: map<Key, Pte>, s: int): map<Key, Pte> {
    map k | k in pte && k.space != s :: pte[k]
  }

  /** Fork shares a frame: both entries are read-only and the frame gains a reference. */
  lemma ShareEntry(p: Pool, tables: map<TableKey, Frame>, owner: map<Frame, TableKey>, pte: map<Key, Pte>,
                   k: Key, child: Key, e: Pte)
    requires Accounted(p, tables, owner, pte, {})
    requires k in pte && !pte[k].write && child !in pte && e.frame == pte[k].frame && e.frame != p.zero && !e.write
    ensures e.frame in p.refs && p.refs[e.frame] > 0
    ensures Accounted(p.(refs := p.refs[e.frame := p.refs[e.frame] + 1]), tables, owner, pte[child := e], {})
  {
    hide PoolOk, Refs;
    var f := e.frame;
    assert Held(p, pte[k]);
    CountUp(p, tables, owner, f);
    ChildNotIn(pte, child);
    var p', pte' := p.(refs := p.refs[f := p.refs[f] + 1]), pte[child := e];
    forall g | g in p.frames && g != p.zero ensures p'.refs[g] == |Refs(pte', g)| {
      RefsUpdate(pte, child, e, g);
    }
    forall j | j in pte' ensures Held(p', pte'[j]) {
      if j != child {
        SharedReadOnly(p, pte, k, j);
      }
    }
  }

  lemma ChildNotIn(pte: map<Key, Pte>, child: Key)
    requires child !in pte
    ensures forall g :: child !in Refs(pte, g)
  {
  }

  lemma CountUp(p: Pool, tables: map<TableKey, Frame>, owner: map<Frame, TableKey>, f: Frame)
    requires PoolOk(p, tables, owner) && f in p.refs && p.refs[f] > 0
    ensures PoolOk(p.(refs := p.refs[f := p.refs[f] + 1]), tables, owner)
  {
  }

  /** If one entry of a frame is read-only, all are: a writable entry is alone. */
  lemma SharedReadOnly(p: Pool, pte: map<Key, Pte>, k: Key, j: Key)
    requires RefsOk(p, pte, {}) && AllHeld(p, pte) && k in pte && j in pte && !pte[k].write && pte[k].frame != p.zero
    ensures Held(p, pte[j])
    ensures pte[j].frame == pte[k].frame ==> !pte[j].write
  {
    assert Held(p, pte[j]) && Held(p, pte[k]);
    if pte[j].frame == pte[k].frame && pte[j].write {
      SoleRef(pte, k, j);
    }
  }

  /** Same pages mapped to the same frames, whatever the permissions. */
  ghost predicate SameFrames(pte: map<Key, Pte>, pte': map<Key, Pte>) {
    pte'.Keys == pte.Keys && forall k :: k in pte ==> pte'[k].frame == pte[k].frame
  }

  /** Sharing one page: the child reads what the parent reads, all else reads as before. */
  lemma SharedPages(pte: map<Key, Pte>, shared: map<Key, Pte>, bytes: map<Frame, Page>, bytes': map<Frame, Page>,
                    k: Key, child: Key, e: Pte, after: map<Key, Pte>)
    requires after == shared[child := e]
    requires k in pte && child !in pte && k.space != child.space && e.frame == pte[k].frame
    requires shared == pte[k := pte[k].(write := false)]
    requires forall j :: PageOf(shared, bytes', j) == PageOf(pte, bytes, j)
    ensures SameFrames(Others(pte, child.space), Others(shared, child.space))
    ensures SameFrames(Others(pte, child.space), Others(after, child.space))
    ensures forall j :: PageOf(after, bytes', j) == PageOf(pte, bytes, if j == child then k else j)
  {
    assert PageOf(shared, bytes', k) == PageOf(pte, bytes, k);
  }

  lemma SameFramesRefl(pte: map<Key, Pte>)
    ensures SameFrames(pte, pte)
  {
  }

  lemma SameFramesTrans(pte: map<Key, Pte>, pte': map<Key, Pte>, pte'': map<Key, Pte>)
    requires SameFrames(pte, pte') && SameFrames(pte', pte'')
    ensures SameFrames(pte, pte'')
  {
  }

  function OtherTables(tables: map<TableKey, Frame>, s: int): map<TableKey, Frame> {
    map t | t in tables && t.space != s :: tables[t]
  }

  /** The table pages of a space. */
  ghost function TablesOf(tables: map<TableKey, Frame>, s: int): set<TableKey> {
    set t | t in tables && t.space == s
  }

  lemma TableAdded(tables: map<TableKey, Frame>, t: TableKey, f: Frame)
    requires t !in tables
    ensures |TablesOf(tables[t := f], t.space)| == |TablesOf(tables, t.space)| + 1
  {
    assert TablesOf(tables[t := f], t.space) == TablesOf(tables, t.space) + {t};
  }

  lemma NoTables(spaces: map<int, Space>, tables: map<TableKey, Frame>, s: int)
    requires SpacesOk(spaces, tables) && s !in spaces
    ensures TablesOf(tables, s) == {}
  {
  }

  lemma SameTables(tables: map<TableKey, Frame>, tables': map<TableKey, Frame>, src: int, dst: int)
    requires OtherTables(tables, dst) == OtherTables(tables', dst) && src != dst
    ensures TablesOf(tables, src) == TablesOf(tables', src)
  {
    forall t: TableKey | t.space == src ensures t in tables <==> t in tables' {
      assert t in tables <==> t in OtherTables(tables, dst);
      assert t in tables' <==> t in OtherTables(tables', dst);
    }
  }

  function Mirror(t: TableKey, s: int): TableKey {
    t.(space := s)
  }

  /** Each table of `dst` stands where `src` has one. */
  ghost predicate Mirrored(tables: map<TableKey, Frame>, src: int, dst: int) {
    forall t :: t in tables && t.space == dst ==> Mirror(t, src) in tables
  }

  lemma {:induction false} MirrorCount(a: set<TableKey>, b: set<TableKey>, src: int, dst: int)
    requires forall t :: t in a ==> t.space == dst && Mirror(t, src) in b
    ensures |a| <= |b|
    decreases |a|
  {
    if a != {} {
      var t :| t in a;
      forall u | u in a - {t} ensures u.space == dst && Mirror(u, src) in b - {Mirror(t, src)} {
        assert Mirror(u, src) == Mirror(t, src) ==> u == t;
      }
      MirrorCount(a - {t}, b - {Mirror(t, src)}, src, dst);
    }
  }

  /** A table that `src` has and `dst` lacks. */
  lemma FewerTables(tables: map<TableKey, Frame>, src: int, dst: int, t: TableKey)
    requires Mirrored(tables, src, dst) && t !in tables && t.space == dst && Mirror(t, src) in tables
    ensures |TablesOf(tables, dst)| < |TablesOf(tables, src)|
  {
    var a, b := TablesOf(tables, dst), TablesOf(tables, src) - {Mirror(t, src)};
    forall u | u in a ensures u.space == dst && Mirror(u, src) in b {
      assert Mirror(u, src) == Mirror(t, src) ==> u == t;
    }
    MirrorCount(a, b, src, dst);
  }

  /** Tables added on the way to `child` stand where the walk to `k` has passed. */
  lemma MirrorWalk(tables: map<TableKey, Frame>, tables': map<TableKey, Frame>, k: Key, child: Key)
    requires Mirrored(tables, k.space, child.space) && Walked(tables, k) && child.va == k.va
    requires forall t :: t in tables ==> t in tables'
    requires forall t :: t in tables' ==> t in tables || t in {TableOf(child, 1), TableOf(child, 2), TableOf(child, 3)}
    ensures Mirrored(tables', k.space, child.space) && Walked(tables', k)
  {
    WalkLevels(tables, k);
    WalkLevels(tables', k);
    assert forall level :: Mirror(TableOf(child, level), k.space) == TableOf(k, level);
  }

  lemma MissingTable(tables: map<TableKey, Frame>, k: Key, child: Key)
    requires Mirrored(tables, k.space, child.space) && Walked(tables, k) && child.va == k.va && !Walked(tables, child)
    ensures |TablesOf(tables, child.space)| < |TablesOf(tables, k.space)|
  {
    var level :| 1 <= level <= 4 && TableOf(child, level) !in tables;
    assert Mirror(TableOf(child, level), k.space) == TableOf(k, level);
    FewerTables(tables, k.space, child.space, TableOf(child, level));
  }

  lemma OneTable(spaces: map<int, Space>, tables: map<TableKey, Frame>, src: int, dst: int)
    requires SpacesOk(spaces, tables) && src in spaces && TablesOf(tables, dst) == {TableKey(dst, 4, 0)}
    ensures Mirrored(tables, src, dst)
  {
    forall t | t in tables && t.space == dst ensures Mirror(t, src) in tables {
      assert t in TablesOf(tables, dst);
    }
  }

  lemma SomeTable(spaces: map<int, Space>, tables: map<TableKey, Frame>, s: int)
    requires SpacesOk(spaces, tables) && s in spaces
    ensures |TablesOf(tables, s)| > 0
  {
    assert TableKey(s, 4, 0) in TablesOf(tables, s);
  }

  lemma GrewOthers(p: Pool, p': Pool, tables: map<TableKey, Frame>, tables': map<TableKey, Frame>, s: int)
    requires Grew(p, p', tables, tables', s)
    ensures OtherTables(tables', s) == OtherTables(tables, s)
  {
  }

  /** Which frames are free, and every refcount, follow from the tables and the entries' frames. */
  lemma FreeDetermined(p: Pool, p': Pool, tables: map<TableKey, Frame>,
                       owner: map<Frame, TableKey>, owner': map<Frame, TableKey>, pte: map<Key, Pte>, pte': map<Key,
                           Pte>)
    requires Accounted(p, tables, owner, pte, {}) && Accounted(p', tables, owner', pte', {})
    requires p'.frames == p.frames && p'.zero == p.zero && SameFrames(pte, pte')
    ensures p'.refs == p.refs && p'.free == p.free
  {
    forall f ensures Refs(pte', f) == Refs(pte, f) {
    }
    forall f ensures f in owner' <==> f in owner {
      assert f in owner ==> owner[f] in tables && tables[owner[f]] == f;
      assert f in owner' ==> owner'[f] in tables && tables[owner'[f]] == f;
    }
  }

  lemma ForkView(spaces: map<int, Space>, pte: map<Key, Pte>, pte': map<Key, Pte>,
                 bytes: map<Frame, Page>, bytes': map<Frame, Page>, src: int, dst: int, child: Space)
    requires src in spaces && dst !in spaces && child.vmas == spaces[src].vmas
    requires forall k: Key :: k.space != dst ==> PageOf(pte', bytes', k) == PageOf(pte, bytes, k)
    requires forall k: Key :: k.space == dst && Covered(spaces, Key(src, k.va)) ==>
               PageOf(pte', bytes', k) == PageOf(pte, bytes, Key(src, k.va))
    ensures View(spaces[dst := child], pte', bytes') == Fork(View(spaces, pte, bytes), src, dst)
  {
    hide *;
    var m, m' := View(spaces, pte, bytes), View(spaces[dst := child], pte', bytes');
    forall k: Key ensures (k in m' <==> k in Fork(m, src, dst)) && (k in m' ==> m'[k] == Fork(m, src, dst)[k]) {
      var j := if k.space == dst then Key(src, k.va) else k;
      ViewAt(spaces, pte, bytes, j);
      CoveredAt(spaces, j);
      ViewAt(spaces[dst := child], pte', bytes', k);
      ForkAt(m, src, dst, k);
    }
  }

  /** The dst list is a prefix of the src list, so the next src area goes at its end. */
  lemma PrefixInsert(vs: seq<Vma>, i: nat)
    requires WellFormed(vs) && i < |vs|
    ensures WellFormed(vs[..i]) && WellFormed(vs[..i + 1])
    ensures InsertAt(vs[..i], i, vs[i]) == vs[..i + 1]
    ensures forall j :: 0 <= j < i ==> !Overlaps(vs[..i][j], vs[i])
    ensures forall a :: vs[i].Contains(a) ==> FlagsAt(vs[..i], a) == None
  {
    GapFlags(vs[..i], i, vs[i].start, vs[i].end);
  }

  /** A descriptor that is not live owns no entries and no tables. */
  lemma FreshSpace(spaces: map<int, Space>, tables: map<TableKey, Frame>, pte: map<Key, Pte>, s: int)
    requires AllPlaced(spaces, tables, pte) && SpacesOk(spaces, tables) && s !in spaces
    ensures Others(pte, s) == pte && OtherTables(tables, s) == tables
  {
    forall k | k in pte ensures k.space != s {
      assert Placed(spaces, tables, k, pte[k]);
    }
  }

  /** What the MMU lets user code do through an entry; a present page is always readable. */
  predicate Permits(pte: map<Key, Pte>, k: Key, a: Access) {
    k in pte && pte[k].user && (a == Write ==> pte[k].write) && (a == Fetch ==> !pte[k].nx)
  }

  /** A store through a writable entry is seen by no other page. */
  lemma WriteByte(p: Pool, tables: map<TableKey, Frame>, owner: map<Frame, TableKey>, pte: map<Key, Pte>,
                  k: Key, page: Page)
    requires Accounted(p, tables, owner, pte, {}) && k in pte && pte[k].write
    ensures Accounted(p.(bytes := p.bytes[pte[k].frame := page]), tables, owner, pte, {})
    ensures forall j :: PageOf(pte, p.bytes[pte[k].frame := page], j) == if j == k then page
              else PageOf(pte, p.bytes, j)
  {
    var f := pte[k].frame;
    var q := p.(bytes := p.bytes[f := page]);
    assert Held(p, pte[k]);
    forall j | j in pte ensures Held(q, pte[j]) {
      assert Held(p, pte[j]);
    }
    forall j ensures PageOf(pte, q.bytes, j) == if j == k then page else PageOf(pte, p.bytes, j) {
      if j in pte && pte[j].frame == f {
        SoleRef(pte, k, j);
      }
    }
  }

  lemma StoreView(spaces: map<int, Space>, pte: map<Key, Pte>, bytes: map<Frame, Page>, bytes': map<Frame, Page>,
                  s: int, a: nat, b: Byte)
    requires Covered(spaces, Key(s, PageDown(a)))
    requires forall j :: PageOf(pte, bytes', j) ==
               if j == Key(s, PageDown(a)) then PageOf(pte, bytes, j)[a % PAGE_SIZE := b] else PageOf(pte, bytes, j)
    ensures View(spaces, pte, bytes') == Store(View(spaces, pte, bytes), s, a, b)
  {
  }

  /** What the accounts say at every operation boundary: a user frame's refcount is the number of
      entries that map it over all spaces; a writable entry is not executable, does not map the
      zero page and is the only entry of its frame; free frames are zero and mapped by nothing. */
  lemma RefcountLaw(p: Pool, tables: map<TableKey, Frame>, owner: map<Frame, TableKey>, pte: map<Key, Pte>)
    requires Accounted(p, tables, owner, pte, {})
    ensures forall f :: f in p.frames && f != p.zero ==> f in p.refs && p.refs[f] == |Refs(pte, f)|
    ensures forall k :: k in pte && pte[k].write ==> pte[k].nx && pte[k].frame != p.zero
    ensures forall k, j :: k in pte && j in pte && pte[k].write && pte[j].frame == pte[k].frame ==> j == k
    ensures forall f :: f in p.free ==> f in p.bytes && p.bytes[f] == ZERO && Refs(pte, f) == {}
  {
    forall k, j | k in pte && j in pte && pte[k].write && pte[j].frame == pte[k].frame ensures j == k {
      assert Held(p, pte[k]);
      SoleRef(pte, k, j);
    }
    forall f | f in p.free ensures Refs(pte, f) == {} {
      assert p.refs[f] == 0;
    }
  }
}
