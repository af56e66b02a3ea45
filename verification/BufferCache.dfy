/** The 64-slot buffer cache (kernel/fs/minix/buffer.c), critical section by critical section, and
    its refinement of a plain array of blocks. */
module BufferCache {
  import opened Base
  import opened MinixBlocks

  const SLOTS: nat := 64
  const DIRTY_LIMIT: nat := 48

  datatype Key = Key(dev: nat, block: nat)

  datatype Slot = Slot(key: Option<Key>, refs: nat, dirty: bool, valid: bool, loading: bool, lru: nat, data: Block)
  {
    /** The slot answers for a key. */
    predicate Live() {
      valid || loading
    }

    /** The slot may be reused. */
    predicate Evictable() {
      !loading && refs == 0 && !dirty
    }
  }

  ghost predicate SlotOk(s: Slot) {
    && (s.Live() ==> s.key.Some?)
    && (s.loading ==> !s.valid && !s.dirty && s.refs == 1)
    && (s.dirty ==> s.valid)
    && (!s.Live() ==> s.refs == 0)
  }

  /** No two live slots answer for the same key. */
  ghost predicate Unique(slots: seq<Slot>) {
    forall i, j :: 0 <= i < j < |slots| && slots[i].Live() && slots[j].Live() ==> slots[i].key != slots[j].key
  }

  ghost function DirtyCount(slots: seq<Slot>): nat {
    if slots == [] then 0 else DirtyCount(slots[1..]) + if slots[0].dirty then 1 else 0
  }

  lemma {:induction false} DirtyUpdate(slots: seq<Slot>, i: nat, s: Slot)
    requires i < |slots|
    ensures DirtyCount(slots[i := s]) == DirtyCount(slots) + (if s.dirty then 1 else 0) - (if slots[i].dirty then 1
              else 0)
  {
    if i > 0 {
      assert slots[i := s][1..] == slots[1..][i - 1 := s];
      DirtyUpdate(slots[1..], i - 1, s);
    } else {
      assert slots[i := s][1..] == slots[1..];
    }
  }

  lemma {:induction false} DirtyNone(slots: seq<Slot>)
    ensures DirtyCount(slots) == 0 <==> forall i :: 0 <= i < |slots| ==> !slots[i].dirty
  {
    if slots != [] {
      DirtyNone(slots[1..]);
      if forall i :: 0 <= i < |slots| ==> !slots[i].dirty {
        forall i | 0 <= i < |slots[1..]| ensures !slots[1..][i].dirty {
          assert slots[1..][i] == slots[i + 1];
        }
      }
      if DirtyCount(slots) == 0 {
        forall i | 0 <= i < |slots| ensures !slots[i].dirty {
          assert i > 0 ==> slots[i] == slots[1..][i - 1];
        }
      }
    }
  }

  ghost predicate CacheOk(slots: seq<Slot>, dirtyCount: nat) {
    && |slots| == SLOTS
    && (forall i :: 0 <= i < |slots| ==> SlotOk(slots[i]))
    && Unique(slots)
    && dirtyCount == DirtyCount(slots)
  }

  /** Replacing slot `i` keeps the invariant when its key, if any, is not in use elsewhere. */
  lemma UpdateOk(slots: seq<Slot>, count: nat, i: nat, s: Slot, count': int)
    requires CacheOk(slots, count) && i < |slots| && SlotOk(s)
    requires s.Live() ==> forall j :: 0 <= j < |slots| && j != i && slots[j].Live() ==> slots[j].key != s.key
    requires count' == count + (if s.dirty then 1 else 0) - (if slots[i].dirty then 1 else 0)
    ensures count' >= 0 && CacheOk(slots[i := s], count')
  {
    DirtyUpdate(slots, i, s);
  }

  /** The same with the key unchanged and no slot coming alive. */
  lemma KeepOk(slots: seq<Slot>, count: nat, i: nat, s: Slot, count': int)
    requires CacheOk(slots, count) && i < |slots| && SlotOk(s) && s.key == slots[i].key
    requires (s.Live() ==> slots[i].Live())
    requires count' == count + (if s.dirty then 1 else 0) - (if slots[i].dirty then 1 else 0)
    ensures count' >= 0 && CacheOk(slots[i := s], count')
  {
    hide SlotOk, DirtyCount;
    UpdateOk(slots, count, i, s, count');
  }

  // ------------------------------------------------------------------------
  // Choosing a slot
  // ------------------------------------------------------------------------

  predicate Idle(s: Slot) {
    !s.loading && !s.valid && s.refs == 0
  }

  /** The slot a miss takes: the first idle one, else the least recently used evictable one. */
  ghost predicate Victim(slots: seq<Slot>, i: nat) {
    && i < |slots| && slots[i].Evictable()
    && (Idle(slots[i]) ==> forall j :: 0 <= j < i ==> !Idle(slots[j]))
    && (!Idle(slots[i]) ==> forall j :: 0 <= j < |slots| ==> !Idle(slots[j]))
    && (!Idle(slots[i]) ==> forall j :: 0 <= j < |slots| && slots[j].Evictable() ==> slots[i].lru <= slots[j].lru)
  }

  /** `bufcache_pick_victim`. */
  method PickVictim(slots: seq<Slot>) returns (r: Option<nat>)
    requires forall i :: 0 <= i < |slots| ==> SlotOk(slots[i])
    ensures r.None? ==> forall i :: 0 <= i < |slots| ==> !slots[i].Evictable()
    ensures r.Some? ==> Victim(slots, r.value)
  {
    r := None;
    var i := 0;
    while i < |slots|
      invariant 0 <= i <= |slots|
      invariant forall j :: 0 <= j < i ==> !Idle(slots[j])
      invariant r.None? ==> forall j :: 0 <= j < i ==> !slots[j].Evictable()
      invariant r.Some? ==> r.value < i && slots[r.value].Evictable() && !Idle(slots[r.value])
      invariant r.Some? ==> forall j :: 0 <= j < i && slots[j].Evictable() ==> slots[r.value].lru <= slots[j].lru
    {
      if slots[i].loading {
      } else if !slots[i].valid && slots[i].refs == 0 {
        return Some(i);
      } else if slots[i].refs != 0 || slots[i].dirty {
      } else if r.None? || slots[i].lru < slots[r.value].lru {
        r := Some(i);
      }
      i := i + 1;
    }
  }

  /** What a look-up finds. */
  datatype Found = Hit(i: nat) | Wait | Miss(i: nat) | Full

  predicate Answers(s: Slot, k: Key) {
    s.Live() && s.key == Some(k)
  }

  // ------------------------------------------------------------------------
  // Interleaved critical sections
  // ------------------------------------------------------------------------

  datatype Step =
    | Find(k: Key)
    | Fill(i: nat, data: Option<Block>)
    | Release(i: nat)
    | Mark(i: nat)
    | Pin(i: nat, dev: Option<nat>)
    | Unpin(i: nat, ok: bool)

  /** Valid slots that were referenced or dirty still hold their block. */
  ghost predicate Pinned(before: seq<Slot>, after: seq<Slot>) {
    && |after| == |before|
    && forall i :: 0 <= i < |before| && before[i].valid && (before[i].refs > 0 || before[i].dirty) ==>
         after[i].valid && after[i].key == before[i].key && after[i].data == before[i].data
  }

  /** Pinned and dirty slots stay from state to state. */
  ghost predicate Kept(trace: seq<seq<Slot>>) {
    forall j :: 0 <= j < |trace| - 1 ==> Pinned(trace[j], trace[j + 1])
  }

  /** A slot that is pinned or dirty all the way holds the same bytes of the same block at the end. */
  lemma {:induction false} KeptThroughout(trace: seq<seq<Slot>>, i: nat)
    requires trace != [] && Kept(trace) && forall t :: t in trace ==> i < |t|
    requires trace[0][i].valid
    requires forall j :: 0 <= j < |trace| - 1 ==> trace[j][i].refs > 0 || trace[j][i].dirty
    ensures var s, s' := trace[0][i], trace[|trace| - 1][i]; s'.valid && s'.key == s.key && s'.data == s.data
  {
    if |trace| > 1 {
      var n := |trace| - 1;
      assert trace[..n][|trace[..n]| - 1] == trace[n - 1];
      KeptThroughout(trace[..n], i);
      assert Pinned(trace[n - 1], trace[n - 1 + 1]);
    }
  }

  // ------------------------------------------------------------------------
  // The cache as an array of blocks
  // ------------------------------------------------------------------------

  predicate Holds(s: Slot, k: Key) {
    s.valid && s.key == Some(k)
  }

  /** Between operations nothing is loading, and a slot agrees with the disk unless it is dirty or
      its holder is changing it. */
  ghost predicate Coherent(slots: seq<Slot>, disk: map<Key, Block>, touched: set<nat>) {
    && (forall i :: i in touched ==> i < |slots| && slots[i].valid && slots[i].refs > 0)
    && (forall i :: 0 <= i < |slots| ==> SlotCoherent(slots[i], disk, i in touched))
  }

  ghost predicate SlotCoherent(s: Slot, disk: map<Key, Block>, changing: bool) {
    && !s.loading
    && (s.valid ==> s.key.Some? && s.key.value in disk)
    && (s.valid && !s.dirty && !changing ==> s.data == disk[s.key.value])
  }

  /** The bytes of block `k` as the cache's users see them. */
  ghost function Seen(slots: seq<Slot>, disk: map<Key, Block>, k: Key): Block
    requires k in disk
  {
    if exists i :: 0 <= i < |slots| && Holds(slots[i], k) then
      var i :| 0 <= i < |slots| && Holds(slots[i], k); slots[i].data
    else disk[k]
  }

  ghost function Contents(slots: seq<Slot>, disk: map<Key, Block>): map<Key, Block> {
    map k | k in disk :: Seen(slots, disk, k)
  }

  lemma SeenAt(slots: seq<Slot>, disk: map<Key, Block>, k: Key, i: nat)
    requires Unique(slots) && k in disk && i < |slots| && Holds(slots[i], k)
    ensures Seen(slots, disk, k) == slots[i].data
  {
    forall j | 0 <= j < |slots| && Holds(slots[j], k) ensures j == i {
      assert slots[i].Live() && slots[j].Live();
    }
  }

  /** Changing slot `i` without changing what its block reads as. */
  lemma SameSeen(slots: seq<Slot>, slots': seq<Slot>, disk: map<Key, Block>, i: nat, k: Key)
    requires Unique(slots) && Unique(slots') && i < |slots| && |slots'| == |slots| && slots' == slots[i := slots'[i]]
    requires k in disk
    requires Holds(slots[i], k) && Holds(slots'[i], k) ==> slots'[i].data == slots[i].data
    requires Holds(slots[i], k) && !Holds(slots'[i], k) ==> slots[i].data == disk[k]
    requires !Holds(slots[i], k) && Holds(slots'[i], k) ==>
      slots'[i].data == disk[k] && forall j :: 0 <= j < |slots| ==> !Holds(slots[j], k)
    ensures Seen(slots', disk, k) == Seen(slots, disk, k)
  {
    hide Unique;
    if j :| 0 <= j < |slots| && Holds(slots[j], k) {
      SeenAt(slots, disk, k, j);
      if Holds(slots'[j], k) {
        SeenAt(slots', disk, k, j);
      } else {
        Alone(slots, i, k);
        assert forall n :: 0 <= n < |slots'| ==> !Holds(slots'[n], k);
      }
    } else if Holds(slots'[i], k) {
      SeenAt(slots', disk, k, i);
    } else {
      assert forall n :: 0 <= n < |slots'| ==> !Holds(slots'[n], k);
    }
  }

  lemma Alone(slots: seq<Slot>, i: nat, k: Key)
    requires Unique(slots) && i < |slots| && Holds(slots[i], k)
    ensures forall j :: 0 <= j < |slots| && j != i ==> !Holds(slots[j], k)
  {
    forall j | 0 <= j < |slots| && j != i ensures !Holds(slots[j], k) {
      assert slots[i].Live();
      assert Holds(slots[j], k) ==> slots[j].Live();
    }
  }

  lemma SameContents(slots: seq<Slot>, slots': seq<Slot>, disk: map<Key, Block>, i: nat)
    requires Unique(slots) && Unique(slots') && i < |slots| && |slots'| == |slots| && slots' == slots[i := slots'[i]]
    requires forall k :: k in disk && Holds(slots[i], k) && Holds(slots'[i], k) ==> slots'[i].data == slots[i].data
    requires forall k :: k in disk && Holds(slots[i], k) && !Holds(slots'[i], k) ==> slots[i].data == disk[k]
    requires forall k :: k in disk && !Holds(slots[i], k) && Holds(slots'[i], k) ==>
      slots'[i].data == disk[k] && forall j :: 0 <= j < |slots| ==> !Holds(slots[j], k)
    ensures Contents(slots', disk) == Contents(slots, disk)
  {
    hide Unique, Seen;
    forall k | k in disk ensures Seen(slots', disk, k) == Seen(slots, disk, k) {
      SameSeen(slots, slots', disk, i, k);
    }
  }

  predicate ToWrite(s: Slot, dev: Option<nat>) {
    s.valid && s.dirty && (dev.None? || (s.key.Some? && s.key.value.dev == dev.value))
  }

  lemma DirtyCounted(slots: seq<Slot>, count: nat, i: nat)
    requires CacheOk(slots, count) && i < |slots| && slots[i].dirty
    ensures count > 0
  {
    DirtyNone(slots);
  }

  lemma ContentsKeys(slots: seq<Slot>, disk: map<Key, Block>)
    ensures Contents(slots, disk).Keys == disk.Keys
  {
  }

  /** After a successful sync the disk holds what is read. */
  lemma Synced(slots: seq<Slot>, disk: map<Key, Block>, touched: set<nat>, dev: Option<nat>, k: Key)
    requires Unique(slots) && Coherent(slots, disk, touched) && touched == {} && k in disk
    requires forall i :: 0 <= i < |slots| ==> !ToWrite(slots[i], dev)
    requires dev.None? || k.dev == dev.value
    ensures disk[k] == Contents(slots, disk)[k]
  {
    if i :| 0 <= i < |slots| && Holds(slots[i], k) {
      assert SlotCoherent(slots[i], disk, i in touched) && !ToWrite(slots[i], dev);
      SeenAt(slots, disk, k, i);
    }
  }

  /** A slot as the invalidation leaves it. */
  ghost function Drop(s: Slot): Slot {
    if s.refs != 0 || s.loading then s else s.(valid := false, dirty := false, key := None)
  }

  ghost function Dropped(slots: seq<Slot>, n: nat): (r: seq<Slot>)
    ensures |r| == |slots|
    ensures forall i :: 0 <= i < |slots| ==> r[i] == if i < n then Drop(slots[i]) else slots[i]
  {
    seq(|slots|, i requires 0 <= i < |slots| => if i < n then Drop(slots[i]) else slots[i])
  }

  /** The block is in a dirty slot nobody refers to. */
  predicate Lost(slots: seq<Slot>, k: Key) {
    exists i :: 0 <= i < |slots| && Holds(slots[i], k) && slots[i].dirty && slots[i].refs == 0
  }

  lemma DropOk(slots: seq<Slot>, disk: map<Key, Block>, touched: set<nat>, count: nat, i: nat, count': int)
    requires CacheOk(slots, count) && Coherent(slots, disk, touched) && i < |slots| && slots[i].refs == 0
    requires !slots[i].loading
    requires count' == count - if slots[i].valid && slots[i].dirty then 1 else 0
    ensures count' >= 0 && CacheOk(slots[i := Drop(slots[i])], count')
    ensures Coherent(slots[i := Drop(slots[i])], disk, touched)
  {
    var s' := slots[i := Drop(slots[i])];
    assert SlotOk(slots[i]);
    UpdateOk(slots, count, i, Drop(slots[i]), count');
    hide CacheOk;
    forall j | 0 <= j < |s'| ensures SlotCoherent(s'[j], disk, j in touched) {
      assert SlotCoherent(slots[j], disk, j in touched);
    }
  }

  lemma DroppedSeen(s0: seq<Slot>, disk: map<Key, Block>, touched: set<nat>, k: Key)
    requires Unique(s0) && Unique(Dropped(s0, |s0|)) && Coherent(s0, disk, touched) && k in disk
    ensures Seen(Dropped(s0, |s0|), disk, k) == if Lost(s0, k) then disk[k] else Seen(s0, disk, k)
  {
    hide Unique, Dropped;
    var s1 := Dropped(s0, |s0|);
    if i :| 0 <= i < |s0| && Holds(s0[i], k) {
      Alone(s0, i, k);
      assert SlotCoherent(s0[i], disk, i in touched);
      SeenAt(s0, disk, k, i);
      if s0[i].refs != 0 {
        SeenAt(s1, disk, k, i);
      }
    }
  }

  /** Slots differ at most in having become clean. */
  ghost predicate CleanedOnly(before: seq<Slot>, after: seq<Slot>) {
    && |after| == |before|
    && forall i :: 0 <= i < |before| ==> after[i] == before[i].(dirty := after[i].dirty)
  }

  /** Changes of reference count, age or dirtiness change nothing that is read. */
  lemma Relabel(s0: seq<Slot>, s1: seq<Slot>, disk: map<Key, Block>, touched: set<nat>, i: nat)
    requires Unique(s0) && Unique(s1) && Coherent(s0, disk, touched) && i < |s0| && |s1| == |s0| && s1 == s0[i := s1[i]]
    requires s1[i] == s0[i].(refs := s1[i].refs) && (i in touched ==> s1[i].refs > 0)
    ensures Coherent(s1, disk, touched) && Contents(s1, disk) == Contents(s0, disk)
  {
    hide Unique, Seen;
    forall j | 0 <= j < |s1| ensures SlotCoherent(s1[j], disk, j in touched) {
      assert SlotCoherent(s0[j], disk, j in touched);
    }
    forall k | k in disk ensures Seen(s1, disk, k) == Seen(s0, disk, k) {
      SeenFrame(s0, disk, s1, disk, k);
    }
  }

  lemma MarkView(s0: seq<Slot>, s1: seq<Slot>, disk: map<Key, Block>, touched: set<nat>, i: nat)
    requires Unique(s0) && Unique(s1) && Coherent(s0, disk, touched) && i < |s0| && |s1| == |s0|
    requires s1 == s0[i := s0[i].(dirty := true)]
    ensures Coherent(s1, disk, touched - {i}) && Contents(s1, disk) == Contents(s0, disk)
  {
    hide Unique, Seen;
    forall j | 0 <= j < |s1| ensures SlotCoherent(s1[j], disk, j in touched - {i}) {
      assert SlotCoherent(s0[j], disk, j in touched);
    }
    forall k | k in disk ensures Seen(s1, disk, k) == Seen(s0, disk, k) {
      SeenFrame(s0, disk, s1, disk, k);
    }
  }

  /** Writing a dirty slot back changes the disk to what is read already. */
  lemma SyncView(s0: seq<Slot>, s1: seq<Slot>, disk0: map<Key, Block>, disk1: map<Key, Block>, touched: set<nat>,
                 i: nat, ok: bool)
    requires Unique(s0) && Unique(s1) && Coherent(s0, disk0, touched) && i < |s0| && |s1| == |s0|
    requires s0[i].valid && s0[i].key.Some? && s1 == s0[i := s0[i].(dirty := s0[i].dirty && !ok)]
    requires disk1 == if ok then disk0[s0[i].key.value := s0[i].data] else disk0
    ensures Coherent(s1, disk1, touched) && Contents(s1, disk1) == Contents(s0, disk0)
  {
    hide Unique, Seen;
    var key := s0[i].key.value;
    assert SlotCoherent(s0[i], disk0, i in touched);
    Alone(s0, i, key);
    forall j | 0 <= j < |s1| ensures SlotCoherent(s1[j], disk1, j in touched) {
      assert SlotCoherent(s0[j], disk0, j in touched);
      assert j != i ==> !Holds(s0[j], key);
    }
    forall k | k in disk1 ensures Seen(s1, disk1, k) == Seen(s0, disk0, k) {
      if k == key {
        SeenAt(s0, disk0, k, i);
        SeenAt(s1, disk1, k, i);
      } else {
        SeenFrame(s0, disk0, s1, disk1, k);
      }
    }
  }

  lemma KeepOkHere(slots: seq<Slot>, count: nat, i: nat, data: Block)
    requires CacheOk(slots, count) && i < |slots|
    ensures CacheOk(slots[i := slots[i].(data := data)], count)
  {
    KeepOk(slots, count, i, slots[i].(data := data), count);
  }

  /** What block `k` reads as depends only on the slots that hold it and the disk. */
  lemma SeenFrame(s0: seq<Slot>, disk0: map<Key, Block>, s1: seq<Slot>, disk1: map<Key, Block>, k: Key)
    requires Unique(s0) && Unique(s1) && |s1| == |s0| && k in disk0 && k in disk1 && disk1[k] == disk0[k]
    requires forall j :: 0 <= j < |s0| ==>
              (Holds(s1[j], k) <==> Holds(s0[j], k)) && (Holds(s0[j], k) ==> s1[j].data == s0[j].data)
    ensures Seen(s1, disk1, k) == Seen(s0, disk0, k)
  {
    hide Unique;
    if j :| 0 <= j < |s0| && Holds(s0[j], k) {
      SeenAt(s0, disk0, k, j);
      SeenAt(s1, disk1, k, j);
    } else {
      assert forall n :: 0 <= n < |s1| ==> !Holds(s1[n], k);
    }
  }

  lemma StoreView(s0: seq<Slot>, s1: seq<Slot>, disk: map<Key, Block>, touched: set<nat>, i: nat)
    requires Unique(s0) && Unique(s1) && i < |s0| && s0[i].valid && s0[i].refs > 0 && Coherent(s0, disk, touched)
    requires |s1| == |s0| && s1 == s0[i := s0[i].(data := s1[i].data)]
    ensures Coherent(s1, disk, touched + {i})
    ensures s0[i].key.Some? && Contents(s1, disk) == Contents(s0, disk)[s0[i].key.value := s1[i].data]
  {
    hide Unique, Seen;
    forall j | 0 <= j < |s1| ensures SlotCoherent(s1[j], disk, j in touched + {i}) {
      assert SlotCoherent(s0[j], disk, j in touched);
    }
    var key := s0[i].key.value;
    forall k | k in disk ensures Seen(s1, disk, k) == if k == key then s1[i].data else Seen(s0, disk, k) {
      if k == key {
        SeenAt(s1, disk, k, i);
      } else {
        SeenFrame(s0, disk, s1, disk, k);
      }
    }
  }

  /** A block not in the cache that cannot be brought in. */
  ghost predicate Refused(slots: seq<Slot>, disk: map<Key, Block>, k: Key, fails: bool) {
    && (forall i :: 0 <= i < |slots| ==> !Holds(slots[i], k))
    && (fails || k !in disk || forall i :: 0 <= i < |slots| ==> !slots[i].Evictable())
  }

  /** Slot `i` is referenced and holds block `k`. */
  ghost predicate Held(slots: seq<Slot>, disk: map<Key, Block>, i: nat, k: Key) {
    i < |slots| && Holds(slots[i], k) && slots[i].refs > 0 && k in disk
  }

  /** Reference counts are as before, but for one more on slot `i`. */
  ghost predicate Counted(before: seq<Slot>, after: seq<Slot>, i: Option<nat>) {
    && |after| == |before|
    && forall j :: 0 <= j < |before| ==> after[j].refs == before[j].refs + if i == Some(j) then 1 else 0
  }

  /** References to slots outside `but` are as before, and referenced slots keep their block. */
  ghost predicate SameRefs(before: seq<Slot>, after: seq<Slot>, but: set<nat>) {
    && |after| == |before|
    && forall i :: 0 <= i < |before| && before[i].refs > 0 ==>
         && after[i].key == before[i].key && after[i].valid == before[i].valid && after[i].data == before[i].data
         && (i !in but ==> after[i].refs == before[i].refs)
  }

  lemma HitView(s0: seq<Slot>, s1: seq<Slot>, disk: map<Key, Block>, touched: set<nat>, i: nat, k: Key)
    requires Unique(s0) && Unique(s1) && Coherent(s0, disk, touched) && i < |s0| && s0[i].valid && s0[i].key == Some(k)
    requires |s1| == |s0| && s1 == s0[i := s1[i]] && s1[i].refs > 0
    requires s1[i] == s0[i].(refs := s1[i].refs, lru := s1[i].lru)
    ensures Coherent(s1, disk, touched) && Contents(s1, disk) == Contents(s0, disk)
    ensures k in disk && s1[i].data == Contents(s1, disk)[k]
  {
    hide Unique, Seen;
    assert SlotCoherent(s0[i], disk, i in touched);
    SameContents(s0, s1, disk, i);
    SeenAt(s1, disk, k, i);
    forall j | 0 <= j < |s1| ensures SlotCoherent(s1[j], disk, j in touched) {
      assert SlotCoherent(s0[j], disk, j in touched);
    }
  }

  /** The victim was clean, so its block still reads the same from disk. */
  lemma MissView(s0: seq<Slot>, s1: seq<Slot>, disk: map<Key, Block>, touched: set<nat>, i: nat, k: Key)
    requires Unique(s0) && Unique(s1) && Coherent(s0, disk, touched) && i < |s0| && s0[i].Evictable()
    requires forall j :: 0 <= j < |s0| ==> !Answers(s0[j], k)
    requires |s1| == |s0| && s1 == s0[i := s1[i]] && !s1[i].loading && s1[i].key == Some(k)
    requires s1[i].valid ==> k in disk && s1[i].data == disk[k] && !s1[i].dirty
    ensures Coherent(s1, disk, touched) && Contents(s1, disk) == Contents(s0, disk)
    ensures s1[i].valid ==> s1[i].data == Contents(s1, disk)[k]
  {
    hide Unique, Seen;
    assert SlotCoherent(s0[i], disk, i in touched);
    assert i !in touched;
    assert forall j :: 0 <= j < |s0| ==> !Holds(s0[j], k) by {
      assert forall j :: 0 <= j < |s0| ==> !Answers(s0[j], k);
    }
    SameContents(s0, s1, disk, i);
    if s1[i].valid {
      SeenAt(s1, disk, k, i);
    }
    forall j | 0 <= j < |s1| ensures SlotCoherent(s1[j], disk, j in touched) {
      assert SlotCoherent(s0[j], disk, j in touched);
    }
  }

  // ------------------------------------------------------------------------
  // Runs of calls
  // ------------------------------------------------------------------------

  /** A call, or what a holder does with its buffer: look at the bytes or change them. */
  datatype CacheOp =
    | GetOp(k: Key, fails: bool)
    | LookOp(i: nat)
    | StoreOp(i: nat, data: Block)
    | MarkOp(i: nat, bad: set<Key>)
    | PutOp(i: nat)
    | SyncOp(dev: Option<nat>, bad: set<Key>)
    | FlushOp(bad: set<Key>)

  /** What came back.  Fell gives the blocks that a failed flush threw back to their old bytes. */
  datatype Out = Got(i: nat) | Nothing | Saw(data: Block) | Finished(err: Err) | Fell(blocks: map<Key, Block>)

  /** The reference: a plain array of blocks, and which handles are held for which block. */
  datatype Array = Array(blocks: map<Key, Block>, who: map<nat, Key>, held: multiset<nat>, changed: set<nat>)

  ghost function Apply(a: Array, op: CacheOp, out: Out): Array {
    match (op, out)
    case (GetOp(k, _), Got(i)) => a.(who := a.who[i := k], held := a.held + multiset{i})
    case (StoreOp(i, data), Finished(_)) =>
      if i in a.who then a.(blocks := a.blocks[a.who[i] := data], changed := a.changed + {i}) else a
    case (MarkOp(i, _), Finished(_)) => a.(changed := a.changed - {i})
    case (PutOp(i), Finished(_)) => a.(held := a.held - multiset{i})
    case (FlushOp(_), Fell(blocks)) => a.(blocks := a.blocks + blocks)
    case _ => a
  }

  /** What an outcome must be; `full` says that every slot is pinned or dirty.  A holder acts only
      while it holds the buffer, and gives it back only after marking its changes. */
  ghost predicate Sound(a: Array, op: CacheOp, full: bool, out: Out) {
    match op
    case GetOp(k, fails) =>
      || (out.Got? && k in a.blocks && (out.i in a.held ==> out.i in a.who && a.who[out.i] == k))
      || (out == Nothing && (fails || k !in a.blocks || full) && forall i :: i in a.held && i in a.who ==>
          a.who[i] != k)
    case LookOp(i) =>
      if i in a.held then i in a.who && a.who[i] in a.blocks && out == Saw(a.blocks[a.who[i]]) else out == Nothing
    case StoreOp(i, _) => out == if i in a.held then Finished(Ok) else Nothing
    case MarkOp(i, _) => out == if i in a.held then Finished(Ok) else Nothing
    case PutOp(i) => out == if i in a.held && i !in a.changed then Finished(Ok) else Nothing
    case SyncOp(_, bad) => out == Finished(Ok) || (out == Finished(EIO) && bad != {})
    case FlushOp(bad) =>
      && out.Fell? && out.blocks.Keys <= a.blocks.Keys && (out.blocks != map[] ==> bad != {})
      && forall i :: i in a.held && i in a.who ==> a.who[i] !in out.blocks
  }

  ghost function Replay(a: Array, ops: seq<CacheOp>, outs: seq<Out>): Array
    requires |outs| == |ops|
  {
    if ops == [] then a
    else
      var n := |ops| - 1;
      Apply(Replay(a, ops[..n], outs[..n]), ops[n], outs[n])
  }

  /** Each outcome is sound; `trace` has the slots before each call. */
  ghost predicate AllSound(a: Array, ops: seq<CacheOp>, trace: seq<seq<Slot>>, outs: seq<Out>)
    requires |ops| == |outs| <= |trace|
  {
    forall j :: 0 <= j < |ops| ==> Sound(Replay(a, ops[..j], outs[..j]), ops[j], FullUp(trace[j]), outs[j])
  }

  lemma ReplayNext(a: Array, ops: seq<CacheOp>, trace: seq<seq<Slot>>, outs: seq<Out>, op: CacheOp, out: Out,
                   s: seq<Slot>)
    requires |ops| == |outs| == |trace| - 1 && AllSound(a, ops, trace, outs)
    requires Sound(Replay(a, ops, outs), op, FullUp(trace[|ops|]), out)
    ensures Replay(a, ops + [op], outs + [out]) == Apply(Replay(a, ops, outs), op, out)
    ensures AllSound(a, ops + [op], trace + [s], outs + [out])
  {
    hide Sound, Apply, FullUp;
    assert (ops + [op])[..|ops|] == ops && (outs + [out])[..|ops|] == outs;
    forall i | 0 <= i < |ops| ensures (ops + [op])[..i] == ops[..i] && (outs + [out])[..i] == outs[..i] {
    }
  }

  /** Nothing in the cache may be reused. */
  ghost predicate FullUp(slots: seq<Slot>) {
    forall i :: 0 <= i < |slots| ==> !slots[i].Evictable()
  }

  /** Handles are slots: held as often as they are referenced, for the block they hold. */
  ghost predicate Handles(slots: seq<Slot>, who: map<nat, Key>, held: multiset<nat>) {
    && (forall i :: 0 <= i < |slots| ==> slots[i].refs == held[i])
    && (forall i :: i in held ==> i < |slots| && i in who && slots[i].valid && slots[i].key == Some(who[i]))
  }

  lemma HandlesGot(s0: seq<Slot>, s1: seq<Slot>, who: map<nat, Key>, held: multiset<nat>, i: nat, k: Key)
    requires Handles(s0, who, held) && SameRefs(s0, s1, {i}) && Counted(s0, s1, Some(i)) && i < |s1| && Holds(s1[i], k)
    ensures Handles(s1, who[i := k], held + multiset{i}) && (i in held ==> who[i] == k)
  {
  }

  lemma HandlesWho(slots: seq<Slot>, who: map<nat, Key>, held: multiset<nat>)
    requires Handles(slots, who, held)
    ensures forall i :: i in held ==> i < |slots| && i in who
  {
  }

  lemma HandlesData(slots: seq<Slot>, who: map<nat, Key>, held: multiset<nat>, i: nat, data: Block)
    requires Handles(slots, who, held) && i in held
    ensures i < |slots| && i in who && slots[i].key == Some(who[i])
    ensures Handles(slots[i := slots[i].(data := data)], who, held)
  {
  }

  lemma HeldAt(slots: seq<Slot>, disk: map<Key, Block>, i: nat, k: Key)
    requires Held(slots, disk, i, k)
    ensures i < |slots| && Holds(slots[i], k) && k in disk
  {
  }

  lemma NoneSound(a: Array, s: seq<Slot>)
    ensures AllSound(a, [], [s], [])
  {
  }

  lemma HandlesSame(s0: seq<Slot>, s1: seq<Slot>, who: map<nat, Key>, held: multiset<nat>)
    requires Handles(s0, who, held) && SameRefs(s0, s1, {}) && Counted(s0, s1, None)
    ensures Handles(s1, who, held)
  {
  }

  lemma HandlesPut(s0: seq<Slot>, who: map<nat, Key>, held: multiset<nat>, i: nat)
    requires Handles(s0, who, held) && i in held
    ensures i < |s0| && s0[i].refs > 0
    ensures Handles(s0[i := s0[i].(refs := s0[i].refs - 1)], who, held - multiset{i})
  {
  }

  /** A held handle shows its block. */
  lemma HandleSees(slots: seq<Slot>, disk: map<Key, Block>, touched: set<nat>, who: map<nat, Key>,
                   held: multiset<nat>, i: nat)
    requires Handles(slots, who, held) && Unique(slots) && Coherent(slots, disk, touched) && i in held
    ensures i < |slots| && slots[i].valid && slots[i].refs > 0 && who[i] in Contents(slots, disk)
    ensures slots[i].data == Contents(slots, disk)[who[i]]
  {
    assert SlotCoherent(slots[i], disk, i in touched);
    SeenAt(slots, disk, who[i], i);
  }

  /** A refused block is held by nobody. */
  lemma RefusedUnheld(slots: seq<Slot>, disk: map<Key, Block>, who: map<nat, Key>, held: multiset<nat>, k: Key,
                      fails: bool)
    requires Handles(slots, who, held) && Refused(slots, disk, k, fails)
    ensures forall i :: i in held ==> who[i] != k
    ensures fails || k !in disk || FullUp(slots)
  {
    forall i | i in held ensures who[i] != k {
      assert !Holds(slots[i], k);
    }
  }

  /** A block that is lost is held by nobody. */
  lemma LostUnheld(slots: seq<Slot>, who: map<nat, Key>, held: multiset<nat>, i: nat)
    requires Handles(slots, who, held) && Unique(slots) && i in held
    ensures !Lost(slots, who[i])
  {
    if Lost(slots, who[i]) {
      var j :| 0 <= j < |slots| && Holds(slots[j], who[i]) && slots[j].dirty && slots[j].refs == 0;
      Alone(slots, i, who[i]);
    }
  }

  lemma CleanedRefs(before: seq<Slot>, after: seq<Slot>)
    requires CleanedOnly(before, after)
    ensures SameRefs(before, after, {}) && Counted(before, after, None)
  {
  }

  lemma DroppedRefs(before: seq<Slot>, after: seq<Slot>)
    requires CleanedOnly(before, after)
    ensures SameRefs(before, Dropped(after, |after|), {}) && Counted(before, Dropped(after, |after|), None)
  {
  }

  // ------------------------------------------------------------------------
  // The cache
  // ------------------------------------------------------------------------

  class Cache {
    var slots: seq<Slot>
    var dirtyCount: nat
    var clock: nat
    var hits: nat
    var misses: nat
    var disk: map<Key, Block>
    /** Slots whose holder changed the bytes and has not marked them dirty yet: what the callers
        know, not the cache. */
    var touched: set<nat>

    ghost predicate Inv()
      reads this
    {
      CacheOk(slots, dirtyCount)
    }

    /** The first critical section of `bufcache_get`. */
    method Lookup(k: Key) returns (r: Found)
      requires Inv()
      modifies this`slots, this`clock, this`hits, this`misses
      ensures Inv()
      ensures match r
        case Hit(i) =>
          && i < SLOTS && old(slots)[i].valid && old(slots)[i].key == Some(k)
          && slots == old(slots)[i := old(slots)[i].(refs := old(slots)[i].refs + 1, lru := clock)]
        case Wait => slots == old(slots) && exists i :: 0 <= i < SLOTS && slots[i].loading && slots[i].key == Some(k)
        case Miss(i) =>
          && Victim(old(slots), i) && (forall j :: 0 <= j < SLOTS ==> !Answers(old(slots)[j], k))
          && slots == old(slots)[i := Slot(Some(k), 1, false, false, true, clock, old(slots)[i].data)]
        case Full =>
          && slots == old(slots)
          && forall j :: 0 <= j < SLOTS ==> !Answers(slots[j], k) && !slots[j].Evictable()
    {
      hide Unique, DirtyCount;
      var i := 0;
      while i < SLOTS
        invariant 0 <= i <= SLOTS && slots == old(slots)
        invariant forall j :: 0 <= j < i ==> !Answers(slots[j], k)
      {
        if slots[i].key == Some(k) && (slots[i].valid || slots[i].loading) {
          if slots[i].loading {
            return Wait;
          }
          clock := clock + 1;
          hits := hits + 1;
          var s := slots[i].(refs := slots[i].refs + 1, lru := clock);
          KeepOk(slots, dirtyCount, i, s, dirtyCount);
          slots := slots[i := s];
          return Hit(i);
        }
        i := i + 1;
      }
      misses := misses + 1;
      var v := PickVictim(slots);
      if v.None? {
        return Full;
      }
      i := v.value;
      clock := clock + 1;
      var s := Slot(Some(k), 1, false, false, true, clock, slots[i].data);
      UpdateOk(slots, dirtyCount, i, s, dirtyCount);
      slots := slots[i := s];
      return Miss(i);
    }

    /** The end of `bufcache_get` after a miss: the block was read, or not. */
    method Loaded(i: nat, data: Option<Block>)
      requires Inv() && i < SLOTS && slots[i].loading
      modifies this`slots
      ensures Inv()
      ensures slots == old(slots)[i :=
        if data.Some? then old(slots)[i].(valid := true, loading := false, data := data.value)
        else old(slots)[i].(valid := false, loading := false, refs := 0)]
    {
      hide Unique, DirtyCount;
      var s := if data.Some? then slots[i].(valid := true, loading := false, data := data.value)
               else slots[i].(valid := false, loading := false, refs := 0);
      KeepOk(slots, dirtyCount, i, s, dirtyCount);
      slots := slots[i := s];
    }

    /** `bufcache_put`. */
    method Put(i: nat)
      requires Inv() && i < SLOTS && !slots[i].loading
      modifies this`slots
      ensures Inv()
      ensures slots == if old(slots)[i].refs == 0 then old(slots)
                else old(slots)[i := old(slots)[i].(refs := old(slots)[i].refs - 1)]
    {
      hide Unique, DirtyCount;
      if slots[i].refs == 0 {
        return;
      }
      var s := slots[i].(refs := slots[i].refs - 1);
      KeepOk(slots, dirtyCount, i, s, dirtyCount);
      slots := slots[i := s];
    }

    /** The closing critical section of `bufcache_mark_dirty`. */
    method SetDirty(i: nat)
      requires Inv() && i < SLOTS && slots[i].valid
      modifies this`slots, this`dirtyCount
      ensures Inv() && slots == old(slots)[i := old(slots)[i].(dirty := true)]
    {
      hide Unique, DirtyCount;
      var s := slots[i].(dirty := true);
      var count := if !slots[i].dirty then dirtyCount + 1 else dirtyCount;
      KeepOk(slots, dirtyCount, i, s, count);
      dirtyCount := count;
      slots := slots[i := s];
    }

    /** The opening critical section of one round of `bufcache_sync`: pins a slot to write. */
    method SyncPin(i: nat, dev: Option<nat>) returns (write: bool)
      requires Inv() && i < SLOTS
      modifies this`slots
      ensures Inv()
      ensures write <==> ToWrite(old(slots)[i], dev)
      ensures slots == if write then old(slots)[i := old(slots)[i].(refs := old(slots)[i].refs + 1)] else old(slots)
    {
      hide Unique, DirtyCount;
      write := ToWrite(slots[i], dev);
      if write {
        var s := slots[i].(refs := slots[i].refs + 1);
        KeepOk(slots, dirtyCount, i, s, dirtyCount);
        slots := slots[i := s];
      }
    }

    /** The closing critical section of that round. */
    method SyncDone(i: nat, ok: bool)
      requires Inv() && i < SLOTS && slots[i].valid && slots[i].refs > 0
      modifies this`slots, this`dirtyCount
      ensures Inv()
      ensures slots == old(slots)[i := old(slots)[i].(refs := old(slots)[i].refs - 1, dirty := old(slots)[i].dirty &&
                !ok)]
    {
      hide Unique, DirtyCount;
      var s, count := slots[i], dirtyCount;
      if ok {
        if s.dirty {
          DirtyCounted(slots, dirtyCount, i);
        }
        if s.dirty && count > 0 {
          count := count - 1;
        }
        s := s.(dirty := false);
      }
      s := s.(refs := s.refs - 1);
      KeepOk(slots, dirtyCount, i, s, count);
      dirtyCount := count;
      slots := slots[i := s];
    }

    /** One critical section of any thread, if the slot is in the state it expects. */
    method Do(step: Step)
      requires Inv()
      modifies this`slots, this`clock, this`hits, this`misses, this`dirtyCount
      ensures Inv() && Pinned(old(slots), slots)
    {
      match step {
        case Find(k) =>
          var _ := Lookup(k);
        case Fill(i, data) =>
          if i < SLOTS && slots[i].loading {
            Loaded(i, data);
          }
        case Release(i) =>
          if i < SLOTS && !slots[i].loading {
            Put(i);
          }
        case Mark(i) =>
          if i < SLOTS && slots[i].valid {
            SetDirty(i);
          }
        case Pin(i, dev) =>
          if i < SLOTS {
            var _ := SyncPin(i, dev);
          }
        case Unpin(i, ok) =>
          if i < SLOTS && slots[i].valid && slots[i].refs > 0 {
            SyncDone(i, ok);
          }
      }
    }

    /** Any interleaving of critical sections: live slots never share a key, the dirty counter is
        exact, and no step takes a pinned or dirty slot away. */
    method Run(steps: seq<Step>) returns (ghost trace: seq<seq<Slot>>)
      requires Inv()
      modifies this`slots, this`clock, this`hits, this`misses, this`dirtyCount
      ensures Inv() && |trace| == |steps| + 1 && trace[0] == old(slots) && trace[|steps|] == slots
      ensures Kept(trace)
      ensures forall t :: t in trace ==> |t| == SLOTS && Unique(t)
    {
      hide SlotOk, Unique, DirtyCount, Pinned;
      trace := [slots];
      var i := 0;
      while i < |steps|
        invariant 0 <= i <= |steps| && Inv() && |trace| == i + 1 && trace[0] == old(slots) && trace[i] == slots
        invariant Kept(trace) && forall t :: t in trace ==> |t| == SLOTS && Unique(t)
      {
        Do(steps[i]);
        trace := trace + [slots];
        i := i + 1;
      }
    }

    ghost predicate Good()
      reads this
    {
      Inv() && Coherent(slots, disk, touched)
    }

    ghost function View(): map<Key, Block>
      reads this
    {
      Contents(slots, disk)
    }

    /** `bufcache_get` with nothing else running; `fails` is an I/O error. */
    method Get(k: Key, fails: bool) returns (r: Option<nat>)
      requires Good()
      modifies this`slots, this`clock, this`hits, this`misses
      ensures Good() && View() == old(View())
      ensures r.Some? ==> Held(slots, disk, r.value, k) && slots[r.value].data == View()[k]
      ensures r.None? <==> Refused(old(slots), disk, k, fails)
      ensures SameRefs(old(slots), slots, if r.Some? then {r.value} else {}) && Counted(old(slots), slots, r)
    {
      hide Unique, DirtyCount, Seen, Contents, SlotOk;
      ghost var s0 := slots;
      var found := Lookup(k);
      match found {
        case Hit(i) =>
          HitView(s0, slots, disk, touched, i, k);
          r := Some(i);
        case Wait =>
          assert false;
        case Miss(i) =>
          var data := if fails || k !in disk then None else Some(disk[k]);
          Loaded(i, data);
          MissView(s0, slots, disk, touched, i, k);
          r := if data.Some? then Some(i) else None;
        case Full =>
          r := None;
      }
    }

    /** The holder of a buffer overwrites its bytes. */
    method Store(i: nat, data: Block)
      requires Good() && i < SLOTS && slots[i].valid && slots[i].refs > 0
      modifies this`slots, this`touched
      ensures Good() && slots == old(slots)[i := old(slots)[i].(data := data)] && touched == old(touched) + {i}
      ensures slots[i].key.Some? && View() == old(View())[slots[i].key.value := data]
    {
      hide Unique, DirtyCount, Seen, SlotOk;
      ghost var s0 := slots;
      KeepOkHere(s0, dirtyCount, i, data);
      slots := slots[i := slots[i].(data := data)];
      touched := touched + {i};
      StoreView(s0, slots, disk, old(touched), i);
    }

    /** `bufcache_put` by a holder that marked its changes. */
    method PutBack(i: nat)
      requires Good() && i < SLOTS && i !in touched
      modifies this`slots
      ensures Good() && View() == old(View())
      ensures slots == if old(slots)[i].refs == 0 then old(slots)
                else old(slots)[i := old(slots)[i].(refs := old(slots)[i].refs - 1)]
    {
      hide Unique, DirtyCount, Seen, SlotOk, Contents;
      ghost var s0 := slots;
      assert SlotCoherent(s0[i], disk, i in touched);
      Put(i);
      Relabel(s0, slots, disk, touched, i);
    }

    /** One round of `bufcache_sync`: writes slot `i` if it is dirty. */
    method SyncSlot(i: nat, dev: Option<nat>, bad: set<Key>) returns (ok: bool)
      requires Good() && i < SLOTS
      modifies this`slots, this`dirtyCount, this`disk
      ensures Good() && View() == old(View())
      ensures slots == old(slots)[i := old(slots)[i].(dirty := slots[i].dirty)]
      ensures ok ==> !ToWrite(slots[i], dev)
      ensures !ok ==> slots[i].key.Some? && slots[i].key.value in bad && slots == old(slots)
    {
      hide Unique, DirtyCount, Seen, SlotOk, Contents;
      ghost var s0, disk0 := slots, disk;
      assert SlotCoherent(s0[i], disk, i in touched);
      var write := SyncPin(i, dev);
      if !write {
        return true;
      }
      var k := slots[i].key.value;
      ok := k !in bad;
      if ok {
        disk := disk[k := slots[i].data];
      }
      SyncDone(i, ok);
      SyncView(s0, slots, disk0, disk, touched, i, ok);
    }

    /** `bufcache_sync` with nothing else running; writes of the blocks in `bad` fail. */
    method Sync(dev: Option<nat>, bad: set<Key>) returns (err: Err)
      requires Good()
      modifies this`slots, this`dirtyCount, this`disk
      ensures Good() && View() == old(View()) && CleanedOnly(old(slots), slots)
      ensures err == Ok ==> forall i :: 0 <= i < SLOTS ==> !ToWrite(slots[i], dev)
      ensures err == Ok && touched == {} ==>
        forall k :: k in disk && (dev.None? || k.dev == dev.value) ==> k in View() && disk[k] == View()[k]
      ensures err == Ok || err == EIO
      ensures err == EIO ==> exists i :: 0 <= i < SLOTS && slots[i].key.Some? && slots[i].key.value in bad
    {
      hide Unique, DirtyCount, Seen, SlotOk, Contents, Coherent;
      var i := 0;
      while i < SLOTS
        invariant 0 <= i <= SLOTS && Good() && View() == old(View()) && CleanedOnly(old(slots), slots)
        invariant forall j :: 0 <= j < i ==> !ToWrite(slots[j], dev)
      {
        var ok := SyncSlot(i, dev, bad);
        if !ok {
          return EIO;
        }
        i := i + 1;
      }
      err := Ok;
      if touched == {} {
        forall k | k in disk && (dev.None? || k.dev == dev.value) ensures k in View() && disk[k] == View()[k] {
          ContentsKeys(slots, disk);
          Synced(slots, disk, touched, dev, k);
        }
      }
    }

    /** `bufcache_mark_dirty`: at the limit, dirty buffers are written first. */
    method MarkDirty(i: nat, bad: set<Key>)
      requires Good() && i < SLOTS && slots[i].valid && slots[i].refs > 0
      modifies this`slots, this`dirtyCount, this`disk, this`touched
      ensures Good() && View() == old(View()) && touched == old(touched) - {i}
      ensures slots[i] == old(slots)[i].(dirty := true)
      ensures SameRefs(old(slots), slots, {}) && Counted(old(slots), slots, None)
    {
      hide Unique, DirtyCount, Seen, SlotOk, Contents;
      assert SlotCoherent(slots[i], disk, i in touched);
      if !slots[i].dirty && dirtyCount >= DIRTY_LIMIT {
        var _ := Sync(Some(slots[i].key.value.dev), bad);
      }
      ghost var s0 := slots;
      assert SlotCoherent(slots[i], disk, i in touched);
      SetDirty(i);
      touched := touched - {i};
      MarkView(s0, slots, disk, old(touched), i);
    }

    /** The invalidation loop of `bufcache_flush_all`. */
    method Invalidate()
      requires Good()
      modifies this`slots, this`dirtyCount
      ensures Good() && slots == Dropped(old(slots), |old(slots)|)
      ensures forall k :: k in disk ==> Seen(slots, disk, k) == if Lost(old(slots), k) then disk[k]
                else Seen(old(slots), disk, k)
    {
      hide Unique, DirtyCount, Seen, SlotOk, Contents, Coherent, SlotCoherent;
      var i := 0;
      ghost var s0 := slots;
      while i < SLOTS
        invariant 0 <= i <= SLOTS && Good() && |s0| == SLOTS
        invariant slots == Dropped(s0, i)
      {
        assert Dropped(s0, i)[i] == s0[i];
        if slots[i].refs != 0 || slots[i].loading {
          assert Dropped(s0, i + 1) == Dropped(s0, i);
        } else {
          ghost var before := slots;
          var count := dirtyCount;
          if slots[i].valid && slots[i].dirty {
            DirtyCounted(slots, dirtyCount, i);
            count := count - 1;
          }
          DropOk(slots, disk, touched, dirtyCount, i, count);
          dirtyCount := count;
          slots := slots[i := slots[i].(valid := false, dirty := false, key := None)];
          assert Dropped(s0, i + 1) == Dropped(s0, i)[i := Drop(s0[i])];
        }
        i := i + 1;
      }
      forall k | k in disk ensures Seen(slots, disk, k) == if Lost(s0, k) then disk[k] else Seen(s0, disk, k) {
        DroppedSeen(s0, disk, old(touched), k);
      }
    }

    /** `bufcache_flush_all`: nothing is lost when the sync before it succeeds; otherwise exactly
        the unreferenced slots still dirty are. */
    method FlushAll(bad: set<Key>) returns (err: Err, synced: seq<Slot>)
      requires Good()
      modifies this`slots, this`dirtyCount, this`disk
      ensures Good() && CleanedOnly(old(slots), synced) && Unique(synced)
      ensures err == Ok || (err == EIO && bad != {})
      ensures SameRefs(old(slots), slots, {}) && Counted(old(slots), slots, None)
      ensures View().Keys == old(View()).Keys
      ensures forall k :: k in disk ==> View()[k] == if Lost(synced, k) then disk[k] else old(View())[k]
      ensures err == Ok ==> View() == old(View())
    {
      hide Unique, DirtyCount, Seen, SlotOk, Coherent;
      err := Sync(None, bad);
      synced := slots;
      ghost var view := View();
      assert view == old(View());
      Invalidate();
      DroppedRefs(old(slots), synced);
    }

    /** Reading one block: get, copy, put. */
    method ReadBlock(k: Key, fails: bool) returns (r: Option<Block>)
      requires Good() && touched == {}
      modifies this`slots, this`clock, this`hits, this`misses
      ensures Good() && View() == old(View())
      ensures r.Some? ==> k in View() && r.value == View()[k]
      ensures r.None? <==> Refused(old(slots), old(disk), k, fails)
    {
      hide Unique, DirtyCount, Seen, SlotOk, Coherent;
      var i := Get(k, fails);
      if i.None? {
        return None;
      }
      r := Some(slots[i.value].data);
      PutBack(i.value);
    }

    /** Overwriting one block: get, change, mark dirty, put. */
    method WriteBlock(k: Key, data: Block, fails: bool, bad: set<Key>) returns (ok: bool)
      requires Good() && touched == {}
      modifies this
      ensures Good() && touched == {}
      ensures View() == if ok then old(View())[k := data] else old(View())
      ensures ok <==> !Refused(old(slots), old(disk), k, fails)
      ensures ok ==> k in old(View())
    {
      hide Unique, DirtyCount, Seen, SlotOk, Coherent;
      var i := Get(k, fails);
      if i.None? {
        return false;
      }
      Store(i.value, data);
      MarkDirty(i.value, bad);
      PutBack(i.value);
      ok := true;
    }

    /** The cache shows the reference array. */
    ghost predicate Shows(a: Array)
      reads this
    {
      a.blocks == View() && a.changed == touched && Handles(slots, a.who, a.held)
    }

    /** A slot is held exactly when it is referenced, and shows its block. */
    lemma Referenced(i: nat, a: Array)
      requires Good() && Shows(a)
      ensures |slots| == SLOTS && (i in a.held <==> i < |slots| && slots[i].refs > 0)
      ensures i in a.held ==> i in a.who && slots[i].valid
      ensures i in a.held ==> a.who[i] in a.blocks && slots[i].data == a.blocks[a.who[i]]
    {
      hide Coherent, Contents, Unique, DirtyCount, SlotOk;
      if i in a.held {
        HandleSees(slots, disk, touched, a.who, a.held, i);
      }
    }

    /** One call of a sequential run. */
    method Act(op: CacheOp, ghost a: Array) returns (out: Out)
      requires Good() && Shows(a)
      modifies this
      ensures Good() && Shows(Apply(a, op, out)) && Sound(a, op, old(FullUp(slots)), out)
    {
      hide Good, Shows, Apply, Sound, FullUp;
      match op
      case GetOp(_, _) => out := DoGet(op, a);
      case SyncOp(_, _) => out := DoSync(op, a);
      case FlushOp(_) => out := DoFlush(op, a);
      case _ => out := DoHolder(op, a);
    }

    method DoGet(op: CacheOp, ghost a: Array) returns (out: Out)
      requires Good() && Shows(a) && op.GetOp?
      modifies this`slots, this`clock, this`hits, this`misses
      ensures Good() && Shows(Apply(a, op, out)) && Sound(a, op, old(FullUp(slots)), out)
    {
      hide Inv, Coherent, Contents, Handles, Refused, SameRefs, Counted, FullUp, Held;
      ghost var s0 := slots;
      var r := Get(op.k, op.fails);
      ContentsKeys(slots, disk);
      if r.None? {
        RefusedUnheld(s0, disk, a.who, a.held, op.k, op.fails);
        HandlesSame(s0, slots, a.who, a.held);
        return Nothing;
      }
      HeldAt(slots, disk, r.value, op.k);
      HandlesGot(s0, slots, a.who, a.held, r.value, op.k);
      HandlesWho(s0, a.who, a.held);
      out := Got(r.value);
    }

    method DoSync(op: CacheOp, ghost a: Array) returns (out: Out)
      requires Good() && Shows(a) && op.SyncOp?
      modifies this`slots, this`dirtyCount, this`disk
      ensures Good() && Shows(Apply(a, op, out)) && Sound(a, op, old(FullUp(slots)), out)
    {
      hide Inv, Coherent, Contents, Handles, SameRefs, Counted, FullUp, CleanedOnly;
      ghost var s0 := slots;
      var err := Sync(op.dev, op.bad);
      CleanedRefs(s0, slots);
      HandlesSame(s0, slots, a.who, a.held);
      out := Finished(err);
    }

    method DoFlush(op: CacheOp, ghost a: Array) returns (out: Out)
      requires Good() && Shows(a) && op.FlushOp?
      modifies this`slots, this`dirtyCount, this`disk
      ensures Good() && Shows(Apply(a, op, out)) && Sound(a, op, old(FullUp(slots)), out)
    {
      hide Inv, Coherent, Contents, Handles, SameRefs, Counted, FullUp, CleanedOnly, Lost;
      ghost var s0 := slots;
      var err, synced := FlushAll(op.bad);
      HandlesSame(s0, slots, a.who, a.held);
      CleanedRefs(s0, synced);
      HandlesSame(s0, synced, a.who, a.held);
      HandlesWho(synced, a.who, a.held);
      ContentsKeys(slots, disk);
      out := Fell(map k | k in disk && err != Ok && Lost(synced, k) :: disk[k]);
      assert View() == a.blocks + out.blocks;
      forall i | i in a.held ensures a.who[i] !in out.blocks {
        LostUnheld(synced, a.who, a.held, i);
      }
    }

    method DoHolder(op: CacheOp, ghost a: Array) returns (out: Out)
      requires Good() && Shows(a) && (op.LookOp? || op.StoreOp? || op.MarkOp? || op.PutOp?)
      modifies this
      ensures Good() && Shows(Apply(a, op, out)) && Sound(a, op, old(FullUp(slots)), out)
    {
      hide Inv, Coherent, Contents, Handles, SameRefs, Counted, FullUp;
      Referenced(op.i, a);
      if op.i >= |slots| || slots[op.i].refs == 0 {
        return Nothing;
      }
      match op
      case LookOp(i) => out := Saw(slots[i].data);
      case StoreOp(i, data) =>
        HandlesData(slots, a.who, a.held, i, data);
        Store(i, data);
        out := Finished(Ok);
      case MarkOp(i, bad) =>
        ghost var s0 := slots;
        MarkDirty(i, bad);
        HandlesSame(s0, slots, a.who, a.held);
        out := Finished(Ok);
      case PutOp(i) =>
        if i !in touched {
          HandlesPut(slots, a.who, a.held, i);
          PutBack(i);
          return Finished(Ok);
        }
        out := Nothing;
    }

    /** Every sequential run of gets, looks, changes, marks, puts, syncs and flushes, with buffers
        held across calls and any evictions and failures: the cache is a plain array of blocks. */
    method RunCalls(ops: seq<CacheOp>, ghost a: Array) returns (outs: seq<Out>, ghost trace: seq<seq<Slot>>)
      requires Good() && Shows(a)
      modifies this
      ensures Good() && |outs| == |ops| && |trace| == |ops| + 1 && trace[0] == old(slots) && trace[|ops|] == slots
      ensures Shows(Replay(a, ops, outs)) && AllSound(a, ops, trace, outs)
    {
      hide Good, Shows, Apply, Sound, FullUp, AllSound;
      outs, trace := [], [slots];
      NoneSound(a, slots);
      var i := 0;
      while i < |ops|
        invariant 0 <= i <= |ops| && |outs| == i && |trace| == i + 1 && trace[0] == old(slots) && trace[i] == slots
        invariant Good() && Shows(Replay(a, ops[..i], outs)) && AllSound(a, ops[..i], trace, outs)
      {
        var out := Act(ops[i], Replay(a, ops[..i], outs));
        ReplayNext(a, ops[..i], trace, outs, ops[i], out, slots);
        assert ops[..i + 1] == ops[..i] + [ops[i]];
        outs, trace := outs + [out], trace + [slots];
        i := i + 1;
      }
      assert ops[..i] == ops;
    }
  }
}
