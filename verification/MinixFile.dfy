/** Reading and writing a MINIX v1 file: block mapping with allocation, and writes that undo
    their allocations when zones run out (kernel/fs/minix/file.c, inode.c, bitmap.c). */
module MinixFile {
  import opened Base
  import opened MinixBlocks
  import opened MinixTree

  const MAP_BITS: nat := 8192

  /** The zone can be handed out. */
  ghost predicate Takeable(v: Vol, z: nat) {
    v.Data(z) && Bit(v, z) < |v.zmap| && !v.zmap[Bit(v, z)]
  }

  lemma RootAt(v: Vol, p: Path)
    requires v.Shape() && p.Valid() && p.Root()
    ensures v.At(p) == v.zones[p.Field()]
  {
  }

  /** Nothing hangs below an empty path. */
  lemma EmptyBare(v: Vol, p: Path)
    requires v.Ok() && p.Valid() && v.At(p) == 0
    ensures Bare(v, p)
  {
  }

  lemma StoreRoot(v: Vol, p: Path, z: nat)
    requires v.Ok() && Takeable(v, z) && p.Valid() && p.Root() && v.zones[p.Field()] == 0
    ensures var r := Reserved(v, z);
      Extends(v, r.(zones := r.zones[p.Field() := z]), {p})
  {
    hide Vol.At, Grown;
    GrownSelf(v);
    RootAt(v, p);
    ReservedOk(v, z);
    var r := Reserved(v, z);
    EmptyBare(r, p);
    SetRoot(r, p, z);
    var w := r.(zones := r.zones[p.Field() := z]);
    Attach(v, v, {}, w, p, z);
    assert {} + {p} == {p};
  }

  lemma ChildAt(v: Vol, t: Path, k: nat)
    requires v.Ok() && t.Valid() && t.Table() && v.At(t) != 0 && k < ENTRIES
    ensures v.Used(v.At(t)) && v.At(t.Child(k)) == Entry(v.disk[v.At(t)], k)
  {
  }

  lemma StoreEntry(v: Vol, t: Path, k: nat, z: nat)
    requires v.Ok() && Takeable(v, z) && k < ENTRIES
    requires t.Valid() && t.Table() && v.At(t) != 0 && v.At(t.Child(k)) == 0
    ensures v.Used(v.At(t)) && z < 0x10000 && v.At(t) != z
    ensures var r := Reserved(v, z);
      var w := r.(disk := r.disk[v.At(t) := SetEntry(r.disk[v.At(t)], k, z)]);
      Extends(v, w, {t.Child(k)}) && w.At(t) == v.At(t) && w.At(t.Child(k)) == z
  {
    hide Vol.At, Grown, SetEntry;
    GrownSelf(v);
    ReservedOk(v, z);
    var r := Reserved(v, z);
    EmptyBare(r, t.Child(k));
    SetChild(r, t, k, z);
    var w := r.(disk := r.disk[v.At(t) := SetEntry(r.disk[v.At(t)], k, z)]);
    Attach(v, v, {}, w, t.Child(k), z);
    assert {} + {t.Child(k)} == {t.Child(k)};
  }

  ghost predicate AllTables(c: set<Path>) {
    forall p: Path :: p in c ==> p.Table()
  }

  /** The zones that mapping a logical block in the direct or single indirect range takes. */
  ghost function NeedAt(v: Vol, l: nat): set<Path>
    requires v.Shape() && l < SINGLE
  {
    if Lookup(v, l) != 0 then {}
    else {PathOf(l)} + if 7 <= l && v.zones[7] == 0 then {Ind} else {}
  }

  /** What `minix_bmap` with creation does for a block in the direct or single indirect range:
      it ends mapped, having taken exactly the zones that were missing, or the zones ran out
      and at most a table was added. */
  ghost predicate Created(v0: Vol, v: Vol, l: nat, b: nat, made: set<Path>)
    requires v0.Shape() && l < SINGLE
  {
    && Extends(v0, v, made) && b == Lookup(v, l)
    && (b != 0 ==> made == NeedAt(v0, l))
    && (b == 0 ==> made < NeedAt(v0, l) && Full(v) && AllTables(made))
  }

  /** A mapped block of the double indirect range has both its tables. */
  lemma DoubleParents(v: Vol, i: nat, j: nat)
    requires v.Ok() && i < ENTRIES && j < ENTRIES
    ensures v.At(Leaf(i, j)) != 0 ==> v.At(DblEntry(i)) != 0
    ensures v.At(DblEntry(i)) != 0 ==> v.At(Dbl) != 0
  {
    assert v.At(Leaf(i, j)) == if v.Data(v.At(DblEntry(i))) then Entry(v.disk[v.At(DblEntry(i))], j) else 0;
    assert v.At(DblEntry(i)) == if v.Data(v.At(Dbl)) then Entry(v.disk[v.At(Dbl)], i) else 0;
  }

  /** Blocks of the direct and single indirect range, in increasing order, whose zones are
      exactly the data zones among the paths. */
  ghost predicate Lists(created: seq<nat>, made: set<Path>) {
    && (forall i :: 0 <= i < |created| ==> created[i] < SINGLE && PathOf(created[i]) in made)
    && (forall i, j :: 0 <= i < j < |created| ==> created[i] < created[j])
    && (forall p: Path :: p in made && !p.Table() ==> exists i :: 0 <= i < |created| && p == PathOf(created[i]))
  }

  lemma NothingListed()
    ensures Lists([], {})
  {
  }

  lemma ListTables(created: seq<nat>, made: set<Path>, more: set<Path>)
    requires Lists(created, made) && AllTables(more)
    ensures Lists(created, made + more)
  {
  }

  lemma ListPush(created: seq<nat>, made: set<Path>, l: nat)
    requires Lists(created, made) && l < SINGLE && forall i :: 0 <= i < |created| ==> created[i] < l
    ensures Lists(created + [l], made + {PathOf(l)})
  {
    hide PathOf;
    var longer := created + [l];
    forall p: Path | p in made && !p.Table() ensures exists i :: 0 <= i < |longer| && p == PathOf(longer[i]) {
      var i :| 0 <= i < |created| && p == PathOf(created[i]);
      assert p == PathOf(longer[i]);
    }
    assert PathOf(longer[|created|]) == PathOf(l);
  }

  lemma ListNext(created: seq<nat>, made: set<Path>, v: Vol, l: nat)
    requires Lists(created, made) && v.Shape() && l < SINGLE && forall k :: k in created ==> k < l
    ensures Lists(if Lookup(v, l) == 0 then created + [l] else created, made + NeedAt(v, l))
  {
    hide Lookup, Lists, PathOf;
    if Lookup(v, l) == 0 {
      assert forall i :: 0 <= i < |created| ==> created[i] in created;
      ListPush(created, made, l);
      var tables := NeedAt(v, l) - {PathOf(l)};
      ListTables(created + [l], made + {PathOf(l)}, tables);
      assert made + {PathOf(l)} + tables == made + NeedAt(v, l);
    } else {
      assert made + NeedAt(v, l) == made;
    }
  }

  /** No zone can be handed out. */
  ghost predicate Full(v: Vol) {
    forall y: nat :: !Takeable(v, y)
  }

  /** Some block from `a` to `last` is unmapped and lies in the double indirect range or past it. */
  ghost predicate OutOfReach(v: Vol, a: nat, last: nat)
    requires v.Shape()
  {
    exists l :: a <= l <= last && SINGLE <= l && Lookup(v, l) == 0
  }

  /** The zones that mapping the blocks from `a` up to `b` takes. */
  ghost function Needed(v: Vol, a: nat, b: nat): set<Path>
    requires v.Shape()
  {
    if b <= a then {}
    else Needed(v, a, b - 1) + if b - 1 < SINGLE then NeedAt(v, b - 1) else {}
  }

  lemma {:induction false} NeededMore(v: Vol, a: nat, b: nat, c: nat)
    requires v.Shape() && a <= b <= c
    ensures Needed(v, a, b) <= Needed(v, a, c)
    decreases c
  {
    if b < c {
      NeededMore(v, a, b, c - 1);
    }
  }

  lemma {:induction false} NeededBelow(v: Vol, a: nat, b: nat, l: nat)
    requires v.Shape() && l < MAX_BLOCKS && b <= l
    ensures PathOf(l) !in Needed(v, a, b)
    decreases b
  {
    if a < b {
      NeededBelow(v, a, b - 1, l);
      if b - 1 < SINGLE && PathOf(b - 1) == PathOf(l) {
        PathOfInjective(b - 1, l);
      }
    }
  }

  /** Mapped blocks stay where they are. */
  lemma GrownLookup(v: Vol, w: Vol, c: set<Path>)
    requires v.Ok() && w.Ok() && Grown(v, w, c)
    ensures forall l :: 0 <= l && Lookup(v, l) != 0 ==> Lookup(w, l) == Lookup(v, l)
  {
    hide Vol.At, Grown, Lookup;
    forall l: nat | Lookup(v, l) != 0 ensures Lookup(w, l) == Lookup(v, l) {
      LookupAt(v, l);
      LookupAt(w, l);
      SameTreeOutside(v, w, c, PathOf(l));
    }
  }

  /** The zones still missing for the next block are those it needed at the start. */
  lemma NeedStep(v0: Vol, v: Vol, made: set<Path>, a: nat, l: nat)
    requires v0.Ok() && v.Ok() && Grown(v0, v, made) && made == Needed(v0, a, l) && l < SINGLE
    ensures made + NeedAt(v, l) == made + NeedAt(v0, l) && made !! NeedAt(v, l)
  {
    hide Vol.At, Grown, Lookup;
    LookupAt(v0, l);
    LookupAt(v, l);
    NeededBelow(v0, a, l, l);
    SameTreeOutside(v0, v, made, PathOf(l));
    SameTreeOutside(v0, v, made, Ind);
    RootAt(v0, Ind);
    RootAt(v, Ind);
  }

  /** From `v` to `w` the path is cleared and the bit of its zone with it; nothing else in the
      tree, the bitmap or the blocks that are not tables changes. */
  ghost predicate Cleared(v: Vol, w: Vol, p: Path)
    requires v.Ok() && p.Valid()
  {
    && w.Shape() && w.first == v.first && w.nzones == v.nzones
    && Sets(v, w, p, 0)
    && w.zmap == (if v.At(p) == 0 then v.zmap else v.zmap[Bit(v, v.At(p)) := false])
    && forall y :: v.Used(y) && Plain(v, y) ==> w.disk[y] == v.disk[y]
  }

  lemma AlreadyClear(v: Vol, p: Path)
    requires v.Ok() && p.Valid() && v.At(p) == 0
    ensures Cleared(v, v, p)
  {
  }

  lemma ClearedRoot(v: Vol, p: Path)
    requires v.Ok() && p.Valid() && p.Root() && v.At(p) != 0 && Bare(v, p)
    ensures Cleared(v, v.(zmap := v.zmap[Bit(v, v.At(p)) := false], zones := v.zones[p.Field() := 0]), p)
  {
    SetRoot(v, p, 0);
    var w := v.(zones := v.zones[p.Field() := 0]);
    var m := v.zmap[Bit(v, v.At(p)) := false];
    forall q: Path | q.Valid() ensures w.(zmap := m).At(q) == w.At(q) {
      ZmapAt(w, m, q);
    }
  }

  lemma ClearedEntry(v: Vol, t: Path, k: nat)
    requires v.Ok() && t.Valid() && t.Table() && v.At(t) != 0 && k < ENTRIES
    requires v.At(t.Child(k)) != 0 && Bare(v, t.Child(k))
    ensures v.Used(v.At(t))
    ensures Cleared(v, v.(zmap := v.zmap[Bit(v, v.At(t.Child(k))) := false],
                          disk := v.disk[v.At(t) := SetEntry(v.disk[v.At(t)], k, 0)]), t.Child(k))
  {
    hide SetEntry;
    SetChild(v, t, k, 0);
    var w := v.(disk := v.disk[v.At(t) := SetEntry(v.disk[v.At(t)], k, 0)]);
    var m := v.zmap[Bit(v, v.At(t.Child(k))) := false];
    forall q: Path | q.Valid() ensures w.(zmap := m).At(q) == w.At(q) {
      ZmapAt(w, m, q);
    }
  }

  lemma EntryOf(v: Vol, t: Path, k: nat)
    requires v.Ok() && t.Valid() && t.Table() && k < ENTRIES
    ensures v.At(t) != 0 ==> v.Used(v.At(t))
    ensures v.At(t.Child(k)) == if v.At(t) == 0 then 0 else Entry(v.disk[v.At(t)], k)
    ensures !t.Child(k).Table() ==> Bare(v, t.Child(k))
  {
  }

  ghost predicate EmptyTable(v: Vol, t: Path)
    requires v.Shape() && t.Valid() && t.Table()
  {
    forall k :: 0 <= k < ENTRIES ==> v.At(t.Child(k)) == 0
  }

  ghost predicate NoEmptyTables(v: Vol)
    requires v.Shape()
  {
    forall t: Path :: t.Valid() && t.Table() && v.At(t) != 0 ==> !EmptyTable(v, t)
  }

  lemma TableUsed(v: Vol, t: Path)
    requires v.Ok() && t.Valid() && t.Table() && v.At(t) != 0
    ensures v.Shape() && v.Used(v.At(t))
    ensures EmptyTable(v, t) <==> forall k :: 0 <= k < ENTRIES ==> Entry(v.disk[v.At(t)], k) == 0
    ensures EmptyTable(v, t) ==> Bare(v, t)
  {
    forall k | 0 <= k < ENTRIES ensures v.At(t.Child(k)) == Entry(v.disk[v.At(t)], k) {
      ChildAt(v, t, k);
    }
    hide Vol.At;
    if EmptyTable(v, t) {
      forall p: Path | p.Valid() && !p.Root() && p.Parent() == t ensures v.At(p) == 0 {
        assert p == t.Child(p.Index());
      }
    }
  }

  /** Once nothing new hangs below a table, it is empty exactly when it is itself new. */
  lemma PruneTest(v0: Vol, v: Vol, c: set<Path>, t: Path)
    requires v0.Ok() && v.Ok() && Grown(v0, v, c) && NoEmptyTables(v0) && t.Valid() && t.Table() && v.At(t) != 0
    requires forall k :: 0 <= k < ENTRIES ==> t.Child(k) !in c
    ensures v.Shape() && (EmptyTable(v, t) <==> t in c)
  {
    hide Vol.At, Grown;
    SameTreeOutside(v0, v, c, t);
    forall k | 0 <= k < ENTRIES ensures v.At(t.Child(k)) == v0.At(t.Child(k)) {
      SameTreeOutside(v0, v, c, t.Child(k));
    }
    if t in c {
      forall k | 0 <= k < ENTRIES ensures v0.At(t.Child(k)) == 0 {
        EntryOf(v0, t, k);
      }
    }
  }

  /** `v` still holds the new zones at `c` on top of `v0`, which had no empty tables; the other
      blocks used in `v0` hold `b`. */
  ghost predicate Undoing(v0: Vol, b: map<nat, Block>, v: Vol, c: set<Path>) {
    v0.Ok() && NoEmptyTables(v0) && v.Ok() && Grown(v0, v, c) && Keeps(v0, b, v)
  }

  lemma DetachCleared(v0: Vol, b: map<nat, Block>, v: Vol, c: set<Path>, w: Vol, p: Path)
    requires Undoing(v0, b, v, c) && p in c && p.Valid() && Cleared(v, w, p)
    ensures Undoing(v0, b, w, c - {p}) && |w.zmap| == |v.zmap|
    ensures forall q: Path :: q.Valid() && q != p ==> w.At(q) == v.At(q)
  {
    hide Vol.At, Grown;
    SameTreeOutside(v0, v, c, p);
    Detach(v0, v, c, w, p);
    DataKept(v0, b, v, c, w);
  }

  /** The entries of the double indirect table. */
  ghost function Inner(): (s: set<Path>)
  {
    set i: nat | 0 <= i < ENTRIES :: DblEntry(i)
  }

  lemma InnerPaths()
    ensures forall p: Path :: p in Inner() <==> p.DblEntry? && p.Valid()
  {
    forall p: Path ensures p in Inner() <==> p.DblEntry? && p.Valid() {
      if p.DblEntry? && p.Valid() {
        assert p == DblEntry(p.i);
      }
    }
  }

  lemma TablePaths(v0: Vol, v: Vol, c: set<Path>)
    requires Grown(v0, v, c) && AllTables(c)
    ensures c <= {Ind, Dbl} + Inner()
  {
    InnerPaths();
  }

  lemma NoDoubleTable(v0: Vol, v: Vol, c: set<Path>)
    requires v.Ok() && Grown(v0, v, c) && c <= {Dbl} + Inner() && v.At(Dbl) == 0
    ensures c == {}
  {
    InnerPaths();
    forall p: Path | p in {Dbl} + Inner() ensures p !in c {
      if p.DblEntry? {
        EntryOf(v, Dbl, p.i);
      }
      SameTreeOutside(v0, v, c, p);
    }
  }

  /** The two volumes store the same zones and have the same bitmap. */
  ghost predicate SameTree(v: Vol, w: Vol) {
    && v.Shape() && w.Shape() && w.first == v.first && w.nzones == v.nzones && w.zmap == v.zmap && w.zones == v.zones
    && forall p: Path :: p.Valid() ==> w.At(p) == v.At(p)
  }

  /** Every block that bytes `offset` up to `offset + len` touch is mapped. */
  ghost predicate MappedAt(v: Vol, offset: nat, len: nat)
    requires v.Shape()
  {
    forall x :: offset <= x < offset + len ==> Lookup(v, x / BLOCK) != 0
  }

  /** `bytes` are stored at `offset`, and every other byte of the file, inside its size or not,
      is as before. */
  ghost predicate Overwritten(v: Vol, w: Vol, offset: nat, bytes: seq<Byte>) {
    && v.Shape() && w.Shape()
    && forall x :: 0 <= x ==> Raw(w, x) == if offset <= x < offset + |bytes| then bytes[x - offset] else Raw(v, x)
  }

  /** Blocks of zones the file does not store keep their bytes. */
  ghost predicate Foreign(v: Vol, w: Vol) {
    && v.Shape() && w.Shape() && w.first == v.first && w.nzones == v.nzones
    && forall y :: v.Used(y) && (forall p: Path :: p.Valid() ==> v.At(p) != y) ==> w.disk[y] == v.disk[y]
  }

  lemma Unwritten(v: Vol, offset: nat)
    requires v.Shape()
    ensures SameTree(v, v) && Overwritten(v, v, offset, []) && Foreign(v, v)
  {
  }

  lemma SameLookup(v: Vol, w: Vol, l: nat)
    requires v.Ok() && w.Ok() && SameTree(v, w)
    ensures Lookup(w, l) == Lookup(v, l)
  {
    LookupAt(v, l);
    LookupAt(w, l);
  }

  lemma StillMapped(v: Vol, w: Vol, offset: nat, len: nat, at: nat)
    requires v.Ok() && w.Ok() && SameTree(v, w) && MappedAt(v, offset, len) && offset <= at < offset + len
    ensures w.Shape() && Lookup(w, at / BLOCK) != 0
  {
    hide Lookup;
    SameLookup(v, w, at / BLOCK);
  }

  /** The zone of a data block is no table. */
  lemma DataPlain(v: Vol, l: nat)
    requires v.Ok() && Lookup(v, l) != 0
    ensures Plain(v, Lookup(v, l)) && v.Used(Lookup(v, l))
    ensures exists p: Path :: p.Valid() && v.At(p) == Lookup(v, l)
  {
    hide Vol.At, Lookup;
    LookupAt(v, l);
    var p := PathOf(l);
    assert v.At(p) == Lookup(v, l);
  }

  lemma LookupInjective(v: Vol, l: nat, m: nat)
    requires v.Ok() && Lookup(v, l) == Lookup(v, m) != 0
    ensures l == m
  {
    hide Vol.At, Lookup;
    LookupAt(v, l);
    LookupAt(v, m);
    PathOfInjective(l, m);
  }

  /** Copying bytes within one mapped block. */
  lemma PutData(v: Vol, at: nat, bytes: seq<Byte>)
    requires v.Ok() && Lookup(v, at / BLOCK) != 0 && at % BLOCK + |bytes| <= BLOCK
    ensures var z := Lookup(v, at / BLOCK);
      var w := v.(disk := v.disk[z := Put(v.disk[z], at % BLOCK, bytes)]);
      w.Ok() && SameTree(v, w) && Overwritten(v, w, at, bytes) && Foreign(v, w)
  {
    hide Vol.At, Lookup;
    var z := Lookup(v, at / BLOCK);
    var w := v.(disk := v.disk[z := Put(v.disk[z], at % BLOCK, bytes)]);
    DataPlain(v, at / BLOCK);
    OtherBlock(v, z, Put(v.disk[z], at % BLOCK, bytes));
    assert w.Ok();
    forall x: nat ensures Raw(w, x) == if at <= x < at + |bytes| then bytes[x - at] else Raw(v, x) {
      PutRaw(v, w, at, bytes, x);
    }
  }

  lemma PutRaw(v: Vol, w: Vol, at: nat, bytes: seq<Byte>, x: nat)
    requires v.Ok() && Lookup(v, at / BLOCK) != 0 && at % BLOCK + |bytes| <= BLOCK
    requires w.Ok() && SameTree(v, w)
    requires var z := Lookup(v, at / BLOCK); w.disk == v.disk[z := Put(v.disk[z], at % BLOCK, bytes)]
    ensures Raw(w, x) == if at <= x < at + |bytes| then bytes[x - at] else Raw(v, x)
  {
    hide Vol.At, Lookup;
    SameLookup(v, w, x / BLOCK);
    if x / BLOCK != at / BLOCK && Lookup(v, x / BLOCK) == Lookup(v, at / BLOCK) {
      LookupInjective(v, x / BLOCK, at / BLOCK);
    }
  }

  lemma OverwrittenMore(u: Vol, v: Vol, w: Vol, offset: nat, a: seq<Byte>, b: seq<Byte>)
    requires SameTree(u, v) && Overwritten(u, v, offset, a) && Foreign(u, v)
    requires SameTree(v, w) && Overwritten(v, w, offset + |a|, b) && Foreign(v, w)
    ensures SameTree(u, w) && Overwritten(u, w, offset, a + b) && Foreign(u, w)
  {
    hide Vol.At, Lookup;
  }

  lemma UndoingOk(v0: Vol, b: map<nat, Block>, v: Vol, c: set<Path>)
    requires Undoing(v0, b, v, c)
    ensures v.Ok()
  {
  }

  lemma ListRest(created: seq<nat>, made: set<Path>)
    requires Lists(created, made) && created != []
    ensures created[0] < SINGLE && PathOf(created[0]) in made
    ensures Lists(created[1..], made - {PathOf(created[0])})
  {
    hide PathOf;
    var rest, left := created[1..], made - {PathOf(created[0])};
    forall i | 0 <= i < |rest| ensures PathOf(rest[i]) in left {
      assert rest[i] == created[i + 1];
      if PathOf(rest[i]) == PathOf(created[0]) {
        PathOfInjective(rest[i], created[0]);
      }
    }
    forall p: Path | p in left && !p.Table() ensures exists i :: 0 <= i < |rest| && p == PathOf(rest[i]) {
      var i :| 0 <= i < |created| && p == PathOf(created[i]);
      assert p == PathOf(rest[i - 1]);
    }
  }

  lemma ListedTables(c: set<Path>)
    ensures Lists([], c) ==> AllTables(c)
  {
  }

  // ------------------------------------------------------------------------
  // Counting zones
  // ------------------------------------------------------------------------

  ghost function FreeZones(v: Vol): set<nat> {
    set z | v.first <= z < v.nzones && Takeable(v, z)
  }

  ghost function ZonesOf(v: Vol, c: set<Path>): set<nat>
    requires v.Shape()
  {
    set p: Path | p in c && p.Valid() :: v.At(p)
  }

  lemma {:induction false} ZonesCount(v: Vol, c: set<Path>)
    requires v.Ok() && forall p: Path :: p in c ==> p.Valid() && v.At(p) != 0
    ensures |ZonesOf(v, c)| == |c|
  {
    hide Vol.At;
    if c == {} {
      assert ZonesOf(v, c) == {};
    } else {
      var p :| p in c;
      ZonesCount(v, c - {p});
      assert ZonesOf(v, c) == ZonesOf(v, c - {p}) + {v.At(p)};
      assert v.At(p) !in ZonesOf(v, c - {p});
    }
  }

  /** The new zones were free before; when none is left they were all the free ones. */
  lemma ZonesTaken(v0: Vol, v: Vol, c: set<Path>)
    requires v.Ok() && Grown(v0, v, c)
    ensures |c| <= |FreeZones(v0)|
    ensures Full(v) ==> |c| == |FreeZones(v0)|
  {
    hide Vol.At;
    forall p: Path | p in c ensures p.Valid() && v.At(p) != 0 && v.At(p) in FreeZones(v0) {
      assert NewAt(v0, v, p) && v.Used(v.At(p));
    }
    ZonesCount(v, c);
    Subset(ZonesOf(v, c), FreeZones(v0));
    if Full(v) {
      forall y | y in FreeZones(v0) ensures y in ZonesOf(v, c) {
        assert !Takeable(v, y);
        assert BitOf(v, c, Bit(v, y));
        var p: Path :| p in c && p.Valid() && Bit(v, v.At(p)) == Bit(v, y);
        assert v.At(p) == y;
      }
      assert ZonesOf(v, c) == FreeZones(v0);
    }
  }

  lemma {:induction false} Subset<T>(a: set<T>, b: set<T>)
    requires a <= b
    ensures |a| <= |b|
    ensures a < b ==> |a| < |b|
  {
    if a != {} {
      var x :| x in a;
      Subset(a - {x}, b - {x});
    }
  }

  // ------------------------------------------------------------------------
  // Writes
  // ------------------------------------------------------------------------

  const WRITE_MAX: nat := 65536

  datatype Outcome = Wrote(n: nat) | Failed(e: Err)

  /** The part of a request one write accepts. */
  function Capped(data: seq<Byte>): nat {
    if |data| > WRITE_MAX then WRITE_MAX else |data|
  }

  /** The range touches an unmapped block past the single indirect range, or needs more zones
      than are free. */
  ghost predicate NoRoom(v: Vol, offset: nat, len: nat)
    requires v.Shape() && len > 0
  {
    var a, last := offset / BLOCK, (offset + len - 1) / BLOCK;
    OutOfReach(v, a, last) || |FreeZones(v)| < |Needed(v, a, last + 1)|
  }

  lemma SameVol(v: Vol)
    requires v.Shape()
    ensures SameTree(v, v) && Foreign(v, v)
  {
  }

  /** The allocation phase fails exactly when there is no room. */
  lemma RoomCounted(v0: Vol, v: Vol, offset: nat, len: nat, ok: bool, made: set<Path>)
    requires v0.Ok() && Extends(v0, v, made) && len > 0
    requires var a, last := offset / BLOCK, (offset + len - 1) / BLOCK;
      if ok then made == Needed(v0, a, last + 1) && !OutOfReach(v0, a, last)
      else OutOfReach(v0, a, last) || (made < Needed(v0, a, last + 1) && Full(v))
    ensures NoRoom(v0, offset, len) <==> !ok
  {
    hide Vol.At, Lookup, Needed, FreeZones, Full, Grown, OutOfReach;
    var a, last := offset / BLOCK, (offset + len - 1) / BLOCK;
    ZonesTaken(v0, v, made);
    if made < Needed(v0, a, last + 1) {
      Subset(made, Needed(v0, a, last + 1));
    }
  }

  lemma UndoExtends(v0: Vol, v: Vol, made: set<Path>)
    requires v0.Ok() && NoEmptyTables(v0) && Extends(v0, v, made)
    ensures Undoing(v0, v0.disk, v, made)
  {
  }

  /** With the new zones gone the volume is the old one, up to the bytes `b`. */
  lemma Undone(v0: Vol, b: map<nat, Block>, v: Vol)
    requires Undoing(v0, b, v, {})
    ensures v.Ok() && SameTree(v0, v) && NoEmptyTables(v)
    ensures forall y :: v0.Used(y) ==> v.disk[y] == if Plain(v0, y) then b[y] else v0.disk[y]
  {
    Restored(v0, b, v);
    hide Vol.At;
    SameEmpty(v0, v);
  }

  lemma SameEmpty(v: Vol, w: Vol)
    requires v.Shape() && w.Shape() && NoEmptyTables(v) && forall p: Path :: p.Valid() ==> w.At(p) == v.At(p)
    ensures NoEmptyTables(w)
  {
    hide Vol.At;
    forall t: Path | t.Valid() && t.Table() && w.At(t) != 0 ensures !EmptyTable(w, t) {
      assert !EmptyTable(v, t);
      var k :| 0 <= k < ENTRIES && v.At(t.Child(k)) != 0;
      assert w.At(t.Child(k)) != 0;
    }
  }

  /** Mapping blocks leaves every byte of the file as it was: new blocks read as the zeros the
      holes did. */
  lemma ExtendsRaw(v0: Vol, v: Vol, made: set<Path>)
    requires v0.Ok() && Extends(v0, v, made)
    ensures forall x :: 0 <= x ==> Raw(v, x) == Raw(v0, x)
  {
    hide Vol.At, Grown, Lookup;
    forall x: nat ensures Raw(v, x) == Raw(v0, x) {
      var l := x / BLOCK;
      LookupAt(v0, l);
      LookupAt(v, l);
      if Lookup(v0, l) != 0 {
        GrownLookup(v0, v, made);
        DataPlain(v0, l);
      } else if l < MAX_BLOCKS && v.At(PathOf(l)) != 0 {
        assert v.disk[v.At(PathOf(l))] == Zeros();
      }
    }
  }

  lemma MappedRange(v: Vol, offset: nat, len: nat)
    requires v.Shape() && len > 0
    requires forall l :: offset / BLOCK <= l <= (offset + len - 1) / BLOCK ==> Lookup(v, l) != 0
    ensures MappedAt(v, offset, len)
  {
    hide Lookup;
  }

  lemma MappedStill(v: Vol, w: Vol, offset: nat, n: nat, len: nat)
    requires v.Ok() && w.Ok() && SameTree(v, w) && MappedAt(v, offset, len) && n <= len
    ensures MappedAt(w, offset, n)
  {
    hide Lookup, Vol.At;
    forall x | offset <= x < offset + n ensures Lookup(w, x / BLOCK) != 0 {
      SameLookup(v, w, x / BLOCK);
    }
  }

  /** Zones the file does not store in `v0` are not among those it gains. */
  lemma ForeignAfter(v0: Vol, v: Vol, w: Vol, made: set<Path>)
    requires v0.Ok() && Extends(v0, v, made) && Foreign(v, w)
    ensures Foreign(v0, w)
  {
    hide Vol.At;
    forall y | v0.Used(y) && (forall p: Path :: p.Valid() ==> v0.At(p) != y) ensures w.disk[y] == v0.disk[y] {
      forall p: Path | p.Valid() ensures v.At(p) != y {
        SameTreeOutside(v0, v, made, p);
        assert p in made ==> NewAt(v0, v, p);
      }
      assert v.Used(y) && Plain(v0, y);
    }
  }

  lemma GrownSame(v0: Vol, v: Vol, w: Vol, c: set<Path>)
    requires Grown(v0, v, c) && SameTree(v, w)
    ensures Grown(v0, w, c)
  {
    hide Vol.At;
    forall p: Path | p in c ensures p.Valid() && NewAt(v0, w, p) {
      assert NewAt(v0, v, p);
    }
    forall k | 0 <= k < |w.zmap| ensures BitOf(w, c, k) <==> BitOf(v, c, k) {
      if BitOf(w, c, k) {
        var p: Path :| p in c && p.Valid() && Bit(w, w.At(p)) == k;
        assert Bit(v, v.At(p)) == k;
      }
      if BitOf(v, c, k) {
        var p: Path :| p in c && p.Valid() && Bit(v, v.At(p)) == k;
        assert Bit(w, w.At(p)) == k;
      }
    }
  }

  /** A new single indirect table comes with an entry. */
  lemma {:induction false} NeededEntry(v: Vol, a: nat, b: nat) returns (l: nat)
    requires v.Shape() && Ind in Needed(v, a, b)
    ensures 7 <= l < SINGLE && PathOf(l) in Needed(v, a, b)
    decreases b
  {
    if b - 1 < SINGLE && Ind in NeedAt(v, b - 1) {
      l := b - 1;
    } else {
      l := NeededEntry(v, a, b - 1);
    }
  }

  lemma {:induction false} NeededTables(v: Vol, a: nat, b: nat, p: Path)
    requires v.Shape() && p in Needed(v, a, b) && p.Table()
    ensures p == Ind
    decreases b
  {
    if p in Needed(v, a, b - 1) {
      NeededTables(v, a, b - 1, p);
    }
  }

  lemma TablesKept(v0: Vol, v: Vol, made: set<Path>, a: nat, b: nat)
    requires v0.Ok() && NoEmptyTables(v0) && Extends(v0, v, made) && made == Needed(v0, a, b)
    ensures NoEmptyTables(v)
  {
    hide Vol.At, Grown, Needed, Lookup;
    forall t: Path | t.Valid() && t.Table() && v.At(t) != 0 ensures !EmptyTable(v, t) {
      SameTreeOutside(v0, v, made, t);
      if t in made {
        NeededTables(v0, a, b, t);
        var l := NeededEntry(v0, a, b);
        SameTreeOutside(v0, v, made, PathOf(l));
        assert PathOf(l) == t.Child(l - 7);
      } else {
        var k :| 0 <= k < ENTRIES && v0.At(t.Child(k)) != 0;
        SameTreeOutside(v0, v, made, t.Child(k));
      }
    }
  }

  lemma Success(v0: Vol, v: Vol, w: Vol, made: set<Path>, a: nat, b: nat, offset: nat, bytes: seq<Byte>)
    requires v0.Ok() && NoEmptyTables(v0) && Extends(v0, v, made) && made == Needed(v0, a, b)
    requires w.Ok() && SameTree(v, w) && Overwritten(v, w, offset, bytes) && Foreign(v, w)
    ensures NoEmptyTables(w) && Overwritten(v0, w, offset, bytes) && Foreign(v0, w) && Grown(v0, w, made)
  {
    hide Vol.At, Needed, Lookup, Foreign, Raw;
    TablesKept(v0, v, made, a, b);
    SameEmpty(v, w);
    ExtendsRaw(v0, v, made);
    ForeignAfter(v0, v, w, made);
    GrownSame(v0, v, w, made);
  }

  lemma UndoAfter(v0: Vol, v: Vol, w: Vol, made: set<Path>)
    requires v0.Ok() && NoEmptyTables(v0) && Extends(v0, v, made) && w.Ok() && SameTree(v, w)
    ensures Undoing(v0, w.disk, w, made)
  {
    hide Vol.At;
    GrownSame(v0, v, w, made);
  }

  lemma SameZmap(v: Vol, w: Vol)
    requires SameTree(v, w)
    ensures w.zmap == v.zmap
  {
  }

  lemma SameTreeTrans(u: Vol, v: Vol, w: Vol)
    requires SameTree(u, v) && SameTree(v, w)
    ensures SameTree(u, w)
  {
    hide Vol.At;
  }

  /** The old bytes copied back over the new ones, then the allocations undone. */
  lemma IoFailure(v0: Vol, v1: Vol, v2: Vol, v3: Vol, v: Vol, made: set<Path>, size: nat, offset: nat,
                  bytes: seq<Byte>, backup: seq<Byte>)
    requires v0.Ok() && Extends(v0, v1, made) && v3.Ok() && v.Ok() && |bytes| == |backup|
    requires SameTree(v1, v2) && Overwritten(v1, v2, offset, bytes) && Foreign(v1, v2)
    requires SameTree(v2, v3) && Overwritten(v2, v3, offset, backup) && Foreign(v2, v3)
    requires SameTree(v0, v)
    requires forall y :: v0.Used(y) ==> v.disk[y] == if Plain(v0, y) then v3.disk[y] else v0.disk[y]
    requires forall k :: 0 <= k < |backup| && offset + k < size ==> backup[k] == Raw(v0, offset + k)
    ensures Foreign(v0, v) && forall x :: 0 <= x < size ==> Raw(v, x) == Raw(v0, x)
  {
    hide Vol.At, Lookup, Grown, Extends, Foreign, Raw, SameTree;
    assert Foreign(v0, v) by {
      ForeignTrans(v1, v2, v3);
      ForeignAfter(v0, v1, v3, made);
      ForeignSame(v0, v3, v);
    }
    ExtendsRaw(v0, v1, made);
    SameTreeTrans(v1, v2, v3);
    forall x | 0 <= x < size ensures Raw(v, x) == Raw(v0, x) {
      RawBack(v0, v1, v3, v, made, x);
      assert x - offset >= |backup| || x < offset || Raw(v3, x) == backup[x - offset];
    }
  }

  lemma ForeignTrans(u: Vol, v: Vol, w: Vol)
    requires SameTree(u, v) && Foreign(u, v) && Foreign(v, w)
    ensures Foreign(u, w)
  {
    hide Vol.At;
  }

  lemma ForeignSame(v0: Vol, w: Vol, v: Vol)
    requires Foreign(v0, w) && SameTree(v0, v)
    requires forall y :: v0.Used(y) ==> v.disk[y] == if Plain(v0, y) then w.disk[y] else v0.disk[y]
    ensures Foreign(v0, v)
  {
    hide Vol.At;
    forall y | v0.Used(y) && (forall p: Path :: p.Valid() ==> v0.At(p) != y) ensures v.disk[y] == v0.disk[y] {
      assert Plain(v0, y);
    }
  }

  lemma RawBack(v0: Vol, v1: Vol, v3: Vol, v: Vol, made: set<Path>, x: nat)
    requires v0.Ok() && Extends(v0, v1, made) && SameTree(v1, v3) && v3.Ok() && SameTree(v0, v) && v.Ok()
    requires forall y :: v0.Used(y) ==> v.disk[y] == if Plain(v0, y) then v3.disk[y] else v0.disk[y]
    ensures Raw(v, x) == Raw(v3, x) || Raw(v, x) == Raw(v0, x)
  {
    hide Vol.At, Lookup, Grown, SameTree;
    var l := x / BLOCK;
    SameLookup(v0, v, l);
    if Lookup(v0, l) != 0 {
      DataPlain(v0, l);
      GrownLookup(v0, v1, made);
      SameLookup(v1, v3, l);
    }
  }

  class File {
    const first: nat
    const nzones: nat
    var zmap: seq<bool>
    var disk: map<nat, Block>
    var zones: seq<nat>
    var size: nat
    var time: nat
    var dirty: bool

    ghost function V(): Vol
      reads this
    {
      Vol(first, nzones, zmap, disk, zones)
    }

    /** `minix_alloc_from_map` over the zone bitmap: the lowest clear bit from 1 to the limit. */
    method AllocFromMap(limit: nat) returns (idx: nat)
      requires |zmap| % MAP_BITS == 0
      modifies this`zmap
      ensures idx == 0 ==> zmap == old(zmap)
      ensures forall k :: 1 <= k < |old(zmap)| && k <= limit && (k < idx || idx == 0) ==> old(zmap)[k]
      ensures idx != 0 ==> idx <= limit && idx < |old(zmap)| && !old(zmap)[idx] && zmap == old(zmap)[idx := true]
    {
      var blk := 0;
      while blk < |zmap| / MAP_BITS
        invariant 0 <= blk <= |zmap| / MAP_BITS && zmap == old(zmap)
        invariant forall k :: 1 <= k < blk * MAP_BITS && k <= limit ==> zmap[k]
      {
        var base, bit := blk * MAP_BITS, 0;
        while bit < MAP_BITS
          invariant 0 <= bit <= MAP_BITS && zmap == old(zmap)
          invariant forall k :: 1 <= k < base + bit && k <= limit ==> zmap[k]
        {
          idx := base + bit;
          if idx > limit {
            break;
          }
          if idx != 0 && !zmap[idx] {
            zmap := zmap[idx := true];
            return;
          }
          bit := bit + 1;
        }
        blk := blk + 1;
      }
      idx := 0;
    }

    /** `minix_alloc_zone`. */
    method AllocZone() returns (z: nat)
      requires V().Shape() && |zmap| % MAP_BITS == 0
      modifies this`zmap
      ensures z == 0 ==> zmap == old(zmap) && Full(V())
      ensures z != 0 ==> Takeable(old(V()), z) && zmap == old(zmap)[Bit(old(V()), z) := true]
      ensures z != 0 ==> forall y: nat :: y < z ==> !Takeable(old(V()), y)
    {
      var idx := AllocFromMap(nzones - first);
      z := if idx == 0 then 0 else first + idx - 1;
    }

    /** `minix_alloc_data_zone`: a zone marked used and zero-filled. */
    method AllocDataZone() returns (z: nat)
      requires V().Shape() && |zmap| % MAP_BITS == 0
      modifies this`zmap, this`disk
      ensures z == 0 ==> V() == old(V()) && Full(V())
      ensures z != 0 ==> Takeable(old(V()), z) && V() == Reserved(old(V()), z)
    {
      z := AllocZone();
      if z != 0 {
        disk := disk[z := Zeros()];
      }
    }

    /** `minix_safe_free_zone`: out-of-range zones are skipped. */
    method SafeFreeZone(z: nat)
      requires V().Data(z) ==> V().Used(z)
      modifies this`zmap
      ensures zmap == if V().Data(z) then old(zmap)[Bit(V(), z) := false] else old(zmap)
    {
      if first <= z < nzones {
        zmap := zmap[z - first + 1 := false];
      }
    }

    /** A zone for an empty inode field. */
    method EnsureRoot(p: Path) returns (ghost made: set<Path>)
      requires V().Ok() && |zmap| % MAP_BITS == 0 && p.Valid() && p.Root()
      modifies this`zmap, this`disk, this`zones, this`dirty
      ensures V().Ok() && |zmap| == |old(zmap)| && Extends(old(V()), V(), made)
      ensures made == if old(zones)[p.Field()] == 0 && zones[p.Field()] != 0 then {p} else {}
      ensures old(zones)[p.Field()] != 0 ==> V() == old(V())
      ensures zones[p.Field()] == 0 ==> Full(V())
    {
      hide Vol.At, Grown, Keeps;
      ghost var v := V();
      made := {};
      GrownSelf(v);
      if zones[p.Field()] == 0 {
        var z := AllocDataZone();
        ghost var v1 := V();
        zones := zones[p.Field() := z];
        dirty := true;
        if z == 0 {
          assert V() == v;
        } else {
          RootAt(v, p);
          made := {p};
          StoreRoot(v, p, z);
        }
      }
    }

    /** A zone for an empty entry of the existing table in zone `tz`. */
    method EnsureEntry(ghost t: Path, tz: nat, k: nat) returns (ghost made: set<Path>)
      requires V().Ok() && |zmap| % MAP_BITS == 0 && k < ENTRIES
      requires t.Valid() && t.Table() && V().At(t) == tz != 0
      modifies this`zmap, this`disk
      ensures V().Ok() && |zmap| == |old(zmap)| && Extends(old(V()), V(), made)
      ensures V().At(t) == tz
      ensures made == if old(V()).At(t.Child(k)) == 0 && V().At(t.Child(k)) != 0 then {t.Child(k)} else {}
      ensures old(V()).At(t.Child(k)) != 0 ==> V() == old(V())
      ensures V().At(t.Child(k)) == 0 ==> Full(V())
    {
      hide Vol.At, Grown, Keeps;
      ghost var v := V();
      made := {};
      GrownSelf(v);
      ChildAt(v, t, k);
      if Entry(disk[tz], k) == 0 {
        var z := AllocDataZone();
        if z == 0 {
          disk := disk[tz := SetEntry(disk[tz], k, z)];
          SameEntries(disk[tz], v.disk[tz]);
          assert disk == v.disk;
        } else {
          StoreEntry(v, t, k, z);
          disk := disk[tz := SetEntry(disk[tz], k, z)];
          made := {t.Child(k)};
        }
      }
    }

    /** Mapping with creation, for the seven direct zones. */
    method CreateDirect(block: nat) returns (b: nat, ghost made: set<Path>)
      requires V().Ok() && |zmap| % MAP_BITS == 0 && block < 7
      modifies this`zmap, this`disk, this`zones, this`dirty
      ensures Created(old(V()), V(), block, b, made) && |zmap| == |old(zmap)|
    {
      hide Vol.At, Grown, Keeps, Lookup;
      ghost var v := V();
      made := EnsureRoot(Direct(block));
      b := zones[block];
      LookupAt(v, block);
      LookupAt(V(), block);
      RootAt(v, Direct(block));
      RootAt(V(), Direct(block));
    }

    /** Mapping with creation, through the single indirect table. */
    method CreateSingle(block: nat) returns (b: nat, ghost made: set<Path>)
      requires V().Ok() && |zmap| % MAP_BITS == 0 && 7 <= block < SINGLE
      modifies this`zmap, this`disk, this`zones, this`dirty
      ensures Created(old(V()), V(), block, b, made) && |zmap| == |old(zmap)|
    {
      hide Vol.At, Grown, Keeps, Lookup;
      ghost var v := V();
      made := EnsureRoot(Ind);
      LookupAt(v, block);
      LookupAt(V(), block);
      RootAt(v, Ind);
      RootAt(V(), Ind);
      if v.zones[7] == 0 {
        EmptyBare(v, Ind);
      }
      assert PathOf(block) == Ind.Child(block - 7);
      if zones[7] == 0 || !(first <= zones[7] < nzones) {
        b := 0;
        EmptyBare(V(), Ind);
        return;
      }
      ghost var v1 := V();
      ghost var more := EnsureEntry(Ind, zones[7], block - 7);
      ChildAt(V(), Ind, block - 7);
      b := Entry(disk[zones[7]], block - 7);
      ExtendsTrans(v, v1, V(), made, more);
      SameTreeOutside(v, v1, made, PathOf(block));
      LookupAt(V(), block);
      made := made + more;
    }

    /** Mapping with creation in the double indirect range: tables may be added, but no entry of
        an inner table is, so only blocks already mapped are found. */
    method CreateDouble(block: nat) returns (b: nat, ghost made: set<Path>)
      requires V().Ok() && |zmap| % MAP_BITS == 0 && SINGLE <= block < MAX_BLOCKS
      modifies this`zmap, this`disk, this`zones, this`dirty
      ensures V().Ok() && Extends(old(V()), V(), made) && |zmap| == |old(zmap)|
      ensures b == Lookup(V(), block) == Lookup(old(V()), block)
      ensures AllTables(made) && (b != 0 ==> made == {})
    {
      hide Vol.At, Grown, Keeps, Lookup;
      var outer, inner := (block - SINGLE) / ENTRIES, (block - SINGLE) % ENTRIES;
      ghost var v, p := V(), PathOf(block);
      LookupAt(v, block);
      DoubleParents(v, outer, inner);
      made := EnsureRoot(Dbl);
      RootAt(v, Dbl);
      RootAt(V(), Dbl);
      SameTreeOutside(v, V(), made, p);
      LookupAt(V(), block);
      if zones[8] == 0 || !(first <= zones[8] < nzones) {
        b := 0;
        return;
      }
      ghost var v1 := V();
      SameTreeOutside(v, v1, made, DblEntry(outer));
      ghost var more := EnsureEntry(Dbl, zones[8], outer);
      ChildAt(V(), Dbl, outer);
      ExtendsTrans(v, v1, V(), made, more);
      made := made + more;
      SameTreeOutside(v, V(), made, p);
      LookupAt(V(), block);
      var ind := Entry(disk[zones[8]], outer);
      if ind == 0 || !(first <= ind < nzones) {
        b := 0;
        return;
      }
      ChildAt(V(), DblEntry(outer), inner);
      b := Entry(disk[ind], inner);
    }

    /** `minix_bmap` without creation, on any volume. */
    method Find(block: nat) returns (b: nat)
      requires V().Shape()
      ensures b == Lookup(V(), block)
    {
      b := 0;
      if block < 7 {
        b := zones[block];
      } else if block < SINGLE {
        if zones[7] == 0 || !(first <= zones[7] < nzones) {
          return;
        }
        b := Entry(disk[zones[7]], block - 7);
      } else if block < MAX_BLOCKS {
        if zones[8] == 0 || !(first <= zones[8] < nzones) {
          return;
        }
        var ind := Entry(disk[zones[8]], (block - SINGLE) / ENTRIES);
        if ind == 0 || !(first <= ind < nzones) {
          return;
        }
        b := Entry(disk[ind], (block - SINGLE) % ENTRIES);
      }
      if b != 0 && !(first <= b < nzones) {
        b := 0;
      }
    }

    /** Reads as much of the range as lies inside the file. */
    method Read(offset: nat, len: nat) returns (data: seq<Byte>)
      requires V().Shape()
      ensures |data| == if offset >= size then 0 else if len > size - offset then size - offset else len
      ensures forall k :: 0 <= k < |data| ==> data[k] == Raw(V(), offset + k)
    {
      hide Lookup;
      data := [];
      if offset >= size {
        return;
      }
      var n := if len > size - offset then size - offset else len;
      while |data| < n
        invariant |data| <= n
        invariant forall k :: 0 <= k < |data| ==> data[k] == Raw(V(), offset + k)
        decreases n - |data|
      {
        var at := offset + |data|;
        var lblk, boff := at / BLOCK, at % BLOCK;
        var chunk := if BLOCK - boff > n - |data| then n - |data| else BLOCK - boff;
        var pblk := Find(lblk);
        if pblk == 0 {
          data := data + Zeros()[..chunk];
        } else {
          data := data + disk[pblk][boff..boff + chunk];
        }
        forall k | at <= k < at + chunk ensures k / BLOCK == lblk && k % BLOCK == boff + (k - at) {
        }
      }
    }

    /** `minix_bmap` with creation. */
    method Create(block: nat) returns (b: nat, ghost made: set<Path>)
      requires V().Ok() && |zmap| % MAP_BITS == 0
      modifies this`zmap, this`disk, this`zones, this`dirty
      ensures V().Ok() && |zmap| == |old(zmap)| && Extends(old(V()), V(), made)
      ensures b == Lookup(V(), block)
      ensures block < SINGLE ==> Created(old(V()), V(), block, b, made)
      ensures block >= SINGLE ==> b == Lookup(old(V()), block) && AllTables(made) && (b != 0 ==> made == {})
    {
      hide Vol.At, Grown, Keeps;
      if block < 7 {
        b, made := CreateDirect(block);
      } else if block < SINGLE {
        b, made := CreateSingle(block);
      } else if block < MAX_BLOCKS {
        b, made := CreateDouble(block);
      } else {
        GrownSelf(V());
        b, made := 0, {};
      }
    }

    /** The allocation phase of a write: maps the blocks `a` to `last`, recording those that
        were missing, until one cannot be mapped. */
    method MapRange(a: nat, last: nat) returns (ok: bool, created: seq<nat>, ghost made: set<Path>)
      requires V().Ok() && |zmap| % MAP_BITS == 0 && a <= last
      modifies this`zmap, this`disk, this`zones, this`dirty
      ensures V().Ok() && |zmap| == |old(zmap)| && Extends(old(V()), V(), made)
      ensures Lists(created, made)
      ensures ok ==> (forall l :: a <= l <= last ==> Lookup(V(), l) != 0) && made == Needed(old(V()), a, last + 1)
      ensures ok ==> !OutOfReach(old(V()), a, last)
      ensures !ok ==> OutOfReach(old(V()), a, last) || (made < Needed(old(V()), a, last + 1) && Full(V()))
    {
      hide Vol.At, Grown, Keeps, Lookup, Full, Lists, NewZero, PathOf, AllTables;
      ghost var v0 := V();
      GrownSelf(v0);
      ok, created, made := true, [], {};
      assert Lists(created, made) by {
        NothingListed();
      }
      var i := a;
      while i <= last
        invariant a <= i <= last + 1
        invariant V().Ok() && |zmap| == |v0.zmap| && Extends(v0, V(), made)
        invariant Lists(created, made) && (forall l :: l in created ==> l < i) && made == Needed(v0, a, i)
        invariant forall l :: a <= l < i ==> Lookup(V(), l) != 0
        invariant forall l :: a <= l < i && SINGLE <= l ==> Lookup(v0, l) != 0
      {
        var missing := Find(i);
        ghost var v, before := V(), made;
        var pblk, more := Create(i);
        ExtendsTrans(v0, v, V(), made, more);
        GrownLookup(v, V(), more);
        made := made + more;
        if i < SINGLE {
          NeedStep(v0, v, before, a, i);
          ListNext(created, before, v, i);
        } else {
          LookupAt(v0, i);
          LookupAt(v, i);
          assert pblk != 0 ==> made == before;
          if i < MAX_BLOCKS {
            NeededBelow(v0, a, i, i);
            SameTreeOutside(v0, v, before, PathOf(i));
          }
        }
        if pblk == 0 {
          ok := false;
          NeededMore(v0, a, i + 1, last + 1);
          ListTables(created, before, more);
          return;
        }
        if missing == 0 {
          created := created + [i];
        }
        i := i + 1;
      }
    }

    /** Frees the zone of an inode field and clears the field. */
    method DropRoot(p: Path)
      requires V().Ok() && p.Valid() && p.Root() && zones[p.Field()] != 0 && Bare(V(), p)
      modifies this`zmap, this`zones
      ensures Cleared(old(V()), V(), p)
    {
      hide Vol.At;
      ghost var v := V();
      RootAt(v, p);
      SafeFreeZone(zones[p.Field()]);
      zones := zones[p.Field() := 0];
      ClearedRoot(v, p);
    }

    /** Frees the zone in entry `k` of the table in zone `tz` and clears the entry. */
    method DropEntry(ghost t: Path, tz: nat, k: nat)
      requires V().Ok() && t.Valid() && t.Table() && V().At(t) == tz != 0 && k < ENTRIES
      requires V().At(t.Child(k)) != 0 && Bare(V(), t.Child(k))
      modifies this`zmap, this`disk
      ensures Cleared(old(V()), V(), t.Child(k))
    {
      hide Vol.At, SetEntry, Entry;
      ghost var v := V();
      ChildAt(v, t, k);
      SafeFreeZone(Entry(disk[tz], k));
      disk := disk[tz := SetEntry(disk[tz], k, 0)];
      ClearedEntry(v, t, k);
    }

    /** `minix_clear_block_mapping`. */
    method ClearBlockMapping(lblk: nat)
      requires V().Ok() && lblk < MAX_BLOCKS
      modifies this`zmap, this`disk, this`zones
      ensures Cleared(old(V()), V(), PathOf(lblk))
    {
      hide Vol.At, Cleared, SetEntry, Entry;
      ghost var v := V();
      if v.At(PathOf(lblk)) == 0 {
        AlreadyClear(v, PathOf(lblk));
      }
      if lblk < 7 {
        RootAt(v, Direct(lblk));
        if zones[lblk] != 0 {
          DropRoot(Direct(lblk));
        }
      } else if lblk < SINGLE {
        RootAt(v, Ind);
        EntryOf(v, Ind, lblk - 7);
        if zones[7] == 0 {
          return;
        }
        if Entry(disk[zones[7]], lblk - 7) != 0 {
          DropEntry(Ind, zones[7], lblk - 7);
        }
      } else {
        var outer, inner := (lblk - SINGLE) / ENTRIES, (lblk - SINGLE) % ENTRIES;
        RootAt(v, Dbl);
        EntryOf(v, Dbl, outer);
        EntryOf(v, DblEntry(outer), inner);
        if zones[8] != 0 {
          var ind := Entry(disk[zones[8]], outer);
          if ind == 0 {
            return;
          }
          if Entry(disk[ind], inner) != 0 {
            DropEntry(DblEntry(outer), ind, inner);
          }
        }
      }
    }

    /** `minix_indirect_empty`. */
    method IndirectEmpty(zone: nat) returns (empty: bool)
      requires V().Shape() && (zone == 0 || V().Data(zone))
      ensures empty <==> zone == 0 || forall i :: 0 <= i < ENTRIES ==> Entry(disk[zone], i) == 0
    {
      empty := true;
      if zone == 0 {
        return;
      }
      var i := 0;
      while i < ENTRIES
        invariant 0 <= i <= ENTRIES
        invariant empty && forall k :: 0 <= k < i ==> Entry(disk[zone], k) == 0
      {
        if Entry(disk[zone], i) != 0 {
          empty := false;
          break;
        }
        i := i + 1;
      }
    }

    /** Drops a new, empty table held in an inode field. */
    method PruneRoot(p: Path, ghost v0: Vol, ghost b: map<nat, Block>, ghost c: set<Path>)
      returns (ghost left: set<Path>)
      requires Undoing(v0, b, V(), c)
      requires (p == Ind || p == Dbl) && zones[p.Field()] != 0 && forall k :: 0 <= k < ENTRIES ==> p.Child(k) !in c
      modifies this`zmap, this`zones
      ensures left == c - {p} && Undoing(v0, b, V(), left) && |zmap| == |old(zmap)|
      ensures forall q: Path :: q.Valid() && q != p ==> V().At(q) == old(V()).At(q)
    {
      hide Vol.At, Grown, Keeps, Entry;
      ghost var v := V();
      RootAt(v, p);
      TableUsed(v, p);
      PruneTest(v0, v, c, p);
      left := c - {p};
      var empty := IndirectEmpty(zones[p.Field()]);
      if empty {
        DropRoot(p);
        DetachCleared(v0, b, v, c, V(), p);
      } else {
        assert left == c;
      }
    }

    /** Drops the new, empty inner tables of the double indirect table. */
    method PruneInner(ghost v0: Vol, ghost b: map<nat, Block>, ghost c: set<Path>) returns (ghost left: set<Path>)
      requires Undoing(v0, b, V(), c)
      requires zones[8] != 0 && c <= {Dbl} + Inner()
      modifies this`zmap, this`disk
      ensures left == c * {Dbl} && Undoing(v0, b, V(), left) && |zmap| == |old(zmap)|
    {
      hide Vol.At, Grown, Keeps, Entry, Cleared, Inner;
      left := c;
      InnerPaths();
      RootAt(V(), Dbl);
      var tz, i := zones[8], 0;
      while i < ENTRIES
        invariant 0 <= i <= ENTRIES && |zmap| == |old(zmap)|
        invariant Undoing(v0, b, V(), left) && V().At(Dbl) == tz
        invariant left <= c && (Dbl in left <==> Dbl in c) && forall j :: 0 <= j < i ==> DblEntry(j) !in left
      {
        ghost var v := V();
        TableUsed(v, Dbl);
        EntryOf(v, Dbl, i);
        SameTreeOutside(v0, v, left, DblEntry(i));
        var ind := Entry(disk[tz], i);
        var empty := ind != 0;
        if ind != 0 {
          TableUsed(v, DblEntry(i));
          PruneTest(v0, v, left, DblEntry(i));
          empty := IndirectEmpty(ind);
        }
        if empty {
          DropEntry(Dbl, tz, i);
          DetachCleared(v0, b, v, left, V(), DblEntry(i));
          left := left - {DblEntry(i)};
        }
        i := i + 1;
      }
      assert left == c * {Dbl};
    }

    /** `minix_prune_empty_indirects`: every table added since `v0` goes, and no other. */
    method Prune(ghost v0: Vol, ghost b: map<nat, Block>, ghost c: set<Path>)
      requires Undoing(v0, b, V(), c) && AllTables(c)
      modifies this`zmap, this`disk, this`zones
      ensures Undoing(v0, b, V(), {}) && |zmap| == |old(zmap)|
    {
      hide Vol.At, Grown, Keeps, Entry, Inner;
      ghost var left := c;
      InnerPaths();
      TablePaths(v0, V(), c);
      RootAt(V(), Ind);
      SameTreeOutside(v0, V(), left, Ind);
      if zones[7] != 0 {
        left := PruneRoot(Ind, v0, b, left);
      }
      RootAt(V(), Dbl);
      if zones[8] == 0 {
        NoDoubleTable(v0, V(), left);
        return;
      }
      left := PruneInner(v0, b, left);
      RootAt(V(), Dbl);
      SameTreeOutside(v0, V(), left, Dbl);
      if zones[8] != 0 {
        left := PruneRoot(Dbl, v0, b, left);
      }
      assert left == {};
    }

    /** The copying loop of a write: stops early, having copied `n` bytes, when the buffer for
        chunk number `bad` cannot be read. */
    method CopyIn(offset: nat, data: seq<Byte>, bad: Option<nat>) returns (n: nat)
      requires V().Ok() && MappedAt(V(), offset, |data|)
      modifies this`disk
      ensures V().Ok() && SameTree(old(V()), V()) && n <= |data| && (bad.None? ==> n == |data|)
      ensures Overwritten(old(V()), V(), offset, data[..n])
      ensures Foreign(old(V()), V())
    {
      hide Vol.At, Lookup, SameTree, Overwritten, Foreign, MappedAt;
      ghost var v := V();
      n := 0;
      var chunks := 0;
      Unwritten(v, offset);
      assert data[..0] == [];
      while n < |data|
        invariant V().Ok() && SameTree(v, V()) && n <= |data|
        invariant Overwritten(v, V(), offset, data[..n]) && Foreign(v, V())
        decreases |data| - n
      {
        var at := offset + n;
        var lblk, boff := at / BLOCK, at % BLOCK;
        var chunk := if BLOCK - boff > |data| - n then |data| - n else BLOCK - boff;
        StillMapped(v, V(), offset, |data|, at);
        var pblk := Find(lblk);
        if bad == Some(chunks) {
          return;
        }
        ghost var before := V();
        PutData(before, at, data[n..n + chunk]);
        disk := disk[pblk := Put(disk[pblk], boff, data[n..n + chunk])];
        assert data[..n] + data[n..n + chunk] == data[..n + chunk];
        OverwrittenMore(v, before, V(), offset, data[..n], data[n..n + chunk]);
        n := n + chunk;
        chunks := chunks + 1;
      }
      assert data[..n] == data;
    }

    /** Undoes the allocations of a failed write. */
    method Rollback(created: seq<nat>, ghost v0: Vol, ghost b: map<nat, Block>, ghost made: set<Path>)
      requires Undoing(v0, b, V(), made) && Lists(created, made)
      modifies this`zmap, this`disk, this`zones
      ensures Undoing(v0, b, V(), {}) && |zmap| == |old(zmap)|
    {
      hide Vol.At, Undoing, Cleared, Lists;
      ghost var left := made;
      var i := 0;
      assert created[0..] == created;
      while i < |created|
        invariant 0 <= i <= |created| && |zmap| == |old(zmap)|
        invariant Undoing(v0, b, V(), left) && Lists(created[i..], left)
      {
        ghost var v := V();
        ListRest(created[i..], left);
        UndoingOk(v0, b, v, left);
        ClearBlockMapping(created[i]);
        DetachCleared(v0, b, v, left, V(), PathOf(created[i]));
        left := left - {PathOf(created[i])};
        assert created[i..][1..] == created[i + 1..];
        i := i + 1;
      }
      ListedTables(left);
      assert created[i..] == [];
      Prune(v0, b, left);
    }

    /** The body of a write once its arguments are accepted: map, copy, undo on failure. */
    method WriteRange(offset: nat, data: seq<Byte>, bad: Option<nat>, now: nat) returns (r: Outcome)
      requires V().Ok() && NoEmptyTables(V()) && |zmap| % MAP_BITS == 0 && data != []
      modifies this
      ensures V().Ok() && NoEmptyTables(V()) && |zmap| == |old(zmap)|
      ensures r == Wrote(|data|) || r == Failed(ENOSPC) || (r == Failed(EIO) && bad.Some?)
      ensures r == Failed(ENOSPC) <==> NoRoom(old(V()), offset, |data|)
      ensures r.Failed? ==> size == old(size) && time == old(time) && SameTree(old(V()), V())
      ensures r == Failed(ENOSPC) ==> forall y :: old(V()).Used(y) ==> disk[y] == old(disk)[y]
      ensures r == Failed(EIO) ==> Foreign(old(V()), V()) && forall x :: 0 <= x < size ==>
                Raw(V(), x) == Raw(old(V()), x)
      ensures r.Wrote? ==> Overwritten(old(V()), V(), offset, data) && Foreign(old(V()), V())
      ensures r.Wrote? ==> size == (if offset + |data| > old(size) then offset + |data| else old(size)) && time == now
      ensures r.Wrote? ==>
        Grown(old(V()), V(), Needed(old(V()), offset / BLOCK, (offset + |data| - 1) / BLOCK + 1))
    {
      hide Vol.At, Lookup, Lists, SameTree, Foreign, Overwritten, NoEmptyTables, Extends, Undoing, NoRoom, MappedAt,
          Grown,
        Raw, Full, OutOfReach;
      ghost var v0 := V();
      var len := |data|;
      var backup := seq(len, i => 0 as Byte);
      if offset < size {
        var bytes := Read(offset, len);
        backup := bytes + backup[|bytes|..];
      }
      var ok, created, made := MapRange(offset / BLOCK, (offset + len - 1) / BLOCK);
      ghost var v1 := V();
      RoomCounted(v0, v1, offset, len, ok, made);
      if !ok {
        UndoExtends(v0, v1, made);
        Rollback(created, v0, v0.disk, made);
        Undone(v0, v0.disk, V());
        dirty := true;
        return Failed(ENOSPC);
      }
      MappedRange(v1, offset, len);
      var n := CopyIn(offset, data, bad);
      if n < len {
        Abandon(offset, data, n, backup[..n], created, v0, v1, made);
        dirty := true;
        return Failed(EIO);
      }
      assert data[..n] == data;
      Success(v0, v1, V(), made, offset / BLOCK, (offset + len - 1) / BLOCK + 1, offset, data);
      if offset + len > size {
        size := offset + len;
      }
      time := now;
      dirty := true;
      r := Wrote(len);
    }

    /** A write that stopped after copying `n` bytes: the old bytes go back, then the zones. */
    method Abandon(offset: nat, data: seq<Byte>, n: nat, backup: seq<Byte>, created: seq<nat>,
                   ghost v0: Vol, ghost v1: Vol, ghost made: set<Path>)
      requires v0.Ok() && NoEmptyTables(v0) && Extends(v0, v1, made) && Lists(created, made)
      requires v1.Ok() && V().Ok() && SameTree(v1, V()) && n <= |data| && Overwritten(v1, V(), offset, data[..n])
      requires Foreign(v1, V())
      requires MappedAt(v1, offset, |data|) && |backup| == n
      requires forall k :: 0 <= k < n && offset + k < size ==> backup[k] == Raw(v0, offset + k)
      modifies this`zmap, this`disk, this`zones
      ensures V().Ok() && NoEmptyTables(V()) && |zmap| == |old(zmap)| && SameTree(v0, V()) && Foreign(v0, V())
      ensures forall x :: 0 <= x < size ==> Raw(V(), x) == Raw(v0, x)
    {
      hide Vol.At, Lookup, Lists, SameTree, Foreign, Overwritten, NoEmptyTables, Extends, Undoing, MappedAt, Grown, Raw;
      ghost var v2 := V();
      MappedStill(v1, v2, offset, n, |data|);
      var _ := CopyIn(offset, backup, None);
      assert backup[..n] == backup;
      ghost var v3 := V();
      SameTreeTrans(v1, v2, v3);
      UndoAfter(v0, v1, v3, made);
      SameZmap(v2, v3);
      Rollback(created, v0, v3.disk, made);
      Undone(v0, v3.disk, V());
      IoFailure(v0, v1, v2, v3, V(), made, size, offset, data[..n], backup);
    }

    /** `minix_write`. `noMemory` is a failed kmalloc, `bad` the chunk whose buffer cannot be
        read during the copy, `now` the clock. */
    method Write(offset: nat, data: seq<Byte>, noMemory: bool, bad: Option<nat>, now: nat) returns (r: Outcome)
      requires V().Ok() && NoEmptyTables(V()) && |zmap| % MAP_BITS == 0 && offset < U64
      modifies this
      ensures V().Ok() && NoEmptyTables(V()) && |zmap| == |old(zmap)|
      ensures r == Failed(EINVAL) <==> data != [] && offset + Capped(data) > 0xffff_ffff
      ensures r == Failed(ENOMEM) <==> data != [] && offset + Capped(data) <= 0xffff_ffff && noMemory
      ensures r == Failed(ENOSPC) <==>
        data != [] && offset + Capped(data) <= 0xffff_ffff && !noMemory && NoRoom(old(V()), offset, Capped(data))
      ensures r == Failed(EIO) ==> bad.Some?
      ensures r.Failed? ==> r.e in {EINVAL, ENOMEM, ENOSPC, EIO}
      ensures r.Failed? ==> size == old(size) && time == old(time) && SameTree(old(V()), V())
      ensures r.Failed? && r.e != EIO ==> forall y :: old(V()).Used(y) ==> disk[y] == old(disk)[y]
      ensures r == Failed(EIO) ==> Foreign(old(V()), V()) && forall x :: 0 <= x < size ==>
                Raw(V(), x) == Raw(old(V()), x)
      ensures r.Wrote? ==> r.n == Capped(data)
      ensures r.Wrote? ==> Overwritten(old(V()), V(), offset, data[..Capped(data)]) && Foreign(old(V()), V())
      ensures r.Wrote? && data != [] ==>
                size == (if offset + r.n > old(size) then offset + r.n else old(size)) && time == now
      ensures r.Wrote? && data != [] ==>
        Grown(old(V()), V(), Needed(old(V()), offset / BLOCK, (offset + r.n - 1) / BLOCK + 1))
    {
      hide Vol.At, Lookup, SameTree, Foreign, Overwritten, NoEmptyTables, NoRoom, Grown, Raw, Needed;
      ghost var v0 := V();
      SameVol(v0);
      if |data| == 0 {
        Unwritten(v0, offset);
        assert data[..0] == [];
        return Wrote(0);
      }
      var len := if |data| > WRITE_MAX then WRITE_MAX else |data|;
      if offset + len >= U64 {
        return Failed(EINVAL);
      }
      if offset + len > 0xffff_ffff {
        return Failed(EINVAL);
      }
      if noMemory {
        return Failed(ENOMEM);
      }
      r := WriteRange(offset, data[..len], bad, now);
    }
  }
}
