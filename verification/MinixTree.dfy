/** The zone tree of a MINIX v1 file: seven direct zones, a single and a double indirect table
    (kernel/fs/minix/inode.c:85-191). */
module MinixTree {
  import opened MinixBlocks

  /** The places that hold a zone number: inode fields and table entries. */
  datatype Path = Direct(i: nat) | Ind | IndEntry(i: nat) | Dbl | DblEntry(i: nat) | Leaf(i: nat, j: nat)
  {
    predicate Valid() {
      match this
      case Direct(i) => i < 7
      case Ind => true
      case IndEntry(i) => i < ENTRIES
      case Dbl => true
      case DblEntry(i) => i < ENTRIES
      case Leaf(i, j) => i < ENTRIES && j < ENTRIES
    }

    predicate Root() {
      Direct? || Ind? || Dbl?
    }

    predicate Table() {
      Ind? || Dbl? || DblEntry?
    }

    /** The field of `i_zone` a root lives in. */
    function Field(): (f: nat)
      requires Valid() && Root()
      ensures f < 9
    {
      match this
      case Direct(i) => i
      case Ind => 7
      case Dbl => 8
    }

    /** The table an entry lives in, and its index there. */
    function Parent(): Path
      requires !Root()
    {
      match this
      case IndEntry(_) => Ind
      case DblEntry(_) => Dbl
      case Leaf(i, _) => DblEntry(i)
    }

    function Index(): (i: nat)
      requires Valid() && !Root()
      ensures i < ENTRIES
    {
      match this
      case IndEntry(i) => i
      case DblEntry(i) => i
      case Leaf(_, j) => j
    }

    function Child(k: nat): (c: Path)
      requires Table()
      ensures !c.Root() && c.Parent() == this
      ensures Valid() && k < ENTRIES ==> c.Valid() && c.Index() == k
    {
      match this
      case Ind => IndEntry(k)
      case Dbl => DblEntry(k)
      case DblEntry(i) => Leaf(i, k)
    }

    function Depth(): nat {
      match this
      case IndEntry(_) => 1
      case DblEntry(_) => 1
      case Leaf(_, _) => 2
      case _ => 0
    }
  }

  /** A mounted volume seen through its buffer cache, and the zone fields of one inode. */
  datatype Vol = Vol(first: nat, nzones: nat, zmap: seq<bool>, disk: map<nat, Block>, zones: seq<nat>)
  {
    /** Every data zone can be read and zone numbers fit 16 bits. */
    ghost predicate Shape() {
      && 0 < first <= nzones < 0x10000 && |zones| == 9
      && (forall z :: first <= z < nzones ==> z in disk)
    }

    predicate Data(z: nat) {
      first <= z < nzones
    }

    /** The zone's bit is set in the zone bitmap (bit 0 is reserved). */
    predicate Used(z: nat) {
      Data(z) && z - first + 1 < |zmap| && zmap[z - first + 1]
    }

    /** The zone stored at a path; zero for holes and under missing tables. */
    ghost function At(p: Path): nat
      requires Shape() && p.Valid()
      decreases p.Depth()
    {
      if p.Root() then zones[p.Field()]
      else
        var t := At(p.Parent());
        if Data(t) then Entry(disk[t], p.Index()) else 0
    }

    /** Every stored zone is a data zone marked used, and no zone is stored twice. */
    ghost predicate Ok() {
      && Shape()
      && (forall p: Path :: p.Valid() && At(p) != 0 ==> Used(At(p)))
      && (forall p: Path, q: Path :: p.Valid() && q.Valid() && At(p) == At(q) != 0 ==> p == q)
    }
  }

  /** `w` stores `z` at `c` and agrees with `v` at every other path. */
  ghost predicate Sets(v: Vol, w: Vol, c: Path, z: nat)
    requires v.Shape() && w.Shape()
  {
    forall p: Path :: p.Valid() ==> w.At(p) == if p == c then z else v.At(p)
  }

  /** The zone is zero-filled and stored nowhere. */
  ghost predicate Fresh(v: Vol, z: nat)
    requires v.Shape()
  {
    && v.Data(z) && v.disk[z] == Zeros()
    && forall p: Path :: p.Valid() ==> v.At(p) != z
  }

  /** Nothing hangs below the path. */
  ghost predicate Bare(v: Vol, c: Path)
    requires v.Shape()
  {
    forall p: Path :: p.Valid() && !p.Root() && p.Parent() == c ==> v.At(p) == 0
  }

  lemma {:induction false} SetRootAt(v: Vol, c: Path, z: nat, p: Path)
    requires v.Ok() && c.Valid() && c.Root() && (z == 0 || Fresh(v, z)) && Bare(v, c) && p.Valid()
    ensures v.(zones := v.zones[c.Field() := z]).At(p) == if p == c then z else v.At(p)
    decreases p.Depth()
  {
    var w := v.(zones := v.zones[c.Field() := z]);
    if !p.Root() {
      SetRootAt(v, c, z, p.Parent());
      if p.Parent() == c {
        ZeroEntries();
      }
    }
  }

  /** Writing an inode field. */
  lemma SetRoot(v: Vol, c: Path, z: nat)
    requires v.Ok() && c.Valid() && c.Root() && (z == 0 || Fresh(v, z)) && Bare(v, c)
    ensures Sets(v, v.(zones := v.zones[c.Field() := z]), c, z)
  {
    forall p: Path | p.Valid() ensures v.(zones := v.zones[c.Field() := z]).At(p) == if p == c then z else v.At(p) {
      SetRootAt(v, c, z, p);
    }
  }

  lemma {:induction false} SetChildAt(v: Vol, t: Path, k: nat, z: nat, p: Path)
    requires v.Ok() && t.Valid() && t.Table() && v.At(t) != 0 && k < ENTRIES && z < 0x10000
    requires (z == 0 || Fresh(v, z)) && Bare(v, t.Child(k)) && p.Valid()
    ensures v.Used(v.At(t))
    ensures v.(disk := v.disk[v.At(t) := SetEntry(v.disk[v.At(t)], k, z)]).At(p) ==
            if p == t.Child(k) then z else v.At(p)
    decreases p.Depth()
  {
    if !p.Root() {
      SetChildAt(v, t, k, z, p.Parent());
      var y := v.At(p.Parent());
      if p.Parent() == t.Child(k) {
        ZeroEntries();
        assert v.At(t) != z;
      } else if v.Data(y) && y == v.At(t) {
        assert p.Parent() == t;
      }
    }
  }

  /** Writing a table entry. */
  lemma SetChild(v: Vol, t: Path, k: nat, z: nat)
    requires v.Ok() && t.Valid() && t.Table() && v.At(t) != 0 && k < ENTRIES && z < 0x10000
    requires (z == 0 || Fresh(v, z)) && Bare(v, t.Child(k))
    ensures v.Used(v.At(t))
    ensures Sets(v, v.(disk := v.disk[v.At(t) := SetEntry(v.disk[v.At(t)], k, z)]), t.Child(k), z)
  {
    forall p: Path | p.Valid()
      ensures v.(disk := v.disk[v.At(t) := SetEntry(v.disk[v.At(t)], k, z)]).At(p) ==
              if p == t.Child(k) then z else v.At(p)
    {
      SetChildAt(v, t, k, z, p);
    }
    assert t.Child(k).Valid();
    SetChildAt(v, t, k, z, t);
  }

  lemma {:induction false} OtherBlockAt(v: Vol, y: nat, b: Block, p: Path)
    requires v.Shape() && v.Data(y) && p.Valid()
    requires forall t: Path :: t.Valid() && t.Table() ==> v.At(t) != y
    ensures v.(disk := v.disk[y := b]).At(p) == v.At(p)
    decreases p.Depth()
  {
    if !p.Root() {
      OtherBlockAt(v, y, b, p.Parent());
      assert p.Parent().Table() && p.Parent().Valid();
    }
  }

  /** Rewriting a block that is no table of the file. */
  lemma OtherBlock(v: Vol, y: nat, b: Block)
    requires v.Shape() && v.Data(y)
    requires forall t: Path :: t.Valid() && t.Table() ==> v.At(t) != y
    ensures forall p: Path :: p.Valid() ==> v.(disk := v.disk[y := b]).At(p) == v.At(p)
  {
    forall p: Path | p.Valid() ensures v.(disk := v.disk[y := b]).At(p) == v.At(p) {
      OtherBlockAt(v, y, b, p);
    }
  }

  lemma {:induction false} ZmapAt(v: Vol, zmap: seq<bool>, p: Path)
    requires v.Shape() && p.Valid()
    ensures v.(zmap := zmap).At(p) == v.At(p)
    decreases p.Depth()
  {
    if !p.Root() {
      ZmapAt(v, zmap, p.Parent());
    }
  }

  // ------------------------------------------------------------------------
  // Volumes that differ by newly stored zones
  // ------------------------------------------------------------------------

  function Bit(v: Vol, z: nat): int {
    z - v.first + 1
  }

  /** Bit `k` belongs to the zone stored at one of the paths. */
  ghost predicate BitOf(v: Vol, c: set<Path>, k: int)
    requires v.Shape()
  {
    exists p: Path :: p in c && p.Valid() && Bit(v, v.At(p)) == k
  }

  ghost predicate NewAt(v0: Vol, v: Vol, p: Path)
    requires v0.Shape() && v.Shape() && p.Valid()
  {
    && v0.At(p) == 0 && v.At(p) != 0
    && 0 < Bit(v, v.At(p)) < |v0.zmap| && !v0.zmap[Bit(v, v.At(p))]
  }

  /** From `v0` to `v`, zones not used before are stored at the paths of `c`, marked used, and
      nothing else changes in the tree or the bitmap. */
  ghost predicate Grown(v0: Vol, v: Vol, c: set<Path>) {
    && v0.Shape() && v.Shape() && v.first == v0.first && v.nzones == v0.nzones && |v.zmap| == |v0.zmap|
    && (forall p: Path :: p in c ==> p.Valid() && NewAt(v0, v, p))
    && (forall p: Path :: p.Valid() && p !in c ==> v.At(p) == v0.At(p))
    && (forall k :: 0 <= k < |v.zmap| ==> (v.zmap[k] <==> v0.zmap[k] || BitOf(v, c, k)))
  }

  /** The zone is stored at no table path. */
  ghost predicate Plain(v: Vol, y: nat)
    requires v.Shape()
  {
    forall t: Path :: t.Valid() && t.Table() ==> v.At(t) != y
  }

  /** Blocks used in `v0`, tables apart, have the bytes `b` in `v`. */
  ghost predicate Keeps(v0: Vol, b: map<nat, Block>, v: Vol) {
    && v0.Shape() && v.Shape() && v.first == v0.first && v.nzones == v0.nzones
    && forall y :: v0.Used(y) && Plain(v0, y) ==> y in b && v.disk[y] == b[y]
  }

  /** Data blocks stored since `v0` are zero-filled. */
  ghost predicate NewZero(v0: Vol, v: Vol)
    requires v0.Shape() && v.Shape()
  {
    forall p: Path :: p.Valid() && !p.Table() && v0.At(p) == 0 && v.At(p) != 0 ==>
      v.Data(v.At(p)) && v.disk[v.At(p)] == Zeros()
  }

  /** From `v0` to `v` exactly the paths in `c` gained zones; no other used byte changed. */
  ghost predicate Extends(v0: Vol, v: Vol, c: set<Path>) {
    v.Ok() && Grown(v0, v, c) && Keeps(v0, v0.disk, v) && NewZero(v0, v)
  }

  lemma GrownSelf(v: Vol)
    requires v.Ok()
    ensures Extends(v, v, {})
  {
  }

  /** Marking a zone used and zero-filling it (`minix_alloc_data_zone`). */
  ghost function Reserved(v: Vol, z: nat): Vol
    requires v.Data(z) && Bit(v, z) < |v.zmap|
  {
    v.(zmap := v.zmap[Bit(v, z) := true], disk := v.disk[z := Zeros()])
  }

  lemma ReservedAt(v: Vol, z: nat)
    requires v.Ok() && v.Data(z) && Bit(v, z) < |v.zmap| && !v.zmap[Bit(v, z)]
    ensures Reserved(v, z).Shape()
    ensures forall p: Path :: p.Valid() ==> Reserved(v, z).At(p) == v.At(p) && v.At(p) != z
  {
    forall p: Path | p.Valid() ensures v.At(p) != z {
      assert v.At(p) != 0 ==> v.Used(v.At(p));
    }
    OtherBlock(v, z, Zeros());
    var v1 := v.(disk := v.disk[z := Zeros()]);
    forall p: Path | p.Valid() ensures Reserved(v, z).At(p) == v.At(p) {
      ZmapAt(v1, Reserved(v, z).zmap, p);
    }
  }

  lemma ReservedOk(v: Vol, z: nat)
    requires v.Ok() && v.Data(z) && Bit(v, z) < |v.zmap| && !v.zmap[Bit(v, z)]
    ensures Reserved(v, z).Ok() && Fresh(Reserved(v, z), z)
    ensures forall p: Path :: p.Valid() ==> Reserved(v, z).At(p) == v.At(p)
  {
    hide Vol.At;
    ReservedAt(v, z);
    var v1 := Reserved(v, z);
    forall p: Path | p.Valid() && v1.At(p) != 0 ensures v1.Used(v1.At(p)) {
      assert v.Used(v.At(p));
    }
  }

  /** A reserved zone stored at an empty path. */
  lemma Attach(v0: Vol, v: Vol, c: set<Path>, w: Vol, p: Path, z: nat)
    requires v.Ok() && v.Data(z) && Bit(v, z) < |v.zmap| && !v.zmap[Bit(v, z)]
    requires Grown(v0, v, c) && p.Valid() && v.At(p) == 0
    requires w.Shape() && w.first == v.first && w.nzones == v.nzones && w.zmap == v.zmap[Bit(v, z) := true]
    requires Reserved(v, z).Shape() && Sets(Reserved(v, z), w, p, z)
    ensures w.Ok() && Grown(v0, w, c + {p})
  {
    hide Vol.At;
    ReservedAt(v, z);
    assert forall q: Path :: q.Valid() ==> w.At(q) == if q == p then z else v.At(q);
    AttachOk(v, w, p, z);
    var c' := c + {p};
    assert p !in c;
    forall q: Path | q in c' ensures q.Valid() && NewAt(v0, w, q) {
      assert q != p ==> NewAt(v0, v, q);
    }
    forall k | 0 <= k < |w.zmap| ensures w.zmap[k] <==> v0.zmap[k] || BitOf(w, c', k) {
      AttachBit(v, c, w, p, z, k);
    }
  }

  lemma AttachOk(v: Vol, w: Vol, p: Path, z: nat)
    requires v.Ok() && v.Data(z) && Bit(v, z) < |v.zmap|
    requires p.Valid() && w.Shape() && w.first == v.first && w.nzones == v.nzones && w.zmap == v.zmap[Bit(v, z) := true]
    requires forall q: Path :: q.Valid() ==> v.At(q) != z && w.At(q) == if q == p then z else v.At(q)
    ensures w.Ok()
  {
    hide Vol.At;
    forall q: Path | q.Valid() && w.At(q) != 0 ensures w.Used(w.At(q)) {
      assert q != p ==> v.Used(v.At(q));
    }
  }

  lemma AttachBit(v: Vol, c: set<Path>, w: Vol, p: Path, z: nat, k: int)
    requires v.Shape() && w.Shape() && w.first == v.first && p !in c && p.Valid()
    requires forall q: Path :: q.Valid() ==> w.At(q) == if q == p then z else v.At(q)
    ensures BitOf(w, c + {p}, k) <==> BitOf(v, c, k) || k == Bit(v, z)
  {
    hide Vol.At;
    if BitOf(v, c, k) {
      var q: Path :| q in c && q.Valid() && Bit(v, v.At(q)) == k;
      assert q in c + {p} && Bit(w, w.At(q)) == k;
    }
    if k == Bit(v, z) {
      assert p in c + {p} && Bit(w, w.At(p)) == k;
    }
    if BitOf(w, c + {p}, k) {
      var q: Path :| q in c + {p} && q.Valid() && Bit(w, w.At(q)) == k;
      assert q != p ==> q in c && Bit(v, v.At(q)) == k;
    }
  }

  /** A newly stored zone taken out again and its bit cleared. */
  lemma Detach(v0: Vol, v: Vol, c: set<Path>, w: Vol, p: Path)
    requires v.Ok() && Grown(v0, v, c) && p in c
    requires w.Shape() && w.first == v.first && w.nzones == v.nzones && 0 <= Bit(v, v.At(p)) < |v.zmap|
    requires w.zmap == v.zmap[Bit(v, v.At(p)) := false]
    requires Sets(v, w, p, 0)
    ensures w.Ok() && Grown(v0, w, c - {p})
  {
    hide Vol.At;
    var z, c' := v.At(p), c - {p};
    forall q: Path | q.Valid() && w.At(q) != 0 ensures w.Used(w.At(q)) {
      assert v.Used(v.At(q)) && v.At(q) != z;
    }
    forall q: Path | q in c' ensures q.Valid() && NewAt(v0, w, q) {
      assert NewAt(v0, v, q);
    }
    assert NewAt(v0, v, p);
    forall k | 0 <= k < |w.zmap| ensures w.zmap[k] <==> v0.zmap[k] || BitOf(w, c', k) {
      DetachBit(v, c, w, p, k);
    }
  }

  lemma DetachBit(v: Vol, c: set<Path>, w: Vol, p: Path, k: int)
    requires v.Ok() && w.Shape() && w.first == v.first && p in c
    requires (forall q: Path :: q in c ==> q.Valid() && v.At(q) != 0)
    requires Sets(v, w, p, 0)
    ensures BitOf(w, c - {p}, k) <==> BitOf(v, c, k) && k != Bit(v, v.At(p))
  {
    hide Vol.At;
    if BitOf(v, c, k) && k != Bit(v, v.At(p)) {
      var q: Path :| q in c && q.Valid() && Bit(v, v.At(q)) == k;
      assert q in c - {p} && Bit(w, w.At(q)) == k;
    }
    if BitOf(w, c - {p}, k) {
      var q: Path :| q in c - {p} && q.Valid() && Bit(w, w.At(q)) == k;
      assert q in c && Bit(v, v.At(q)) == k;
    }
  }

  /** Changing only unused blocks and tables keeps all other used bytes. */
  lemma DataKept(v0: Vol, b: map<nat, Block>, v: Vol, c: set<Path>, w: Vol)
    requires Grown(v0, v, c) && Keeps(v0, b, v) && Keeps(v, v.disk, w)
    ensures Keeps(v0, b, w)
  {
    hide Vol.At;
    forall y | v0.Used(y) && Plain(v0, y) ensures w.disk[y] == b[y] {
      forall t: Path | t.Valid() && t.Table() ensures v.At(t) != y {
        assert t in c ==> NewAt(v0, v, t);
      }
      assert v.Used(y);
    }
  }

  /** With nothing newly stored left, the volume is what it was on every used block. */
  lemma Restored(v0: Vol, b: map<nat, Block>, v: Vol)
    requires v0.Ok() && Grown(v0, v, {}) && Keeps(v0, b, v)
    ensures v.zones == v0.zones && v.zmap == v0.zmap
    ensures forall y :: v0.Used(y) ==> v.disk[y] == if Plain(v0, y) then b[y] else v0.disk[y]
  {
    forall f | 0 <= f < 9 ensures v.zones[f] == v0.zones[f] {
      var p := if f < 7 then Direct(f) else if f == 7 then Ind else Dbl;
      assert v.At(p) == v0.At(p);
    }
    forall k | 0 <= k < |v.zmap| ensures v.zmap[k] == v0.zmap[k] {
      assert !BitOf(v, {}, k);
    }
    forall y | v0.Used(y) && !Plain(v0, y) ensures v.disk[y] == v0.disk[y] {
      var t: Path :| t.Valid() && t.Table() && v0.At(t) == y;
      forall i | 0 <= i < ENTRIES ensures Entry(v.disk[y], i) == Entry(v0.disk[y], i) {
        assert v.At(t.Child(i)) == v0.At(t.Child(i)) && v.At(t) == y;
      }
      SameEntries(v.disk[y], v0.disk[y]);
    }
  }

  lemma GrownTrans(u: Vol, v: Vol, w: Vol, c: set<Path>, d: set<Path>)
    requires Grown(u, v, c) && Grown(v, w, d) && v.Ok()
    ensures Grown(u, w, c + d) && c !! d
  {
    hide Vol.At;
    assert forall p: Path :: p in c ==> NewAt(u, v, p) && v.At(p) != 0;
    assert forall p: Path :: p in d ==> NewAt(v, w, p) && v.At(p) == 0;
    forall p: Path | p in c + d ensures p.Valid() && NewAt(u, w, p) {
      assert p in c ==> NewAt(u, v, p);
      assert p in d ==> NewAt(v, w, p);
    }
    forall k | 0 <= k < |w.zmap| ensures w.zmap[k] <==> u.zmap[k] || BitOf(w, c + d, k) {
      BitOfUnion(v, w, c, d, k);
    }
  }

  lemma BitOfUnion(v: Vol, w: Vol, c: set<Path>, d: set<Path>, k: int)
    requires v.Shape() && w.Shape() && w.first == v.first
    requires (forall p: Path :: p in c ==> p.Valid() && v.At(p) == w.At(p))
    ensures BitOf(w, c + d, k) <==> BitOf(v, c, k) || BitOf(w, d, k)
  {
    hide Vol.At;
    if BitOf(v, c, k) {
      var q: Path :| q in c && q.Valid() && Bit(v, v.At(q)) == k;
      assert q in c + d && Bit(w, w.At(q)) == k;
    }
    if BitOf(w, d, k) {
      var q: Path :| q in d && q.Valid() && Bit(w, w.At(q)) == k;
      assert q in c + d;
    }
    if BitOf(w, c + d, k) {
      var q: Path :| q in c + d && q.Valid() && Bit(w, w.At(q)) == k;
      assert q in c ==> Bit(v, v.At(q)) == k;
    }
  }

  lemma SameTreeOutside(v0: Vol, v: Vol, c: set<Path>, p: Path)
    requires Grown(v0, v, c) && p.Valid()
    ensures p !in c ==> v.At(p) == v0.At(p)
    ensures p in c ==> v0.At(p) == 0 && v.At(p) != 0
  {
    assert p in c ==> NewAt(v0, v, p);
  }

  lemma ExtendsTrans(u: Vol, v: Vol, w: Vol, c: set<Path>, d: set<Path>)
    requires Extends(u, v, c) && Extends(v, w, d)
    ensures Extends(u, w, c + d)
  {
    hide Vol.At, Keeps;
    GrownTrans(u, v, w, c, d);
    DataKept(u, u.disk, v, c, w);
    StillZero(u, v, w, d);
  }

  lemma StillZero(u: Vol, v: Vol, w: Vol, d: set<Path>)
    requires u.Shape() && v.Ok() && NewZero(u, v) && Grown(v, w, d) && Keeps(v, v.disk, w) && NewZero(v, w)
    ensures NewZero(u, w)
  {
    hide Vol.At;
    forall p: Path | p.Valid() && !p.Table() && v.At(p) != 0
        ensures w.At(p) == v.At(p) && w.disk[v.At(p)] == v.disk[v.At(p)] {
      SameTreeOutside(v, w, d, p);
      assert Plain(v, v.At(p));
    }
  }

  // ------------------------------------------------------------------------
  // Logical blocks
  // ------------------------------------------------------------------------

  const SINGLE: nat := 7 + ENTRIES
  const MAX_BLOCKS: nat := SINGLE + ENTRIES * ENTRIES

  /** Where the zone of a logical block is stored. */
  function PathOf(l: nat): (p: Path)
    requires l < MAX_BLOCKS
    ensures p.Valid() && !p.Table()
  {
    if l < 7 then Direct(l)
    else if l < SINGLE then IndEntry(l - 7)
    else Leaf((l - SINGLE) / ENTRIES, (l - SINGLE) % ENTRIES)
  }

  lemma PathOfInjective(l: nat, m: nat)
    requires l < MAX_BLOCKS && m < MAX_BLOCKS && PathOf(l) == PathOf(m)
    ensures l == m
  {
  }

  function InRange(v: Vol, z: nat): nat {
    if v.Data(z) then z else 0
  }

  /** `minix_bmap` without creation, on any volume: zero for holes and for pointers outside
      the data zone. */
  ghost function Lookup(v: Vol, l: nat): (z: nat)
    requires v.Shape()
    ensures z == 0 || v.Data(z)
  {
    if l < 7 then InRange(v, v.zones[l])
    else if l < SINGLE then
      if v.Data(v.zones[7]) then InRange(v, Entry(v.disk[v.zones[7]], l - 7)) else 0
    else if l < MAX_BLOCKS then
      if v.Data(v.zones[8]) then
        var t := Entry(v.disk[v.zones[8]], (l - SINGLE) / ENTRIES);
        if v.Data(t) then InRange(v, Entry(v.disk[t], (l - SINGLE) % ENTRIES)) else 0
      else 0
    else 0
  }

  lemma LookupAt(v: Vol, l: nat)
    requires v.Ok()
    ensures Lookup(v, l) == if l < MAX_BLOCKS then v.At(PathOf(l)) else 0
  {
    if l < MAX_BLOCKS {
      var p := PathOf(l);
      assert v.At(p) != 0 ==> v.Used(v.At(p));
      if l >= SINGLE {
        var t := p.Parent();
        assert v.At(t) == if v.Data(v.zones[8]) then Entry(v.disk[v.zones[8]], t.Index()) else 0;
        assert v.At(p) == if v.Data(v.At(t)) then Entry(v.disk[v.At(t)], p.Index()) else 0;
      } else if l >= 7 {
        assert v.At(Ind) == v.zones[7];
      }
    }
  }

  /** The byte stored for file offset `x`, whatever the file size. */
  ghost function Raw(v: Vol, x: nat): Byte
    requires v.Shape()
  {
    var z := Lookup(v, x / BLOCK);
    if z == 0 then 0 else v.disk[z][x % BLOCK]
  }
}
