/** The per-address-space list of virtual memory areas (kernel/mm/vma.c).

    A tree of areas is modelled by its in-order sequence, which is what
    `vma_first`/`vma_next` enumerate.  Its meaning is the partial map
    `FlagsAt` from addresses to protection flags. */
module Vmas {
  import opened Base

  datatype Flags = Flags(read: bool, write: bool, exec: bool)

  datatype Vma = Vma(start: nat, end: nat, flags: Flags) {
    predicate Contains(a: int) {
      start <= a < end
    }

    /** Non-empty, page aligned, inside the user half, and never writable and executable at once. */
    predicate Ok() {
      && start < end <= USER_TOP
      && Aligned(start)
      && Aligned(end)
      && !(flags.write && flags.exec)
    }
  }

  predicate Sorted(vs: seq<Vma>) {
    forall i, j :: 0 <= i < j < |vs| ==> vs[i].end <= vs[j].start
  }

  predicate WellFormed(vs: seq<Vma>) {
    && (forall i :: 0 <= i < |vs| ==> vs[i].Ok())
    && Sorted(vs)
  }

  ghost function Elems(vs: seq<Vma>): set<Vma> {
    set v | v in vs
  }

  ghost predicate Disjoint(s: set<Vma>) {
    forall u, v :: u in s && v in s && u != v ==> u.end <= v.start || v.end <= u.start
  }

  ghost function FlagsIn(s: set<Vma>, a: int): Option<Flags> {
    if exists v :: v in s && v.Contains(a) then
      var v :| v in s && v.Contains(a);
      Some(v.flags)
    else None
  }

  /** The meaning of the list: the flags of the area that holds `a`, if any. */
  ghost function FlagsAt(vs: seq<Vma>, a: int): Option<Flags> {
    FlagsIn(Elems(vs), a)
  }

  /** Position of the area holding `a` (`vma_find`), or |vs| when there is none. */
  function Find(vs: seq<Vma>, a: int): (i: nat)
    ensures i <= |vs|
    ensures i < |vs| ==> vs[i].Contains(a)
    ensures i == |vs| ==> forall j :: 0 <= j < |vs| ==> !vs[j].Contains(a)
  {
    if vs == [] || vs[0].Contains(a) then 0 else 1 + Find(vs[1..], a)
  }

  predicate Overlaps(u: Vma, v: Vma) {
    u.start < v.end && v.start < u.end
  }

  lemma ElemsDisjoint(vs: seq<Vma>)
    requires WellFormed(vs)
    ensures Disjoint(Elems(vs))
  {
  }

  lemma FlagsOf(vs: seq<Vma>, i: nat, a: int)
    requires WellFormed(vs) && i < |vs| && vs[i].Contains(a)
    ensures FlagsAt(vs, a) == Some(vs[i].flags)
  {
    ElemsDisjoint(vs);
    assert vs[i] in Elems(vs);
  }

  lemma PageFrom(s: nat, a: nat)
    requires Aligned(s)
    ensures s <= a <==> s <= PageDown(a)
  {
    var x, y := s / PAGE_SIZE, a / PAGE_SIZE;
    assert s == PAGE_SIZE * x;
    assert PageDown(a) == PAGE_SIZE * y;
  }

  lemma SamePage(v: Vma, a: nat)
    requires v.Ok()
    ensures v.Contains(a) == v.Contains(PageDown(a))
  {
    hide PageDown, Aligned;
    PageFrom(v.start, a);
    PageFrom(v.end, a);
  }

  /** All addresses of a page lie in the same area. */
  lemma SameArea(vs: seq<Vma>, a: nat)
    requires WellFormed(vs)
    ensures Find(vs, a) == Find(vs, PageDown(a))
    ensures FlagsAt(vs, a) == FlagsAt(vs, PageDown(a))
  {
    hide PageDown, FlagsAt, Vma.Ok;
    forall i | 0 <= i < |vs| ensures vs[i].Contains(a) == vs[i].Contains(PageDown(a)) {
      SamePage(vs[i], a);
    }
    FindFlags(vs, a);
    FindFlags(vs, PageDown(a));
    var i, j := Find(vs, a), Find(vs, PageDown(a));
    if i < |vs| && j < |vs| {
      OneArea(vs, i, j, a);
    }
  }

  lemma OneArea(vs: seq<Vma>, i: nat, j: nat, a: int)
    requires Sorted(vs) && i < |vs| && j < |vs| && vs[i].Contains(a) && vs[j].Contains(a)
    ensures i == j
  {
  }

  lemma FindFlags(vs: seq<Vma>, a: int)
    requires WellFormed(vs)
    ensures FlagsAt(vs, a) == if Find(vs, a) < |vs| then Some(vs[Find(vs, a)].flags) else None
  {
    if Find(vs, a) < |vs| {
      FlagsOf(vs, Find(vs, a), a);
    }
  }

  // ------------------------------------------------------------------------
  // The three elementary edits, as pointwise updates of the meaning
  // ------------------------------------------------------------------------

  function RemoveAt(vs: seq<Vma>, i: nat): seq<Vma>
    requires i < |vs|
  {
    vs[..i] + vs[i + 1..]
  }

  function InsertAt(vs: seq<Vma>, i: nat, v: Vma): seq<Vma>
    requires i <= |vs|
  {
    vs[..i] + [v] + vs[i..]
  }

  /** Both halves of the area at `i`, cut at `b`, in place of the area. */
  function Cut(vs: seq<Vma>, i: nat, b: nat): seq<Vma>
    requires i < |vs|
  {
    InsertAt(InsertAt(RemoveAt(vs, i), i, vs[i].(end := b)), i + 1, vs[i].(start := b))
  }

  lemma RemoveAtElems(vs: seq<Vma>, i: nat)
    requires WellFormed(vs) && i < |vs|
    ensures WellFormed(RemoveAt(vs, i))
    ensures Elems(RemoveAt(vs, i)) == Elems(vs) - {vs[i]}
  {
    var ws := RemoveAt(vs, i);
    forall v | v in Elems(vs) - {vs[i]} ensures v in ws {
      var j :| 0 <= j < |vs| && vs[j] == v;
      assert v == ws[if j < i then j else j - 1];
    }
  }

  lemma InsertAtElems(vs: seq<Vma>, i: nat, v: Vma)
    requires WellFormed(vs) && v.Ok() && i <= |vs|
    requires i > 0 ==> vs[i - 1].end <= v.start
    requires i < |vs| ==> v.end <= vs[i].start
    ensures WellFormed(InsertAt(vs, i, v))
    ensures Elems(InsertAt(vs, i, v)) == Elems(vs) + {v}
  {
    hide WellFormed;
    var ws := InsertAt(vs, i, v);
    InsertAtSorted(vs, i, v);
    assert forall j :: 0 <= j < |ws| ==> ws[j] == v || ws[j] in vs;
    assert ws[i] == v;
    forall u | u in vs ensures u in ws {
      var j :| 0 <= j < |vs| && vs[j] == u;
      assert u == ws[if j < i then j else j + 1];
    }
  }

  lemma InsertAtSorted(vs: seq<Vma>, i: nat, v: Vma)
    requires WellFormed(vs) && v.Ok() && i <= |vs|
    requires i > 0 ==> vs[i - 1].end <= v.start
    requires i < |vs| ==> v.end <= vs[i].start
    ensures WellFormed(InsertAt(vs, i, v))
  {
    var ws := InsertAt(vs, i, v);
    SortedConcat([v], vs[i..]);
    SortedConcat(vs[..i], [v] + vs[i..]);
    assert ws == vs[..i] + ([v] + vs[i..]);
  }

  lemma SortedConcat(us: seq<Vma>, ws: seq<Vma>)
    requires WellFormed(us) && WellFormed(ws)
    requires us != [] && ws != [] ==> us[|us| - 1].end <= ws[0].start
    ensures WellFormed(us + ws)
  {
    var n := |us|;
    forall j, k | 0 <= j < k < n + |ws| ensures (us + ws)[j].end <= (us + ws)[k].start {
      if j < n <= k {
        assert us[j].end <= us[n - 1].end;
        assert ws[0].start <= ws[k - n].start;
      }
    }
  }

  lemma RemoveFlags(s: set<Vma>, v: Vma, a: int)
    requires Disjoint(s) && v in s
    ensures FlagsIn(s - {v}, a) == if v.Contains(a) then None else FlagsIn(s, a)
  {
    if !v.Contains(a) && FlagsIn(s, a).Some? {
      var u :| u in s && u.Contains(a) && FlagsIn(s, a) == Some(u.flags);
      assert u in s - {v};
    }
  }

  lemma AddFlags(s: set<Vma>, v: Vma, a: int)
    requires Disjoint(s + {v})
    ensures FlagsIn(s + {v}, a) == if v.Contains(a) then Some(v.flags) else FlagsIn(s, a)
  {
    if v.Contains(a) {
      assert v in s + {v};
    } else if FlagsIn(s, a).Some? {
      var u :| u in s && u.Contains(a) && FlagsIn(s, a) == Some(u.flags);
      assert u in s + {v};
    }
  }

  lemma RemoveAtFlags(vs: seq<Vma>, i: nat)
    requires WellFormed(vs) && i < |vs|
    ensures WellFormed(RemoveAt(vs, i))
    ensures forall a :: FlagsAt(RemoveAt(vs, i), a) == if vs[i].Contains(a) then None else FlagsAt(vs, a)
  {
    RemoveAtElems(vs, i);
    ElemsDisjoint(vs);
    forall a ensures FlagsAt(RemoveAt(vs, i), a) == if vs[i].Contains(a) then None else FlagsAt(vs, a) {
      RemoveFlags(Elems(vs), vs[i], a);
    }
  }

  lemma InsertAtFlags(vs: seq<Vma>, i: nat, v: Vma)
    requires WellFormed(vs) && v.Ok() && i <= |vs|
    requires i > 0 ==> vs[i - 1].end <= v.start
    requires i < |vs| ==> v.end <= vs[i].start
    ensures WellFormed(InsertAt(vs, i, v))
    ensures forall a :: FlagsAt(InsertAt(vs, i, v), a) == if v.Contains(a) then Some(v.flags) else FlagsAt(vs, a)
  {
    InsertAtElems(vs, i, v);
    ElemsDisjoint(InsertAt(vs, i, v));
    forall a ensures FlagsAt(InsertAt(vs, i, v), a) == if v.Contains(a) then Some(v.flags) else FlagsAt(vs, a) {
      AddFlags(Elems(vs), v, a);
    }
  }

  lemma SetFlagsFlags(vs: seq<Vma>, i: nat, f: Flags)
    requires WellFormed(vs) && i < |vs| && !(f.write && f.exec)
    ensures WellFormed(vs[i := vs[i].(flags := f)])
    ensures forall a :: FlagsAt(vs[i := vs[i].(flags := f)], a) == if vs[i].Contains(a) then Some(f) else FlagsAt(vs, a)
  {
    var v := vs[i].(flags := f);
    var us := RemoveAt(vs, i);
    RemoveAtFlags(vs, i);
    InsertAtFlags(us, i, v);
    assert vs[i := v] == InsertAt(us, i, v);
  }

  lemma CutFlags(vs: seq<Vma>, i: nat, b: nat)
    requires WellFormed(vs) && i < |vs| && vs[i].start < b < vs[i].end && Aligned(b)
    ensures WellFormed(Cut(vs, i, b))
    ensures forall a :: FlagsAt(Cut(vs, i, b), a) == FlagsAt(vs, a)
  {
    var lower, upper := vs[i].(end := b), vs[i].(start := b);
    var us := RemoveAt(vs, i);
    RemoveAtFlags(vs, i);
    InsertAtFlags(us, i, lower);
    var ws := InsertAt(us, i, lower);
    assert ws[i] == lower && (i + 1 < |ws| ==> ws[i + 1] == vs[i + 1]);
    InsertAtFlags(ws, i + 1, upper);
    forall a ensures FlagsAt(Cut(vs, i, b), a) == FlagsAt(vs, a) {
      if vs[i].Contains(a) {
        FlagsOf(vs, i, a);
      }
    }
  }

  lemma AreaFlags(vs: seq<Vma>, i: nat)
    requires WellFormed(vs) && i < |vs|
    ensures forall a :: vs[i].Contains(a) ==> FlagsAt(vs, a) == Some(vs[i].flags)
  {
    forall a | vs[i].Contains(a) ensures FlagsAt(vs, a) == Some(vs[i].flags) {
      FlagsOf(vs, i, a);
    }
  }

  /** After removing the area at `i`, every later one starts above its end. */
  lemma NextFlags(vs: seq<Vma>, i: nat, b: int)
    requires WellFormed(vs) && i < |vs| && b <= vs[i].start
    requires forall j :: 0 <= j < i ==> vs[j].end <= b
    ensures forall j :: i <= j < |vs| - 1 ==> vs[i].end <= RemoveAt(vs, i)[j].start
    ensures forall j :: 0 <= j < i ==> RemoveAt(vs, i)[j] == vs[j]
    ensures forall c :: NoStraddle(vs, c) ==> NoStraddle(RemoveAt(vs, i), c)
    ensures forall a :: b <= a < vs[i].start ==> FlagsAt(vs, a) == None
  {
    GapFlags(vs, i, b, vs[i].start);
    assert forall j :: 0 <= j < |vs| - 1 ==> RemoveAt(vs, i)[j] in vs;
  }

  lemma GapFlags(vs: seq<Vma>, i: nat, lo: int, hi: int)
    requires i <= |vs|
    requires forall j :: 0 <= j < i ==> vs[j].end <= lo
    requires forall j :: i <= j < |vs| ==> hi <= vs[j].start
    ensures forall a :: lo <= a < hi ==> FlagsAt(vs, a) == None
  {
  }

  /** What the walk of `sys_mprotect` needs to know when the area at `i` takes new flags. */
  lemma Reflagged(vs: seq<Vma>, i: nat, f: Flags, b: int, end: nat)
    requires WellFormed(vs) && i < |vs| && NoStraddle(vs, end) && b <= vs[i].start
    requires forall j :: 0 <= j < i ==> vs[j].end <= b
    ensures var ws := vs[i := vs[i].(flags := f)];
      && NoStraddle(ws, end)
      && (forall j :: 0 <= j <= i ==> ws[j].end <= vs[i].end)
      && (forall j :: i < j < |ws| ==> vs[i].end <= ws[j].start)
    ensures vs[i].start < vs[i].end && forall a :: b <= a < vs[i].start ==> FlagsAt(vs, a) == None
  {
    hide FlagsAt;
    assert vs[i].Ok();
    Onward(vs, i, vs[i].start);
    GapFlags(vs, i, b, vs[i].start);
  }

  /** The areas from the first that ends above an address nothing crosses start at it or above. */
  lemma StartsFrom(vs: seq<Vma>, i: nat, start: nat)
    requires WellFormed(vs) && NoStraddle(vs, start) && (i < |vs| ==> start < vs[i].end)
    ensures forall j :: i <= j < |vs| ==> start <= vs[j].start
  {
    Onward(vs, i, start);
  }

  /** An area that starts in a range nothing crosses lies inside it. */
  lemma Inside(vs: seq<Vma>, i: nat, start: nat, end: nat)
    requires i < |vs| && NoStraddle(vs, end) && vs[i].start < end && start <= vs[i].start
    ensures vs[i].end <= end
  {
  }

  /** Areas from `i` on start no earlier than the one at `i`. */
  lemma Onward(vs: seq<Vma>, i: nat, end: int)
    requires WellFormed(vs) && (i < |vs| ==> end <= vs[i].start)
    ensures forall j :: i <= j < |vs| ==> end <= vs[j].start
  {
    assert forall j :: 0 <= j < |vs| ==> vs[j].Ok();
  }

  /** An area over addresses that no area holds can be inserted. */
  lemma UncoveredFits(vs: seq<Vma>, v: Vma)
    requires WellFormed(vs) && v.Ok()
    requires forall a :: v.Contains(a) ==> FlagsAt(vs, a) == None
    ensures forall i :: 0 <= i < |vs| ==> !Overlaps(vs[i], v)
  {
    forall i | 0 <= i < |vs| ensures !Overlaps(vs[i], v) {
      var a := if vs[i].start < v.start then v.start else vs[i].start;
      if vs[i].Contains(a) {
        FlagsOf(vs, i, a);
      }
    }
  }

  // ------------------------------------------------------------------------
  // Insertion and splitting
  // ------------------------------------------------------------------------

  /** What `vma_insert` promises: EEXIST exactly when `v` meets an area, and otherwise one more
      area in a list that is still in order. */
  ghost predicate InsertsTo(vs: seq<Vma>, v: Vma, err: Err, ws: seq<Vma>) {
    && err == (if exists i :: 0 <= i < |vs| && Overlaps(vs[i], v) then EEXIST else Ok)
    && (err != Ok ==> ws == vs)
    && (err == Ok ==> WellFormed(ws) && exists p :: 0 <= p <= |vs| && ws == InsertAt(vs, p, v))
  }

  /** The promise leaves one outcome. */
  lemma InsertsOnce(vs: seq<Vma>, v: Vma, err: Err, ws: seq<Vma>, err': Err, ws': seq<Vma>)
    requires v.Ok() && InsertsTo(vs, v, err, ws) && InsertsTo(vs, v, err', ws')
    ensures err == err' && ws == ws'
  {
    if err == Ok {
      var p :| 0 <= p <= |vs| && ws == InsertAt(vs, p, v);
      var q :| 0 <= q <= |vs| && ws' == InsertAt(vs, q, v);
      InsertedOnce(vs, v, p, q);
    }
  }

  /** `vma_insert`: places `v` in order, or refuses it because it meets an existing area.
      An empty tree takes any `v`: the bounds of an area are never compared with each other. */
  method Insert(vs: seq<Vma>, v: Vma) returns (err: Err, ws: seq<Vma>)
    requires WellFormed(vs) && (v.Ok() || vs == [])
    ensures err == if exists i :: 0 <= i < |vs| && Overlaps(vs[i], v) then EEXIST else Ok
    ensures err != Ok ==> ws == vs
    ensures err == Ok ==> exists p :: 0 <= p <= |vs| && ws == InsertAt(vs, p, v)
    ensures err == Ok ==> (WellFormed(ws) <==> v.Ok())
    ensures v.Ok() ==> InsertsTo(vs, v, err, ws)
    ensures err == Ok && v.Ok() ==> forall a :: FlagsAt(ws, a) == if v.Contains(a) then Some(v.flags)
              else FlagsAt(vs, a)
  {
    var i := 0;
    while i < |vs| && v.start >= vs[i].end
      invariant 0 <= i <= |vs|
      invariant forall j :: 0 <= j < i ==> vs[j].end <= v.start
    {
      i := i + 1;
    }
    if i < |vs| && v.end > vs[i].start {
      assert Overlaps(vs[i], v);
      return EEXIST, vs;
    }
    if v.Ok() {
      InsertAtFlags(vs, i, v);
    }
    err, ws := Ok, InsertAt(vs, i, v);
    assert ws[i] == v;
  }

  /** The place of a new area is determined by the order. */
  lemma InsertedOnce(vs: seq<Vma>, v: Vma, p: nat, q: nat)
    requires v.Ok() && p <= |vs| && q <= |vs|
    requires WellFormed(InsertAt(vs, p, v)) && WellFormed(InsertAt(vs, q, v))
    ensures p == q
  {
    InsertedBetween(vs, v, p);
    InsertedBetween(vs, v, q);
    var m := if p < q then p else q;
    assert m < |vs| ==> vs[m].start < vs[m].end;
  }

  lemma InsertedBetween(vs: seq<Vma>, v: Vma, p: nat)
    requires v.Ok() && p <= |vs| && WellFormed(InsertAt(vs, p, v))
    ensures forall j :: 0 <= j < p ==> vs[j].Ok() && vs[j].end <= v.start
    ensures forall j :: p <= j < |vs| ==> vs[j].Ok() && v.end <= vs[j].start
  {
    var ws := InsertAt(vs, p, v);
    assert ws[p] == v;
    assert forall j :: 0 <= j < p ==> vs[j] == ws[j];
    assert forall j :: p <= j < |vs| ==> vs[j] == ws[j + 1];
  }

  /** `kzalloc`: it may fail unless the kernel heap has room. */
  method Kzalloc(heap: bool) returns (ok: bool)
    ensures heap ==> ok
  {
    var luck: bool := *;
    ok := heap || luck;
  }

  /** `vma_split_at`: removes the area, shrinks it, and re-inserts both halves.
      Neither re-insertion can fail, so only the allocation of the upper half can. */
  method SplitAt(vs: seq<Vma>, i: nat, b: nat, heap: bool) returns (err: Err, ws: seq<Vma>)
    requires WellFormed(vs) && i < |vs|
    ensures err == EINVAL <==> !(vs[i].start < b < vs[i].end && Aligned(b))
    ensures err in {Ok, EINVAL, ENOMEM} && (err == ENOMEM ==> !heap)
    ensures ws == if err == Ok then Cut(vs, i, b) else vs
    ensures WellFormed(ws)
    ensures forall a :: FlagsAt(ws, a) == FlagsAt(vs, a)
  {
    if b <= vs[i].start || b >= vs[i].end || !Aligned(b) {
      return EINVAL, vs;
    }
    var haveMemory := Kzalloc(heap);
    if !haveMemory {
      return ENOMEM, vs;
    }
    var lower, upper := vs[i].(end := b), vs[i].(start := b);
    var without := RemoveAt(vs, i);
    CutFits(vs, i, b);
    err, ws := Insert(without, lower);
    if err != Ok {
      return err, vs;
    }
    ghost var p :| 0 <= p <= |without| && ws == InsertAt(without, p, lower);
    InsertedOnce(without, lower, p, i);
    var half := ws;
    err, ws := Insert(half, upper);
    if err != Ok {
      return err, vs;
    }
    p :| 0 <= p <= |half| && ws == InsertAt(half, p, upper);
    InsertedOnce(half, upper, p, i + 1);
    CutFlags(vs, i, b);
  }

  /** At each stage of a split the piece to insert meets nothing. */
  lemma CutAway(vs: seq<Vma>, i: nat, b: nat)
    requires WellFormed(vs) && i < |vs| && vs[i].start < b < vs[i].end && Aligned(b)
    ensures WellFormed(RemoveAt(vs, i))
    ensures forall j :: 0 <= j < |vs| - 1 ==> !Overlaps(RemoveAt(vs, i)[j], vs[i].(end := b))
  {
    RemoveAtElems(vs, i);
    var us := RemoveAt(vs, i);
    assert forall j :: 0 <= j < |us| ==> us[j] == if j < i then vs[j] else vs[j + 1];
  }

  lemma PutBack(vs: seq<Vma>, i: nat, v: Vma)
    requires i < |vs|
    ensures InsertAt(RemoveAt(vs, i), i, v) == vs[i := v]
  {
  }

  lemma CutBelow(vs: seq<Vma>, i: nat, b: nat)
    requires WellFormed(vs) && i < |vs| && vs[i].start < b < vs[i].end && Aligned(b)
    ensures var ws := vs[i := vs[i].(end := b)];
      WellFormed(ws) && forall j :: 0 <= j < |ws| ==> !Overlaps(ws[j], vs[i].(start := b))
  {
  }

  lemma CutFits(vs: seq<Vma>, i: nat, b: nat)
    requires WellFormed(vs) && i < |vs| && vs[i].start < b < vs[i].end && Aligned(b)
    ensures WellFormed(RemoveAt(vs, i))
    ensures forall j :: 0 <= j < |vs| - 1 ==> !Overlaps(RemoveAt(vs, i)[j], vs[i].(end := b))
    ensures WellFormed(InsertAt(RemoveAt(vs, i), i, vs[i].(end := b)))
    ensures forall j :: 0 <= j < |vs| ==>
              !Overlaps(InsertAt(RemoveAt(vs, i), i, vs[i].(end := b))[j], vs[i].(start := b))
    ensures WellFormed(Cut(vs, i, b))
  {
    hide FlagsAt, WellFormed, RemoveAt, InsertAt, Overlaps;
    CutAway(vs, i, b);
    PutBack(vs, i, vs[i].(end := b));
    CutBelow(vs, i, b);
    CutFlags(vs, i, b);
  }

  /** No area crosses address `b`. */
  predicate NoStraddle(vs: seq<Vma>, b: nat) {
    forall i :: 0 <= i < |vs| ==> vs[i].end <= b || b <= vs[i].start
  }

  lemma CutNoStraddle(vs: seq<Vma>, i: nat, b: nat, c: nat)
    requires WellFormed(vs) && i < |vs| && vs[i].start < b < vs[i].end
    ensures NoStraddle(Cut(vs, i, b), b)
    ensures NoStraddle(vs, c) ==> NoStraddle(Cut(vs, i, b), c)
  {
    hide Vma.Ok;
    var ws := Cut(vs, i, b);
    assert ws[i] == vs[i].(end := b) && ws[i + 1] == vs[i].(start := b);
    assert forall j :: 0 <= j < i ==> ws[j] == vs[j];
    assert forall j :: i + 1 < j < |ws| ==> ws[j] == vs[j - 1];
  }

  /** One boundary of `SplitRange`: the area holding `probe` is split at `b` if it crosses it. */
  method SplitBoundary(vs: seq<Vma>, probe: nat, b: nat, heap: bool) returns (err: Err, ws: seq<Vma>)
    requires WellFormed(vs) && Aligned(b)
    requires probe == b || probe + 1 == b
    ensures err == Ok || (err == ENOMEM && !heap)
    ensures WellFormed(ws)
    ensures forall a :: FlagsAt(ws, a) == FlagsAt(vs, a)
    ensures err == Ok ==> NoStraddle(ws, b)
    ensures forall c :: NoStraddle(vs, c) ==> NoStraddle(ws, c)
  {
    err, ws := Ok, vs;
    var i := Find(vs, probe);
    if i < |vs| && vs[i].start < b < vs[i].end {
      err, ws := SplitAt(vs, i, b, heap);
      if err == Ok {
        forall c ensures NoStraddle(ws, b) && (NoStraddle(vs, c) ==> NoStraddle(ws, c)) {
          CutNoStraddle(vs, i, b, c);
        }
      }
    }
  }

  /** The opening of `vma_remove_range` and of `sys_mprotect`: areas crossing either
      end of [start, end) are split.  The meaning of the list never changes,
      whether or not memory for a split runs out. */
  method SplitRange(vs: seq<Vma>, start: nat, end: nat, heap: bool) returns (err: Err, ws: seq<Vma>)
    requires WellFormed(vs) && start < end && Aligned(start) && Aligned(end)
    ensures err == Ok || (err == ENOMEM && !heap)
    ensures WellFormed(ws)
    ensures forall a :: FlagsAt(ws, a) == FlagsAt(vs, a)
    ensures err == Ok ==> NoStraddle(ws, start) && NoStraddle(ws, end)
  {
    err, ws := SplitBoundary(vs, start, start, heap);
    if err == Ok {
      err, ws := SplitBoundary(ws, end - 1, end, heap);
    }
  }

  /** Where the walks of `vma_remove_range` and `sys_mprotect` begin: the area
      holding `start`, or else the first one that ends above it. */
  method FirstFrom(vs: seq<Vma>, start: nat) returns (i: nat)
    requires WellFormed(vs)
    ensures i <= |vs|
    ensures forall j :: 0 <= j < i ==> vs[j].end <= start
    ensures i < |vs| ==> start < vs[i].end
  {
    i := Find(vs, start);
    if i == |vs| {
      i := 0;
      while i < |vs| && vs[i].end <= start
        invariant i <= |vs|
        invariant forall j :: 0 <= j < i ==> vs[j].end <= start
      {
        i := i + 1;
      }
    }
  }

  // ------------------------------------------------------------------------
  // Gap finding
  // ------------------------------------------------------------------------

  /** [base, base + size) lies between the floor page and the ceiling and meets no area. */
  predicate Fits(vs: seq<Vma>, size: nat, ceiling: nat, base: int) {
    && Aligned(base)
    && PAGE_SIZE <= base
    && base + size <= ceiling
    && forall i :: 0 <= i < |vs| ==> base + size <= vs[i].start || vs[i].end <= base
  }

  lemma AlignedDifference(a: nat, b: nat)
    requires Aligned(a) && Aligned(b)
    ensures Aligned(a - b)
  {
  }

  lemma FitsUncovered(vs: seq<Vma>, size: nat, ceiling: nat, base: int)
    requires Fits(vs, size, ceiling, base)
    ensures forall a :: base <= a < base + size ==> FlagsAt(vs, a) == None
  {
  }

  /** A base fits exactly when no address of the range is mapped. */
  lemma FitsUnmapped(vs: seq<Vma>, size: nat, ceiling: nat, base: int)
    requires WellFormed(vs) && Aligned(base) && PAGE_SIZE <= base && base + size <= ceiling
    requires forall a :: base <= a < base + size && Aligned(a) ==> FlagsAt(vs, a) == None
    requires size > 0
    ensures Fits(vs, size, ceiling, base)
  {
    hide FlagsAt;
    forall i | 0 <= i < |vs| ensures base + size <= vs[i].start || vs[i].end <= base {
      var a := if base < vs[i].start then vs[i].start else base;
      if vs[i].Contains(a) {
        FlagsOf(vs, i, a);
        assert !(base <= a < base + size && Aligned(a));
      }
    }
  }

  /** What the gap finder is for: the highest base that fits, and 0 exactly when none does. */
  ghost predicate Highest(vs: seq<Vma>, size: nat, ceiling: nat, base: int) {
    && (base != 0 ==> Fits(vs, size, ceiling, base))
    && forall b :: Fits(vs, size, ceiling, b) ==> b <= base
  }

  /** `vma_find_gap_top_down`.  It is right for every page-aligned size except one: when the
      list is empty, `floor + size` wraps to 0 for the largest size, and so does the subtraction:
      the answer lies above the ceiling. */
  method FindGapTopDown(vs: seq<Vma>, size: nat, ceiling: nat) returns (best: nat)
    requires WellFormed(vs) && Aligned(ceiling) && ceiling <= USER_TOP && size < U64
    ensures size == 0 || !Aligned(size) ==> best == 0
    ensures size > 0 && Aligned(size) ==> (Highest(vs, size, ceiling, best) <==> vs != [] || size != U64 - PAGE_SIZE)
    ensures vs == [] && size == U64 - PAGE_SIZE ==> best == ceiling + PAGE_SIZE
  {
    best := 0;
    if size == 0 || !Aligned(size) {
      return;
    }
    if |vs| == 0 {
      if ceiling >= (PAGE_SIZE + size) % U64 {
        best := (ceiling - size) % U64;
      }
      return;
    }
    best := WalkGaps(vs, size, ceiling);
  }

  method WalkGaps(vs: seq<Vma>, size: nat, ceiling: nat) returns (best: nat)
    requires WellFormed(vs) && vs != [] && Aligned(ceiling) && Aligned(size) && size > 0
    ensures Highest(vs, size, ceiling, best)
  {
    hide Aligned;
    AlignedDifference(0, 0);
    best := 0;
    var prevEnd := PAGE_SIZE;
    var i := 0;
    while i < |vs| && vs[i].start < ceiling
      invariant 0 <= i <= |vs|
      invariant prevEnd == if i == 0 then PAGE_SIZE else vs[i - 1].end
      invariant best != 0 ==> Fits(vs, size, ceiling, best)
      invariant forall b :: Fits(vs, size, ceiling, b) && b + size <= prevEnd ==> b <= best
    {
      var v := vs[i];
      if v.start > prevEnd && v.start - prevEnd >= size {
        var candidate := v.start - size;
        AlignedDifference(v.start, size);
        if candidate >= prevEnd && candidate >= PAGE_SIZE {
          if best == 0 || candidate > best {
            best := candidate;
          }
        }
      }
      prevEnd := v.end;
      i := i + 1;
    }
    if prevEnd < ceiling && ceiling - prevEnd >= size {
      var candidate := ceiling - size;
      AlignedDifference(ceiling, size);
      if candidate >= prevEnd {
        if best == 0 || candidate > best {
          best := candidate;
        }
      }
    }
  }
}
