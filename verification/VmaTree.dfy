/** The areas of an address space on their red-black tree: the descents of `vma_find` and
    `vma_insert` (kernel/mm/vma.c) over the nodes of kernel/lib/rbtree.c. */
module VmaTree {
  import opened Base
  import opened Vmas
  import opened RbShapes
  import opened RbTree

  type Areas = map<Ptr, Vma>

  /** The areas of a sequence of nodes, in that order. */
  function Listing(areas: Areas, s: seq<Ptr>): seq<Vma>
    requires forall n :: n in s ==> n in areas
  {
    seq(|s|, i requires 0 <= i < |s| => areas[s[i]])
  }

  predicate Ordered(areas: Areas, s: seq<Ptr>) {
    && (forall i :: 0 <= i < |s| ==> s[i] in areas && areas[s[i]].Ok())
    && (forall i, j :: 0 <= i < j < |s| ==> areas[s[i]].end <= areas[s[j]].start)
  }

  lemma OrderedList(areas: Areas, s: seq<Ptr>)
    ensures Ordered(areas, s) <==> (forall n :: n in s ==> n in areas) && WellFormed(Listing(areas, s))
  {
    if (forall n :: n in s ==> n in areas) && WellFormed(Listing(areas, s)) {
      var vs := Listing(areas, s);
      forall i | 0 <= i < |s| ensures s[i] in areas && areas[s[i]].Ok() {
        assert vs[i].Ok();
      }
      forall i, j | 0 <= i < j < |s| ensures areas[s[i]].end <= areas[s[j]].start {
        assert vs[i].end <= vs[j].start;
      }
    }
  }

  /** A node stands at one place of an ordered tree. */
  lemma OnePlace(areas: Areas, s: seq<Ptr>, i: nat, j: nat)
    requires Ordered(areas, s) && i < |s| && j < |s| && s[i] == s[j]
    ensures i == j
  {
  }

  /** The place of the node whose area holds `a` is the place `vma_find` means. */
  lemma FoundAt(areas: Areas, s: seq<Ptr>, i: nat, a: nat)
    requires Ordered(areas, s) && i < |s| && areas[s[i]].Contains(a)
    ensures Find(Listing(areas, s), a) == i
  {
    var vs := Listing(areas, s);
    OrderedList(areas, s);
    assert vs[i].Contains(a);
    OneArea(vs, Find(vs, a), i, a);
  }

  lemma ListingInsert(areas: Areas, before: seq<Ptr>, n: Ptr, after: seq<Ptr>)
    requires forall m :: m in before + [n] + after ==> m in areas
    ensures forall m :: m in before + after ==> m in areas
    ensures Listing(areas, before + [n] + after) == InsertAt(Listing(areas, before + after), |before|, areas[n])
  {
    forall m | m in before + after ensures m in areas {
      assert m in before + [n] + after;
    }
  }

  lemma ListingRemove(areas: Areas, before: seq<Ptr>, n: Ptr, after: seq<Ptr>)
    requires forall m :: m in before + [n] + after ==> m in areas
    ensures forall m :: m in before + after ==> m in areas
    ensures Listing(areas, before + after) == RemoveAt(Listing(areas, before + [n] + after), |before|)
  {
    forall m | m in before + after ensures m in areas {
      assert m in before + [n] + after;
    }
  }

  lemma ListingSame(areas: Areas, areas': Areas, s: seq<Ptr>)
    requires forall m :: m in s ==> m in areas && m in areas' && areas'[m] == areas[m]
    ensures Listing(areas', s) == Listing(areas, s)
  {
  }

  /** In an ordered tree the areas of a left subtree lie below those of the node, and so on. */
  lemma AroundNode(areas: Areas, c: Ctx, t: Tree)
    requires Ordered(areas, Whole(c, t)) && t.Bin?
    ensures t.n in areas && areas[t.n].Ok()
    ensures forall n :: n in InOrder(t.left) ==> n in areas && areas[n].end <= areas[t.n].start
    ensures forall n :: n in InOrder(t.right) ==> n in areas && areas[t.n].end <= areas[n].start
  {
    var w, a, l, r := Whole(c, t), Before(c), InOrder(t.left), InOrder(t.right);
    assert w == a + (l + [t.n] + r) + After(c);
    assert w[|a| + |l|] == t.n;
    forall n | n in l ensures n in areas && areas[n].end <= areas[t.n].start {
      var i :| 0 <= i < |l| && l[i] == n;
      assert w[|a| + i] == n;
    }
    forall n | n in r ensures n in areas && areas[t.n].end <= areas[n].start {
      var i :| 0 <= i < |r| && r[i] == n;
      assert w[|a| + |l| + 1 + i] == n;
    }
  }

  /** Everything before the focus ends at or below `lo`, everything after it starts at or above `hi`. */
  predicate Bracketed(areas: Areas, c: Ctx, lo: nat, hi: nat) {
    && (forall n :: n in Before(c) ==> n in areas && areas[n].end <= lo)
    && (forall n :: n in After(c) ==> n in areas && hi <= areas[n].start)
  }

  lemma DescendLeft(areas: Areas, c: Ctx, t: Tree, lo: nat, hi: nat)
    requires Ordered(areas, Whole(c, t)) && t.Bin? && Bracketed(areas, c, lo, hi) && t.n in areas
    requires hi <= areas[t.n].start
    ensures Bracketed(areas, InLeft(t.n, t.red, t.right, c), lo, hi)
    ensures Ordered(areas, Whole(InLeft(t.n, t.red, t.right, c), t.left))
  {
    AroundNode(areas, c, t);
    WholeUp(InLeft(t.n, t.red, t.right, c), t.left);
    assert After(InLeft(t.n, t.red, t.right, c)) == [t.n] + InOrder(t.right) + After(c);
  }

  lemma DescendRight(areas: Areas, c: Ctx, t: Tree, lo: nat, hi: nat)
    requires Ordered(areas, Whole(c, t)) && t.Bin? && Bracketed(areas, c, lo, hi) && t.n in areas
    requires areas[t.n].end <= lo
    ensures Bracketed(areas, InRight(t.n, t.red, t.left, c), lo, hi)
    ensures Ordered(areas, Whole(InRight(t.n, t.red, t.left, c), t.right))
  {
    AroundNode(areas, c, t);
    WholeUp(InRight(t.n, t.red, t.left, c), t.right);
    assert Before(InRight(t.n, t.red, t.left, c)) == Before(c) + InOrder(t.left) + [t.n];
  }

  /** `vma_find`: the node at the place the search of the list gives, or 0 when there is none. */
  method FindNode(rb: Rb, areas: Areas, a: nat) returns (n: Ptr)
    requires rb.Valid() && Ordered(areas, rb.Contents())
    ensures forall m :: m in rb.Contents() ==> m in areas
    ensures var i := Find(Listing(areas, rb.Contents()), a);
      n == if i < |rb.Contents()| then rb.Contents()[i] else 0
    ensures n != 0 ==> n in rb.Contents() && areas[n].Contains(a)
  {
    hide Held, Balanced, Ordered;
    n := rb.root;
    ghost var c, t := Top, rb.tree;
    RootIs(rb.mem, n, t);
    TopWhole(t);
    while n != 0
      invariant Held(rb.mem, rb.root, c, t) && Plug(c, t) == rb.tree && n == Root(t) && (n == 0 <==> t.Leaf?)
      invariant Ordered(areas, Whole(c, t)) && Bracketed(areas, c, a, a + 1)
      decreases t
    {
      AroundNode(areas, c, t);
      AtFocus(rb.mem, rb.root, c, t);
      ChildrenLeaf(rb.mem, rb.root, c, t);
      PlugInOrder(c, t);
      if a < areas[n].start {
        DescendLeft(areas, c, t, a, a + 1);
        c, t := InLeft(t.n, t.red, t.right, c), t.left;
        n := rb.mem[n].left;
      } else if a >= areas[n].end {
        DescendRight(areas, c, t, a, a + 1);
        c, t := InRight(t.n, t.red, t.left, c), t.right;
        n := rb.mem[n].right;
      } else {
        assert n in Before(c) + InOrder(t) + After(c);
        ghost var i :| 0 <= i < |rb.Contents()| && rb.Contents()[i] == n;
        OrderedList(areas, rb.Contents());
        FoundAt(areas, rb.Contents(), i, a);
        return;
      }
      HeldUp(rb.mem, rb.root, c, t);
    }
    PlugInOrder(c, t);
    OrderedList(areas, rb.Contents());
    NotFound(areas, rb.Contents(), a);
  }

  lemma NotFound(areas: Areas, s: seq<Ptr>, a: nat)
    requires forall m :: m in s ==> m in areas && !areas[m].Contains(a)
    ensures Find(Listing(areas, s), a) == |s|
  {
  }

  lemma TopWhole(t: Tree)
    ensures Whole(Top, t) == InOrder(t) && Before(Top) == [] == After(Top)
  {
  }

  /** Putting an area between those that end below it and those that start above it. */
  lemma InsertOrdered(areas: Areas, before: seq<Ptr>, n: Ptr, after: seq<Ptr>)
    requires Ordered(areas, before + after) && n in areas && areas[n].Ok()
    requires forall m :: m in before ==> m in areas && areas[m].end <= areas[n].start
    requires forall m :: m in after ==> m in areas && areas[n].end <= areas[m].start
    ensures Ordered(areas, before + [n] + after)
  {
    var s, w := before + after, before + [n] + after;
    var k := |before|;
    assert forall i :: 0 <= i < k ==> w[i] == s[i] == before[i];
    assert forall i :: k < i < |w| ==> w[i] == s[i - 1] == after[i - 1 - k];
    forall i, j | 0 <= i < j < |w| ensures areas[w[i]].end <= areas[w[j]].start {
      if j == k {
        assert w[i] in before;
      } else if i == k {
        assert w[j] in after;
      }
    }
  }

  /** The descent of `vma_insert` to an empty slot with all lower areas before it and all
      higher ones after it; None when some area of the tree meets `v`. */
  method FindSlot(rb: Rb, areas: Areas, v: Vma) returns (r: Option<(Ptr, Slot)>, ghost c: Ctx)
    requires rb.Valid() && Ordered(areas, rb.Contents()) && v.Ok()
    ensures r == None <==> exists m :: m in rb.Contents() && Overlaps(areas[m], v)
    ensures r.Some? ==>
              Plug(c, Leaf) == rb.tree && r.value == (Parent(c), SlotOf(c)) && Bracketed(areas, c, v.start, v.end)
  {
    hide Held, Balanced, Ordered;
    var n, parent, slot := rb.root, 0, AtTop;
    ghost var t := rb.tree;
    c := Top;
    RootIs(rb.mem, n, t);
    TopWhole(t);
    while n != 0
      invariant Held(rb.mem, rb.root, c, t) && Plug(c, t) == rb.tree && n == Root(t) && (n == 0 <==> t.Leaf?)
      invariant Ordered(areas, Whole(c, t)) && Bracketed(areas, c, v.start, v.end)
      invariant parent == Parent(c) && slot == SlotOf(c)
      decreases t
    {
      AroundNode(areas, c, t);
      AtFocus(rb.mem, rb.root, c, t);
      ChildrenLeaf(rb.mem, rb.root, c, t);
      PlugInOrder(c, t);
      parent := n;
      if v.end <= areas[n].start {
        DescendLeft(areas, c, t, v.start, v.end);
        c, t := InLeft(t.n, t.red, t.right, c), t.left;
        n, slot := rb.mem[n].left, LeftOf(n);
      } else if v.start >= areas[n].end {
        DescendRight(areas, c, t, v.start, v.end);
        c, t := InRight(t.n, t.red, t.left, c), t.right;
        n, slot := rb.mem[n].right, RightOf(n);
      } else {
        assert n in Before(c) + InOrder(t) + After(c);
        return None, c;
      }
      HeldUp(rb.mem, rb.root, c, t);
    }
    PlugInOrder(c, t);
    r := Some((parent, slot));
  }

  /** `vma_insert`: on the list of areas it does what insertion into the list does. */
  method InsertNode(rb: Rb, areas: Areas, node: Ptr) returns (err: Err)
    requires rb.Valid() && Ordered(areas, rb.Contents())
    requires node != 0 && node in rb.mem && node !in Nodes(rb.tree) && node in areas && areas[node].Ok()
    modifies rb
    ensures rb.Valid() && rb.mem.Keys == old(rb.mem).Keys && Ordered(areas, rb.Contents())
    ensures forall m :: m in old(rb.Contents()) || m in rb.Contents() ==> m in areas
    ensures InsertsTo(Listing(areas, old(rb.Contents())), areas[node], err, Listing(areas, rb.Contents()))
    ensures err != Ok ==> rb.Contents() == old(rb.Contents())
    ensures err == Ok ==> exists p :: Inserted(old(rb.Contents()), p, node, rb.Contents())
  {
    hide Held, Balanced, Ordered, WellFormed;
    ghost var s := rb.Contents();
    OrderedList(areas, s);
    var r;
    ghost var c;
    r, c := FindSlot(rb, areas, areas[node]);
    MeetsAt(areas, s, areas[node]);
    if r == None {
      return EEXIST;
    }
    PlugInOrder(c, Leaf);
    assert Before(c) + [] + After(c) == Before(c) + After(c);
    InsertOrdered(areas, Before(c), node, After(c));
    rb.Insert(node, r.value.0, r.value.1, c);
    OrderedList(areas, rb.Contents());
    ListingInsert(areas, Before(c), node, After(c));
    assert s[..|Before(c)|] == Before(c) && s[|Before(c)|..] == After(c);
    assert Inserted(s, |Before(c)|, node, rb.Contents());
    err := Ok;
  }

  ghost predicate Inserted(s: seq<Ptr>, p: nat, n: Ptr, s': seq<Ptr>) {
    p <= |s| && s' == s[..p] + [n] + s[p..]
  }

  /** Some area of the tree meets `v` exactly when some area of the list does. */
  lemma MeetsAt(areas: Areas, s: seq<Ptr>, v: Vma)
    requires forall m :: m in s ==> m in areas
    ensures (exists m :: m in s && Overlaps(areas[m], v)) <==>
            exists i :: 0 <= i < |s| && Overlaps(Listing(areas, s)[i], v)
  {
    var vs := Listing(areas, s);
    if m :| m in s && Overlaps(areas[m], v) {
      var i :| 0 <= i < |s| && s[i] == m;
      assert Overlaps(vs[i], v);
    }
    if i :| 0 <= i < |s| && Overlaps(vs[i], v) {
      assert s[i] in s && Overlaps(areas[s[i]], v);
    }
  }

  lemma NotInserted(s: seq<Ptr>, s': seq<Ptr>, u: Ptr, n: Ptr)
    requires n != u && n !in s
    ensures (exists p :: Inserted(s, p, u, s')) ==> n !in s'
  {
  }

  lemma {:induction false} NodesListed(t: Tree, n: Ptr)
    ensures n in Nodes(t) <==> n in InOrder(t)
  {
    if t.Bin? {
      NodesListed(t.left, n);
      NodesListed(t.right, n);
    }
  }

  /** `vma_remove`: the area of the node leaves the list. */
  method RemoveNode(rb: Rb, areas: Areas, node: Ptr, ghost i: nat)
    requires rb.Valid() && Ordered(areas, rb.Contents()) && i < |rb.Contents()| && rb.Contents()[i] == node
    modifies rb
    ensures rb.Valid() && rb.mem.Keys == old(rb.mem).Keys && Ordered(areas, rb.Contents()) && node !in Nodes(rb.tree)
    ensures i < |old(rb.Contents())| && rb.Contents() == old(rb.Contents())[..i] + old(rb.Contents())[i + 1..]
    ensures forall m :: m in old(rb.Contents()) || m in rb.Contents() ==> m in areas
    ensures Listing(areas, rb.Contents()) == RemoveAt(Listing(areas, old(rb.Contents())), i)
  {
    hide Held, Balanced, Ordered, WellFormed;
    ghost var s := rb.Contents();
    OrderedList(areas, s);
    NodesListed(rb.tree, node);
    ghost var before, after := rb.Erase(node);
    OnePlace(areas, s, i, |before|);
    ListingRemove(areas, before, node, after);
    RemoveAtElems(Listing(areas, s), i);
    OrderedList(areas, before + after);
    NodesListed(rb.tree, node);
    Gone(areas, s, i);
    assert before == s[..i] && after == s[i + 1..];
  }

  lemma Gone(areas: Areas, s: seq<Ptr>, i: nat)
    requires Ordered(areas, s) && i < |s|
    ensures s[i] !in s[..i] + s[i + 1..]
  {
  }

  lemma NodeStored(mem: Mem, root: Ptr, t: Tree, n: Ptr)
    requires Held(mem, root, Top, t) && n in Nodes(t)
    ensures n != 0 && n in mem
  {
    hide Held;
    var c, u := Focus(t, n, Top);
    HeldPlug(mem, root, c, u);
    FocusStored(mem, root, c, u);
  }

  /** A node taken out and put back somewhere. */
  lemma BackAgain(s: seq<Ptr>, i: nat, p: nat, s': seq<Ptr>)
    requires i < |s| && Inserted(s[..i] + s[i + 1..], p, s[i], s')
    ensures forall n :: n in s' <==> n in s
  {
    var t := s[..i] + s[i + 1..];
    assert s == s[..i] + [s[i]] + s[i + 1..];
    assert t == t[..p] + t[p..];
    forall n ensures n in s' <==> n in s {
      assert n in s <==> n in s[..i] || n == s[i] || n in s[i + 1..];
      assert n in t <==> n in s[..i] || n in s[i + 1..];
      assert n in t <==> n in t[..p] || n in t[p..];
      assert n in s' <==> n in t[..p] || n == s[i] || n in t[p..];
    }
  }

  lemma NotCrossed(vs: seq<Vma>, probe: nat, b: nat)
    requires WellFormed(vs) && (probe == b || probe + 1 == b)
    requires var i := Find(vs, probe); i < |vs| ==> !(vs[i].start < b < vs[i].end)
    ensures NoStraddle(vs, b)
  {
    var i := Find(vs, probe);
    forall j | 0 <= j < |vs| ensures vs[j].end <= b || b <= vs[j].start {
      if vs[j].start < b < vs[j].end {
        OneArea(vs, i, j, probe);
      }
    }
  }

  lemma BelowFound(vs: seq<Vma>, i: nat, a: nat)
    requires WellFormed(vs) && i < |vs| && vs[i].Contains(a)
    ensures forall j :: 0 <= j < i ==> vs[j].end <= a
  {
  }

  /** The node at a place, and 0 past the end. */
  ghost predicate Stands(s: seq<Ptr>, i: nat, n: Ptr) {
    i <= |s| && n == if i < |s| then s[i] else 0
  }

  lemma HalvesOk(vs: seq<Vma>, i: nat, b: nat)
    requires WellFormed(vs) && i < |vs| && vs[i].start < b < vs[i].end && Aligned(b)
    ensures vs[i].(end := b).Ok() && vs[i].(start := b).Ok()
  {
  }

  lemma InsertsHere(vs: seq<Vma>, p: nat, v: Vma)
    requires p <= |vs| && WellFormed(InsertAt(vs, p, v)) && forall j :: 0 <= j < |vs| ==> !Overlaps(vs[j], v)
    ensures InsertsTo(vs, v, Ok, InsertAt(vs, p, v))
  {
  }

  lemma ShrinkOnce(vs: seq<Vma>, i: nat, b: nat, err: Err, ws: seq<Vma>)
    requires WellFormed(vs) && i < |vs| && vs[i].start < b < vs[i].end && Aligned(b)
    requires InsertsTo(RemoveAt(vs, i), vs[i].(end := b), err, ws)
    ensures err == Ok && ws == vs[i := vs[i].(end := b)]
  {
    hide WellFormed, Overlaps, InsertAt, InsertsTo;
    CutFits(vs, i, b);
    HalvesOk(vs, i, b);
    PutBack(vs, i, vs[i].(end := b));
    InsertsHere(RemoveAt(vs, i), i, vs[i].(end := b));
    InsertsOnce(RemoveAt(vs, i), vs[i].(end := b), err, ws, Ok, vs[i := vs[i].(end := b)]);
  }

  lemma CutOnce(vs: seq<Vma>, i: nat, b: nat, err: Err, ws: seq<Vma>)
    requires WellFormed(vs) && i < |vs| && vs[i].start < b < vs[i].end && Aligned(b)
    requires InsertsTo(vs[i := vs[i].(end := b)], vs[i].(start := b), err, ws)
    ensures err == Ok && ws == Cut(vs, i, b)
  {
    hide WellFormed, Overlaps, InsertAt, InsertsTo;
    CutFits(vs, i, b);
    CutBelow(vs, i, b);
    HalvesOk(vs, i, b);
    PutBack(vs, i, vs[i].(end := b));
    InsertsHere(vs[i := vs[i].(end := b)], i + 1, vs[i].(start := b));
    InsertsOnce(vs[i := vs[i].(end := b)], vs[i].(start := b), err, ws, Ok, Cut(vs, i, b));
  }

  /** The areas of a space: nodes on the tree, each with its area. */
  class AreaTree {
    const rb: Rb
    var areas: Areas

    ghost predicate Valid()
      reads this, rb
    {
      rb.Valid() && Ordered(areas, rb.Contents()) && forall n :: n in rb.Contents() ==> n in areas
    }

    /** What the tree stands for. */
    ghost function List(): seq<Vma>
      requires Valid()
      reads this, rb
    {
      Listing(areas, rb.Contents())
    }

    constructor (rb: Rb)
      requires rb.Valid() && rb.Contents() == []
      ensures this.rb == rb && Valid() && List() == []
    {
      this.rb := rb;
      areas := map[];
    }

    /** A node that is not on the tree. */
    ghost predicate Spare(n: Ptr)
      reads rb
    {
      n != 0 && n in rb.mem && n !in Nodes(rb.tree)
    }

    /** The first half of `vma_split_at`: off the tree, shrunk, and back on it. */
    method Shrink(node: Ptr, b: nat, ghost i: nat) returns (err: Err)
      requires Valid() && i < |rb.Contents()| && rb.Contents()[i] == node
      requires Aligned(b) && areas[node].start < b < areas[node].end
      modifies this`areas, rb
      ensures Valid() && rb.mem.Keys == old(rb.mem).Keys && old(Valid()) && i < |old(List())| && err == Ok
      ensures List() == old(List())[i := old(List())[i].(end := b)]
      ensures forall n :: n in rb.Contents() <==> n in old(rb.Contents())
      ensures areas == old(areas)[node := old(areas)[node].(end := b)]
    {
      hide Held, Balanced, Ordered, WellFormed;
      ghost var s, vs, was := rb.Contents(), List(), areas;
      OrderedList(areas, s);
      NodesListed(rb.tree, node);
      NodeStored(rb.mem, rb.root, rb.tree, node);
      RemoveNode(rb, areas, node, i);
      areas := areas[node := areas[node].(end := b)];
      NodesListed(rb.tree, node);
      HalvesOk(vs, i, b);
      ListingSame(was, areas, rb.Contents());
      OrderedList(was, rb.Contents());
      OrderedList(areas, rb.Contents());
      err := InsertNode(rb, areas, node);
      ShrinkOnce(vs, i, b, err, List());
      ghost var p :| Inserted(s[..i] + s[i + 1..], p, node, rb.Contents());
      BackAgain(s, i, p, rb.Contents());
    }

    /** `vma_split_at`: the list is cut, or as it was; neither insertion fails. */
    method SplitAt(node: Ptr, b: nat, upper: Ptr, heap: bool, ghost i: nat) returns (err: Err)
      requires Valid() && i < |rb.Contents()| && rb.Contents()[i] == node && Spare(upper)
      modifies this`areas, rb
      ensures Valid() && rb.mem.Keys == old(rb.mem).Keys && old(Valid()) && i < |old(List())|
      ensures err == EINVAL <==> !(old(List())[i].start < b < old(List())[i].end && Aligned(b))
      ensures err in {Ok, EINVAL, ENOMEM} && (err == ENOMEM ==> !heap)
      ensures List() == if err == Ok then Cut(old(List()), i, b) else old(List())
      ensures forall n :: n != upper && old(Spare(n)) ==> Spare(n)
    {
      hide Held, Balanced, Ordered, WellFormed, InsertsTo, Cut, Inserted;
      ghost var s, vs := rb.Contents(), List();
      OrderedList(areas, s);
      var v := areas[node];
      assert vs[i] == v;
      if b <= v.start || b >= v.end || !Aligned(b) {
        return EINVAL;
      }
      var haveMemory := Kzalloc(heap);
      if !haveMemory {
        return ENOMEM;
      }
      NodesListed(rb.tree, upper);
      areas := areas[upper := v.(start := b)];
      ListingSame(old(areas), areas, s);
      OrderedList(areas, s);
      err := Shrink(node, b, i);
      NodesListed(rb.tree, upper);
      HalvesOk(vs, i, b);
      ghost var half := rb.Contents();
      err := InsertNode(rb, areas, upper);
      CutOnce(vs, i, b, err, List());
      forall n | n != upper && old(Spare(n)) ensures Spare(n) {
        NodesListed(old(rb.tree), n);
        NodesListed(rb.tree, n);
        NotInserted(half, rb.Contents(), upper, n);
      }
    }

    lemma Real()
      requires Valid()
      ensures forall n :: n in rb.Contents() ==> n != 0
    {
      hide Held;
      forall n | n in rb.Contents() ensures n != 0 {
        NodesListed(rb.tree, n);
        NodeStored(rb.mem, rb.root, rb.tree, n);
      }
    }

    /** One boundary of a range: the area that crosses it is split. */
    method SplitBoundary(probe: nat, b: nat, upper: Ptr, heap: bool) returns (err: Err)
      requires Valid() && Aligned(b) && (probe == b || probe + 1 == b) && Spare(upper)
      modifies this`areas, rb
      ensures Valid() && old(Valid()) && (err == Ok || (err == ENOMEM && !heap))
      ensures forall a :: FlagsAt(List(), a) == FlagsAt(old(List()), a)
      ensures err == Ok ==> NoStraddle(List(), b)
      ensures forall c :: NoStraddle(old(List()), c) ==> NoStraddle(List(), c)
      ensures forall n :: n != upper && old(Spare(n)) ==> Spare(n)
    {
      hide rb.Valid, Ordered, WellFormed, FlagsAt;
      Real();
      ghost var vs := List();
      OrderedList(areas, rb.Contents());
      var n := FindNode(rb, areas, probe);
      ghost var i := Find(vs, probe);
      err := Ok;
      if n != 0 && areas[n].start < b < areas[n].end {
        err := SplitAt(n, b, upper, heap, i);
        CutFlags(vs, i, b);
        forall c ensures NoStraddle(Cut(vs, i, b), b) && (NoStraddle(vs, c) ==> NoStraddle(Cut(vs, i, b), c)) {
          CutNoStraddle(vs, i, b, c);
        }
      } else {
        assert i < |vs| ==> n == rb.Contents()[i] && n in rb.Contents() && vs[i] == areas[n];
        NotCrossed(vs, probe, b);
      }
    }

    /** Where the walk over a range begins. */
    method FirstFrom(start: nat) returns (n: Ptr, ghost i: nat)
      requires Valid()
      ensures Stands(rb.Contents(), i, n)
      ensures forall j :: 0 <= j < i ==> List()[j].end <= start
      ensures i < |List()| ==> start < List()[i].end
      ensures n != 0 ==> n in rb.Contents() && start < areas[n].end
      ensures n == 0 ==> forall m :: m in rb.Contents() ==> areas[m].end <= start
    {
      hide rb.Valid, Ordered, WellFormed;
      Real();
      OrderedList(areas, rb.Contents());
      n := FindNode(rb, areas, start);
      i := Find(List(), start);
      if n == 0 {
        n := rb.First();
        i := 0;
        while n != 0 && areas[n].end <= start
          invariant Stands(rb.Contents(), i, n)
          invariant forall j :: 0 <= j < i ==> List()[j].end <= start
          decreases |rb.Contents()| - i
        {
          n := Following(n, i);
          i := i + 1;
        }
      } else {
        BelowFound(List(), i, start);
      }
      forall m | n == 0 && m in rb.Contents() ensures areas[m].end <= start {
        var j :| 0 <= j < |rb.Contents()| && rb.Contents()[j] == m;
        assert List()[j].end <= start;
      }
    }

    /** `vma_next`, at a known place. */
    method Following(node: Ptr, ghost i: nat) returns (n: Ptr)
      requires Valid() && i < |rb.Contents()| && rb.Contents()[i] == node
      ensures Stands(rb.Contents(), i + 1, n)
    {
      hide rb.Valid, Ordered;
      NodesListed(rb.tree, node);
      n := rb.Next(node);
      ghost var j :| NextAt(rb.Contents(), j, node, n);
      OnePlace(areas, rb.Contents(), i, j);
    }

    /** One turn of the walk of `vma_remove_range`: the area at `i` leaves the tree. */
    method RemoveOne(n: Ptr, start: nat, end: nat, ghost i: nat, ghost b: nat) returns (next: Ptr)
      requires Valid() && i < |rb.Contents()| && rb.Contents()[i] == n && b <= List()[i].start
      requires NoStraddle(List(), start) && NoStraddle(List(), end)
      requires forall j :: 0 <= j < i ==> List()[j].end <= b
      modifies rb
      ensures Valid() && old(Valid()) && i < |old(List())| && Stands(rb.Contents(), i, next)
      ensures |rb.Contents()| == |old(rb.Contents())| - 1
      ensures List() == RemoveAt(old(List()), i) && WellFormed(List()) && NoStraddle(List(), start)
      ensures NoStraddle(List(), end)
      ensures forall j :: 0 <= j < i ==> List()[j] == old(List())[j]
      ensures forall j :: i <= j < |List()| ==> old(List())[i].end <= List()[j].start
      ensures forall a :: FlagsAt(List(), a) == if old(List())[i].Contains(a) then None else FlagsAt(old(List()), a)
      ensures forall a :: b <= a < old(List())[i].start ==> FlagsAt(old(List()), a) == None
    {
      hide rb.Valid, Ordered, FlagsAt, WellFormed, NoStraddle;
      ghost var vs := List();
      OrderedList(areas, rb.Contents());
      next := Following(n, i);
      NextFlags(vs, i, b);
      RemoveNode(rb, areas, n, i);
      RemoveAtFlags(vs, i);
    }

    /** The walk of `vma_remove_range`: the areas of the range leave the tree. */
    method RemoveInside(start: nat, end: nat)
      requires Valid() && start < end && NoStraddle(List(), start) && NoStraddle(List(), end)
      modifies rb
      ensures Valid() && old(Valid())
      ensures forall a :: FlagsAt(List(), a) == if start <= a < end then None else FlagsAt(old(List()), a)
    {
      hide rb.Valid, Ordered, FlagsAt, RemoveAt;
      OrderedList(areas, rb.Contents());
      var n;
      ghost var i;
      n, i := FirstFrom(start);
      ghost var b := start;
      while n != 0 && areas[n].start < end
        invariant Valid() && WellFormed(List()) && Stands(rb.Contents(), i, n) && start <= b <= end
        invariant NoStraddle(List(), start) && NoStraddle(List(), end)
        invariant forall j :: 0 <= j < i ==> List()[j].end <= start
        invariant forall j :: i <= j < |List()| ==> b <= List()[j].start
        invariant forall a :: FlagsAt(List(), a) == if start <= a < b then None else FlagsAt(old(List()), a)
        decreases |rb.Contents()|
      {
        var v := areas[n];
        assert List()[i] == v;
        if v.start >= start && v.end <= end {
          n := RemoveOne(n, start, end, i, b);
          b := v.end;
        } else {
          assert false;
        }
      }
      Real();
      assert i < |List()| ==> n == rb.Contents()[i] && n in rb.Contents() && List()[i] == areas[n];
      Onward(List(), i, end);
      GapFlags(List(), i, b, end);
    }

    /** `vma_remove_range` on the tree: exactly the range loses its areas; when a split runs out of
        memory no address has changed.  `u` and `w` are the nodes the splits allocate. */
    method RemoveRange(start: nat, end: nat, u: Ptr, w: Ptr, heap: bool) returns (err: Err)
      requires Valid() && Aligned(start) && Aligned(end) && Spare(u) && Spare(w) && u != w
      modifies this`areas, rb
      ensures Valid() && old(Valid())
      ensures err in {Ok, EINVAL, ENOMEM} && (err == EINVAL <==> start >= end) && (err == ENOMEM ==> !heap)
      ensures forall a ::
                FlagsAt(List(), a) == if err == Ok && start <= a < end then None else FlagsAt(old(List()), a)
    {
      hide rb.Valid, Ordered, FlagsAt, WellFormed, NoStraddle;
      if start >= end {
        return EINVAL;
      }
      err := SplitBoundary(start, start, u, heap);
      if err != Ok {
        return;
      }
      err := SplitBoundary(end - 1, end, w, heap);
      if err != Ok {
        return;
      }
      RemoveInside(start, end);
    }
  }
}
