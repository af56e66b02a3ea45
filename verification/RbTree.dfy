/** The intrusive red-black tree of kernel/lib/rbtree.c.

    The nodes live in a memory `mem` from addresses to records, so that every
    pointer assignment of the source is an update of `mem`.  A ghost tree says
    what shape the pointers have. */
module RbTree {
  import opened RbShapes

  datatype Node = Node(parent: Ptr, left: Ptr, right: Ptr, red: bool)

  type Mem = map<Ptr, Node>

  function Parent(c: Ctx): Ptr {
    if c.Top? then 0 else c.n
  }

  function Root(t: Tree): Ptr {
    if t.Leaf? then 0 else t.n
  }

  function Roots(t: Tree): set<Ptr> {
    if t.Leaf? then {} else {t.n}
  }

  predicate Stores(mem: Mem, n: Ptr, r: Node) {
    n != 0 && n in mem && mem[n] == r
  }

  /** The memory holds exactly the tree `t`, whose root has parent pointer `up`. */
  predicate Shape(mem: Mem, up: Ptr, t: Tree)
    decreases t
  {
    match t
    case Leaf => true
    case Bin(l, n, red, r) =>
      && Stores(mem, n, Node(up, Root(l), Root(r), red))
      && Shape(mem, n, l)
      && Shape(mem, n, r)
  }

  /** The memory holds the context `c` under `root`, with pointer `p` in its hole. */
  predicate CtxShape(mem: Mem, root: Ptr, c: Ctx, p: Ptr)
    decreases c
  {
    match c
    case Top => root == p
    case InLeft(n, red, r, up) =>
      && Stores(mem, n, Node(Parent(up), p, Root(r), red))
      && Shape(mem, n, r)
      && CtxShape(mem, root, up, n)
    case InRight(n, red, l, up) =>
      && Stores(mem, n, Node(Parent(up), Root(l), p, red))
      && Shape(mem, n, l)
      && CtxShape(mem, root, up, n)
  }

  predicate Apart(c: Ctx, t: Tree) {
    Distinct(t) && DistinctCtx(c) && Nodes(t) !! CtxNodes(c)
  }

  /** The whole structure, seen with subtree `t` in focus. */
  predicate Held(mem: Mem, root: Ptr, c: Ctx, t: Tree) {
    CtxShape(mem, root, c, Root(t)) && Shape(mem, Parent(c), t) && Apart(c, t)
  }

  // ------------------------------------------------------------------------
  // Framing
  // ------------------------------------------------------------------------

  /** The memories differ at most at the addresses `s`. */
  predicate Only(mem: Mem, mem': Mem, s: set<Ptr>) {
    mem'.Keys == mem.Keys && forall n :: n in mem && n !in s ==> mem'[n] == mem[n]
  }

  lemma {:induction false} ShapeFrame(mem: Mem, mem': Mem, s: set<Ptr>, up: Ptr, t: Tree)
    requires Shape(mem, up, t) && Only(mem, mem', s) && s !! Nodes(t)
    ensures Shape(mem', up, t)
    decreases t
  {
    match t
    case Leaf =>
    case Bin(l, n, _, r) =>
      ShapeFrame(mem, mem', s, n, l);
      ShapeFrame(mem, mem', s, n, r);
  }

  lemma {:induction false} CtxFrame(mem: Mem, mem': Mem, s: set<Ptr>, root: Ptr, c: Ctx, p: Ptr)
    requires CtxShape(mem, root, c, p) && Only(mem, mem', s) && s !! CtxNodes(c)
    ensures CtxShape(mem', root, c, p)
    decreases c
  {
    if !c.Top? {
      ShapeFrame(mem, mem', s, c.n, c.sib);
      CtxFrame(mem, mem', s, root, c.up, c.n);
    }
  }

  /** A subtree keeps its shape when only its root's parent pointer moves. */
  lemma Reparent(mem: Mem, mem': Mem, s: set<Ptr>, up: Ptr, up': Ptr, t: Tree)
    requires Shape(mem, up, t) && Distinct(t) && Only(mem, mem', s) && s * Nodes(t) <= Roots(t)
    requires t.Bin? ==> t.n in mem && Stores(mem', t.n, mem[t.n].(parent := up'))
    ensures Shape(mem', up', t)
  {
    if t.Bin? {
      ShapeFrame(mem, mem', s, t.n, t.left);
      ShapeFrame(mem, mem', s, t.n, t.right);
    }
  }

  function Parents(c: Ctx): set<Ptr> {
    if c.Top? then {} else {c.n}
  }

  /** In `mem'`, the link that led from the context into the hole leads to `q`. */
  predicate Linked(mem: Mem, mem': Mem, root: Ptr, root': Ptr, c: Ctx, q: Ptr) {
    match c
    case Top => root' == q
    case InLeft(n, _, _, _) => root' == root && n in mem && Stores(mem', n, mem[n].(left := q))
    case InRight(n, _, _, _) => root' == root && n in mem && Stores(mem', n, mem[n].(right := q))
  }

  /** Putting another pointer into the hole. */
  lemma Reseat(mem: Mem, mem': Mem, s: set<Ptr>, root: Ptr, root': Ptr, c: Ctx, p: Ptr, q: Ptr)
    requires CtxShape(mem, root, c, p) && DistinctCtx(c)
    requires Only(mem, mem', s) && s * CtxNodes(c) <= Parents(c) && Linked(mem, mem', root, root', c, q)
    ensures CtxShape(mem', root', c, q)
  {
    if !c.Top? {
      ShapeFrame(mem, mem', s, c.n, c.sib);
      CtxFrame(mem, mem', s, root, c.up, c.n);
    }
  }

  /** Moving the focus up to the parent, or down from it. */
  lemma HeldUp(mem: Mem, root: Ptr, c: Ctx, t: Tree)
    requires !c.Top?
    ensures Held(mem, root, c, t) <==> Held(mem, root, c.up, Widen(c, t))
  {
    var w := Widen(c, t);
    assert Nodes(w) == Nodes(t) + {c.n} + Nodes(c.sib);
    assert CtxNodes(c) == {c.n} + Nodes(c.sib) + CtxNodes(c.up);
    assert Apart(c.up, w) <==> Apart(c, t);
  }

  lemma {:induction false} HeldPlug(mem: Mem, root: Ptr, c: Ctx, t: Tree)
    ensures Held(mem, root, c, t) <==> Held(mem, root, Top, Plug(c, t))
    decreases c
  {
    if !c.Top? {
      HeldUp(mem, root, c, t);
      HeldPlug(mem, root, c.up, Widen(c, t));
    }
  }

  /** How the source tells which child link of the parent leads to `x`. */
  lemma LinkSide(mem: Mem, root: Ptr, c: Ctx, x: Ptr)
    requires CtxShape(mem, root, c, x) && x != 0 && x !in CtxNodes(c)
    ensures Parent(c) == 0 <==> c.Top?
    ensures !c.Top? ==> c.n in mem && (mem[c.n].left == x <==> c.InLeft?)
  {
    assert c.InRight? && c.sib.Bin? ==> c.sib.n in CtxNodes(c);
  }

  // ------------------------------------------------------------------------
  // Rotations
  // ------------------------------------------------------------------------

  function RotatedLeft(t: Tree): Tree
    requires t.Bin? && t.right.Bin?
  {
    Bin(Bin(t.left, t.n, t.red, t.right.left), t.right.n, t.right.red, t.right.right)
  }

  function RotatedRight(t: Tree): Tree
    requires t.Bin? && t.left.Bin?
  {
    Bin(t.left.left, t.left.n, t.left.red, Bin(t.left.right, t.n, t.red, t.right))
  }

  /** Replacing the focus: the context is relinked to the new root and the new tree is stored. */
  lemma Refocus(mem: Mem, mem': Mem, s: set<Ptr>, root: Ptr, root': Ptr, c: Ctx, t: Tree, t': Tree)
    requires Held(mem, root, c, t)
    requires Shape(mem', Parent(c), t') && Distinct(t') && Nodes(t') <= Nodes(t)
    requires Only(mem, mem', s) && s <= Nodes(t) + Parents(c) && Linked(mem, mem', root, root', c, Root(t'))
    ensures Held(mem', root', c, t')
  {
    Reseat(mem, mem', s, root, root', c, Root(t), Root(t'));
  }

  /** The hole's parent and the nodes x, y lie outside `t`. */
  predicate Clear(c: Ctx, x: Ptr, y: Ptr, t: Tree) {
    Distinct(t) && x !in Nodes(t) && y !in Nodes(t) && (c.Top? || c.n !in Nodes(t))
  }

  /** A tree of two levels, taken apart: x over a and y, y over b and d. */
  predicate Pieces(c: Ctx, x: Ptr, y: Ptr, a: Tree, b: Tree, d: Tree) {
    && x != y
    && (c.Top? || (c.n != x && c.n != y))
    && Clear(c, x, y, a)
    && Clear(c, x, y, b)
    && Clear(c, x, y, d)
    && Nodes(a) !! Nodes(b)
    && Nodes(a) !! Nodes(d)
    && Nodes(b) !! Nodes(d)
  }

  lemma LeftPieces(c: Ctx, t: Tree)
    requires Apart(c, t) && t.Bin? && t.right.Bin?
    ensures Pieces(c, t.n, t.right.n, t.left, t.right.left, t.right.right)
    ensures Nodes(t) == Nodes(t.left) + Nodes(t.right.left) + Nodes(t.right.right) + {t.n, t.right.n}
    ensures Nodes(RotatedLeft(t)) == Nodes(t) && Distinct(RotatedLeft(t))
  {
    ParentOutside(c, t);
    hide Nodes, Distinct, DistinctCtx, CtxNodes;
    SplitBin(t);
    SplitBin(t.right);
    BuildBin(t.left, t.n, t.red, t.right.left);
    BuildBin(Bin(t.left, t.n, t.red, t.right.left), t.right.n, t.right.red, t.right.right);
  }

  lemma SplitBin(t: Tree)
    requires Distinct(t) && t.Bin?
    ensures Nodes(t) == Nodes(t.left) + {t.n} + Nodes(t.right)
    ensures Distinct(t.left) && Distinct(t.right) && t.n !in Nodes(t.left) && t.n !in Nodes(t.right)
    ensures Nodes(t.left) !! Nodes(t.right)
  {
  }

  lemma BuildBin(l: Tree, n: Ptr, red: bool, r: Tree)
    requires Distinct(l) && Distinct(r) && n !in Nodes(l) && n !in Nodes(r) && Nodes(l) !! Nodes(r)
    ensures Distinct(Bin(l, n, red, r)) && Nodes(Bin(l, n, red, r)) == Nodes(l) + {n} + Nodes(r)
  {
  }

  lemma ParentOutside(c: Ctx, t: Tree)
    requires Apart(c, t)
    ensures c.Top? || c.n !in Nodes(t)
  {
    assert c.Top? || c.n in CtxNodes(c);
  }

  lemma RightPieces(c: Ctx, t: Tree)
    requires Apart(c, t) && t.Bin? && t.left.Bin?
    ensures Pieces(c, t.n, t.left.n, t.right, t.left.right, t.left.left)
    ensures Nodes(t) == Nodes(t.right) + Nodes(t.left.right) + Nodes(t.left.left) + {t.n, t.left.n}
    ensures Nodes(RotatedRight(t)) == Nodes(t) && Distinct(RotatedRight(t))
  {
    ParentOutside(c, t);
    hide Nodes, Distinct, DistinctCtx, CtxNodes;
    SplitBin(t);
    SplitBin(t.left);
    BuildBin(t.left.right, t.n, t.red, t.right);
    BuildBin(t.left.left, t.left.n, t.left.red, Bin(t.left.right, t.n, t.red, t.right));
  }

  predicate Unlike(c: Ctx, x: Ptr, y: Ptr, b: Tree) {
    x != y && (c.Top? || (c.n != x && c.n != y)) && (b.Leaf? || (b.n != x && b.n != y && (c.Top? || b.n != c.n)))
  }

  lemma LeftPointers(c: Ctx, t: Tree)
    requires Apart(c, t) && t.Bin? && t.right.Bin?
    ensures Unlike(c, t.n, t.right.n, t.right.left)
  {
    LeftPieces(c, t);
    RootsNodes(t.right.left);
  }

  lemma RightPointers(c: Ctx, t: Tree)
    requires Apart(c, t) && t.Bin? && t.left.Bin?
    ensures Unlike(c, t.n, t.left.n, t.left.right)
  {
    RightPieces(c, t);
    RootsNodes(t.left.right);
  }

  lemma FocusStored(mem: Mem, root: Ptr, c: Ctx, t: Tree)
    requires Held(mem, root, c, t) && t.Bin?
    ensures Stores(mem, t.n, Node(Parent(c), Root(t.left), Root(t.right), t.red))
    ensures Shape(mem, t.n, t.left) && Shape(mem, t.n, t.right)
    ensures Parent(c) == 0 <==> c.Top?
    ensures !c.Top? ==> c.n in mem && (mem[c.n].left == t.n <==> c.InLeft?)
  {
    LinkSide(mem, root, c, t.n);
  }

  lemma ShapeStored(mem: Mem, up: Ptr, t: Tree)
    requires Shape(mem, up, t) && t.Bin?
    ensures Stores(mem, t.n, Node(up, Root(t.left), Root(t.right), t.red))
    ensures Shape(mem, t.n, t.left) && Shape(mem, t.n, t.right)
  {
  }

  lemma RotateLeftHeld(mem: Mem, mem': Mem, root: Ptr, root': Ptr, c: Ctx, t: Tree)
    requires Held(mem, root, c, t) && t.Bin? && t.right.Bin?
    requires var x, y, b := t.n, t.right.n, t.right.left;
      && Stores(mem', x, Node(y, Root(t.left), Root(b), t.red))
      && Stores(mem', y, Node(Parent(c), x, Root(t.right.right), t.right.red))
      && (b.Bin? ==> b.n in mem && Stores(mem', b.n, mem[b.n].(parent := x)))
      && Only(mem, mem', {x, y} + Roots(b) + Parents(c))
      && Linked(mem, mem', root, root', c, y)
    ensures Held(mem', root', c, RotatedLeft(t))
  {
    hide Nodes, Distinct, DistinctCtx, CtxNodes, CtxShape;
    var x, y, b := t.n, t.right.n, t.right.left;
    var s := {x, y} + Roots(b) + Parents(c);
    LeftPieces(c, t);
    FocusStored(mem, root, c, t);
    ShapeStored(mem, x, t.right);
    RootsNodes(b);
    Reparent(mem, mem', s, y, x, b);
    ShapeFrame(mem, mem', s, x, t.left);
    ShapeFrame(mem, mem', s, y, t.right.right);
    Refocus(mem, mem', s, root, root', c, t, RotatedLeft(t));
  }

  lemma RotateRightHeld(mem: Mem, mem': Mem, root: Ptr, root': Ptr, c: Ctx, t: Tree)
    requires Held(mem, root, c, t) && t.Bin? && t.left.Bin?
    requires var x, y, b := t.n, t.left.n, t.left.right;
      && Stores(mem', x, Node(y, Root(b), Root(t.right), t.red))
      && Stores(mem', y, Node(Parent(c), Root(t.left.left), x, t.left.red))
      && (b.Bin? ==> b.n in mem && Stores(mem', b.n, mem[b.n].(parent := x)))
      && Only(mem, mem', {x, y} + Roots(b) + Parents(c))
      && Linked(mem, mem', root, root', c, y)
    ensures Held(mem', root', c, RotatedRight(t))
  {
    hide Nodes, Distinct, DistinctCtx, CtxNodes, CtxShape;
    var x, y, b := t.n, t.left.n, t.left.right;
    var s := {x, y} + Roots(b) + Parents(c);
    RightPieces(c, t);
    FocusStored(mem, root, c, t);
    ShapeStored(mem, x, t.left);
    RootsNodes(b);
    Reparent(mem, mem', s, y, x, b);
    ShapeFrame(mem, mem', s, x, t.right);
    ShapeFrame(mem, mem', s, y, t.left.left);
    Refocus(mem, mem', s, root, root', c, t, RotatedRight(t));
  }

  lemma RootsNodes(t: Tree)
    ensures Roots(t) <= Nodes(t)
  {
  }

  lemma Recolored(mem: Mem, mem': Mem, root: Ptr, c: Ctx, t: Tree, red: bool)
    requires Held(mem, root, c, t) && t.Bin? && mem' == mem[t.n := mem[t.n].(red := red)]
    ensures Held(mem', root, c, Paint(t, red)) && mem'.Keys == mem.Keys
  {
    ShapeFrame(mem, mem', {t.n}, t.n, t.left);
    ShapeFrame(mem, mem', {t.n}, t.n, t.right);
    CtxFrame(mem, mem', {t.n}, root, c, t.n);
  }

  /** The grandparent's tree after the red-uncle case: parent and uncle black, grandparent red. */
  function Lifted(c: Ctx, t: Tree): Tree
    requires c != Top && c.up != Top && c.up.sib.Bin?
  {
    Paint(Widen(c.up.(sib := Paint(c.up.sib, false)), Paint(Widen(c, t), false)), true)
  }

  lemma LiftedBalanced(c: Ctx, t: Tree)
    requires c != Top && c.up != Top && c.red && IsRed(c.up.sib)
    requires IsRed(t) && Balanced(t) && CtxBalanced(c, Height(t))
    ensures var t' := Lifted(c, t);
      IsRed(t') && Balanced(t') && CtxBalanced(c.up.up, Height(t')) && Whole(c.up.up, t') == Whole(c, t)
  {
    WholeUp(c, t);
    WholeUp(c.up, Widen(c, t));
    var d, w := c.up.(sib := Paint(c.up.sib, false)), Paint(Widen(c, t), false);
    assert InOrder(w) == InOrder(Widen(c, t)) && InOrder(d.sib) == InOrder(c.up.sib);
    assert InOrder(Lifted(c, t)) == InOrder(Widen(d, w)) == InOrder(Widen(c.up, Widen(c, t)));
  }

  /** The same leaves under x over y, or y over x. */
  lemma Regroup(a: seq<Ptr>, x: Ptr, b: seq<Ptr>, y: Ptr, d: seq<Ptr>)
    ensures (a + [x] + b) + [y] + d == a + [x] + (b + [y] + d)
  {
  }

  lemma FinishLeftOrder(c: Ctx, t: Tree)
    requires c.InLeft? && c.up.InLeft?
    ensures Whole(InLeft(c.n, false, Bin(c.sib, c.up.n, true, c.up.sib), c.up.up), t) == Whole(c, t)
  {
    var d := InLeft(c.n, false, Bin(c.sib, c.up.n, true, c.up.sib), c.up.up);
    WholeUp(c, t);
    WholeUp(c.up, Widen(c, t));
    WholeUp(d, t);
    Regroup(InOrder(t), c.n, InOrder(c.sib), c.up.n, InOrder(c.up.sib));
    assert InOrder(Widen(c, t)) == InOrder(t) + [c.n] + InOrder(c.sib);
    assert InOrder(d.sib) == InOrder(c.sib) + [c.up.n] + InOrder(c.up.sib);
    assert InOrder(Widen(d, t)) == InOrder(Widen(c.up, Widen(c, t)));
  }

  lemma FinishRightOrder(c: Ctx, t: Tree)
    requires c.InRight? && c.up.InRight?
    ensures Whole(InRight(c.n, false, Bin(c.up.sib, c.up.n, true, c.sib), c.up.up), t) == Whole(c, t)
  {
    var d := InRight(c.n, false, Bin(c.up.sib, c.up.n, true, c.sib), c.up.up);
    WholeUp(c, t);
    WholeUp(c.up, Widen(c, t));
    WholeUp(d, t);
    Regroup(InOrder(c.up.sib), c.up.n, InOrder(c.sib), c.n, InOrder(t));
    assert InOrder(Widen(c, t)) == InOrder(c.sib) + [c.n] + InOrder(t);
    assert InOrder(d.sib) == InOrder(c.up.sib) + [c.up.n] + InOrder(c.sib);
    assert InOrder(Widen(d, t)) == InOrder(Widen(c.up, Widen(c, t)));
  }

  lemma StraightenOrder(c: Ctx, t: Tree)
    requires c != Top && t.Bin?
    ensures c.InRight? ==> Whole(InLeft(t.n, t.red, t.right, c.up), Bin(c.sib, c.n, c.red, t.left)) == Whole(c, t)
    ensures c.InLeft? ==> Whole(InRight(t.n, t.red, t.left, c.up), Bin(t.right, c.n, c.red, c.sib)) == Whole(c, t)
  {
    WholeUp(c, t);
    if c.InRight? {
      var d, w := InLeft(t.n, t.red, t.right, c.up), Bin(c.sib, c.n, c.red, t.left);
      WholeUp(d, w);
      Regroup(InOrder(c.sib), c.n, InOrder(t.left), t.n, InOrder(t.right));
      assert InOrder(Widen(d, w)) == InOrder(Widen(c, t));
    } else {
      var d, w := InRight(t.n, t.red, t.left, c.up), Bin(t.right, c.n, c.red, c.sib);
      WholeUp(d, w);
      Regroup(InOrder(t.left), t.n, InOrder(t.right), c.n, InOrder(c.sib));
      assert InOrder(Widen(d, w)) == InOrder(Widen(c, t));
    }
  }

  lemma FinishLeftBalanced(c: Ctx, t: Tree, c': Ctx, t': Tree)
    requires c != Top && c.up.InLeft? && c.red && !IsRed(c.up.sib)
    requires IsRed(t) && Balanced(t) && CtxBalanced(c, Height(t))
    requires if c.InLeft? then c' == c && t' == t
             else c' == InLeft(t.n, t.red, t.right, c.up) && t' == Bin(c.sib, c.n, c.red, t.left)
    ensures var d := InLeft(c'.n, false, Bin(c'.sib, c.up.n, true, c.up.sib), c.up.up);
      && IsRed(t') && Balanced(t') && CtxBalanced(d, Height(t'))
      && Whole(d, t') == Whole(c, t) && Depth(d) < Depth(c)
  {
    hide Whole, InOrder;
    StraightenOrder(c, t);
    FinishLeftOrder(c', t');
  }

  lemma FinishRightBalanced(c: Ctx, t: Tree, c': Ctx, t': Tree)
    requires c != Top && c.up.InRight? && c.red && !IsRed(c.up.sib)
    requires IsRed(t) && Balanced(t) && CtxBalanced(c, Height(t))
    requires if c.InRight? then c' == c && t' == t
             else c' == InRight(t.n, t.red, t.left, c.up) && t' == Bin(t.right, c.n, c.red, c.sib)
    ensures var d := InRight(c'.n, false, Bin(c.up.sib, c.up.n, true, c'.sib), c.up.up);
      && IsRed(t') && Balanced(t') && CtxBalanced(d, Height(t'))
      && Whole(d, t') == Whole(c, t) && Depth(d) < Depth(c)
  {
    hide Whole, InOrder;
    StraightenOrder(c, t);
    FinishRightOrder(c', t');
  }

  /** What the source reads around the focus. */
  lemma Around(mem: Mem, root: Ptr, c: Ctx, t: Tree)
    requires Held(mem, root, c, t) && !c.Top?
    ensures Stores(mem, c.n, Node(Parent(c.up), if c.InLeft? then Root(t) else Root(c.sib),
                                  if c.InLeft? then Root(c.sib) else Root(t), c.red))
    ensures c.sib.Bin? ==> c.sib.n != 0 && c.sib.n in mem && mem[c.sib.n].red == c.sib.red
    ensures t.Bin? ==> t.n in mem && mem[t.n].parent == c.n && mem[t.n].red == t.red
    ensures t.Bin? ==> t.n != 0 && t.n != Root(c.sib)
    ensures Held(mem, root, c.up, Widen(c, t)) && Held(mem, root, Flip(c, t), c.sib)
  {
    HeldUp(mem, root, c, t);
    HeldUp(mem, root, Flip(c, t), c.sib);
    RootsNodes(c.sib);
  }

  lemma AtFocus(mem: Mem, root: Ptr, c: Ctx, t: Tree)
    requires Held(mem, root, c, t) && t.Bin?
    ensures Stores(mem, t.n, Node(Parent(c), Root(t.left), Root(t.right), t.red))
    ensures Parent(c) == 0 <==> c.Top?
  {
    FocusStored(mem, root, c, t);
  }

  /** The fields of the focus and of its parent that the insertion loop tests. */
  predicate Seen(mem: Mem, c: Ctx, t: Tree) {
    && t.Bin?
    && t.n in mem
    && mem[t.n].parent == Parent(c)
    && (c.Top? <==> Parent(c) == 0)
    && (!c.Top? ==> c.n in mem && mem[c.n].red == c.red)
  }

  lemma Enclosing(mem: Mem, root: Ptr, c: Ctx, t: Tree)
    requires Held(mem, root, c, t) && t.Bin?
    ensures Seen(mem, c, t)
  {
    FocusStored(mem, root, c, t);
  }

  lemma FocusSide(mem: Mem, root: Ptr, c: Ctx, t: Tree)
    requires Held(mem, root, c, t) && t.Bin?
    ensures Seen(mem, c, t) && (!c.Top? ==> (mem[c.n].right == t.n <==> c.InRight?))
  {
    FocusStored(mem, root, c, t);
    if !c.Top? {
      RootsNodes(c.sib);
    }
  }

  lemma ChildrenLeaf(mem: Mem, root: Ptr, c: Ctx, t: Tree)
    requires Held(mem, root, c, t) && t.Bin?
    ensures Root(t.left) == 0 <==> t.left.Leaf?
    ensures Root(t.right) == 0 <==> t.right.Leaf?
  {
    FocusStored(mem, root, c, t);
    if t.left.Bin? {
      ShapeStored(mem, t.n, t.left);
    }
    if t.right.Bin? {
      ShapeStored(mem, t.n, t.right);
    }
  }

  lemma WholeIs(c: Ctx, t: Tree)
    ensures Whole(c, t) == Before(c) + InOrder(t) + After(c)
  {
  }

  lemma RootIs(mem: Mem, root: Ptr, t: Tree)
    requires Held(mem, root, Top, t)
    ensures root == Root(t) && (root == 0 <==> t.Leaf?)
  {
  }

  lemma BlackenBalanced(c: Ctx, t: Tree)
    requires IsRed(t) && Balanced(t) && CtxBalanced(c, Height(t)) && (CtxRed(c) ==> c.up == Top)
    ensures Plug(c, t).Bin? && Balanced(Paint(Plug(c, t), false))
    ensures InOrder(Paint(Plug(c, t), false)) == InOrder(Plug(c, t))
  {
    if CtxRed(c) {
      assert Plug(c, t) == Widen(c, t);
    } else {
      PlugBalanced(c, t);
      PlugBin(c, t);
    }
  }

  lemma {:induction false} PlugBin(c: Ctx, t: Tree)
    requires t.Bin?
    ensures Plug(c, t).Bin?
    decreases c
  {
    if c != Top {
      PlugBin(c.up, Widen(c, t));
    }
  }

  // ------------------------------------------------------------------------
  // Balance during the repair after an erase
  // ------------------------------------------------------------------------

  /** Colour of the outermost node of a context. */
  predicate TopRed(c: Ctx)
    requires !c.Top?
  {
    if c.up.Top? then c.red else TopRed(c.up)
  }

  lemma {:induction false} PlugRed(c: Ctx, t: Tree)
    ensures IsRed(Plug(c, t)) == if c.Top? then IsRed(t) else TopRed(c)
    decreases c
  {
    if !c.Top? {
      PlugRed(c.up, Widen(c, t));
    }
  }

  /** Balanced once its root is painted black. */
  predicate Nearly(t: Tree) {
    t.Leaf? || Balanced(Paint(t, false))
  }

  /** The tree in focus is one black node short of what its context wants. */
  predicate Short(c: Ctx, t: Tree) {
    && Nearly(t)
    && (c.Top? || (CtxBalanced(c, Height(t) + 1) && !TopRed(c)))
  }

  lemma RedSiblingShort(left: bool, c: Ctx, t: Tree)
    requires c != Top && left == c.InLeft? && Short(c, t) && !IsRed(t) && IsRed(c.sib)
    ensures var c' := Side(left, c.n, true, Near(left, c.sib), Side(left, c.sib.n, false, Far(left, c.sib), c.up));
      Short(c', t) && !IsRed(c'.sib) && Depth(c') == Depth(c) + 1 && Whole(c', t) == Whole(c, t)
  {
    var s := c.sib;
    var c' := Side(left, c.n, true, Near(left, s), Side(left, s.n, false, Far(left, s), c.up));
    WholeUp(c, t);
    WholeUp(c', t);
    WholeUp(c'.up, Widen(c', t));
    if left {
      Regroup(InOrder(t), c.n, InOrder(s.left), s.n, InOrder(s.right));
    } else {
      Regroup(InOrder(s.left), s.n, InOrder(s.right), c.n, InOrder(t));
    }
    assert InOrder(Widen(c'.up, Widen(c', t))) == InOrder(Widen(c, t));
    assert CtxBalanced(c'.up, Height(t) + 1);
    assert TopRed(c') == TopRed(c'.up);
  }

  lemma BlackNephewsShort(c: Ctx, t: Tree)
    requires c != Top && Short(c, t) && !IsRed(t)
    ensures c.sib.Bin?
    ensures !IsRed(c.sib) && !IsRed(c.sib.left) && !IsRed(c.sib.right) ==>
              var t' := Widen(c.(sib := Paint(c.sib, true)), t);
              Short(c.up, t') && Whole(c.up, t') == Whole(c, t) && (CtxRed(c) <==> IsRed(t'))
  {
    BlackNearly(t);
    WholeUp(c, t);
    if c.sib.Bin? {
      var d := c.(sib := Paint(c.sib, true));
      assert InOrder(d.sib) == InOrder(c.sib);
      assert InOrder(Widen(d, t)) == InOrder(Widen(c, t));
      assert Height(c.sib) == Height(d.sib) + (if c.sib.red then 0 else 1);
    }
  }

  lemma BalancedNearly(t: Tree)
    requires Balanced(t)
    ensures Nearly(t)
  {
  }

  lemma BlackNearly(t: Tree)
    requires Nearly(t) && !IsRed(t)
    ensures Balanced(t)
  {
    assert t.Bin? ==> Paint(t, false) == t;
  }

  lemma RedNephewShort(left: bool, c: Ctx, t: Tree)
    requires c != Top && left == c.InLeft? && Short(c, t) && !IsRed(t) && c.sib.Bin? && !IsRed(c.sib)
    requires IsRed(Near(left, c.sib)) && !IsRed(Far(left, c.sib))
    ensures var s, n := c.sib, Near(left, c.sib);
      var c' := c.(sib := Join(left, Near(left, n), n.n, false, Join(left, Far(left, n), s.n, true, Far(left, s))));
      Short(c', t) && Whole(c', t) == Whole(c, t)
  {
    var s, n := c.sib, Near(left, c.sib);
    var c' := c.(sib := Join(left, Near(left, n), n.n, false, Join(left, Far(left, n), s.n, true, Far(left, s))));
    WholeUp(c, t);
    WholeUp(c', t);
    if left {
      Regroup(InOrder(n.left), n.n, InOrder(n.right), s.n, InOrder(s.right));
    } else {
      Regroup(InOrder(s.left), s.n, InOrder(n.left), n.n, InOrder(n.right));
    }
    assert InOrder(c'.sib) == InOrder(s);
    assert Balanced(n) && Height(Near(left, n)) == Height(Far(left, n)) == Height(Far(left, s));
    assert Height(Join(left, Far(left, n), s.n, true, Far(left, s))) == Height(Far(left, s));
    assert Balanced(Join(left, Far(left, n), s.n, true, Far(left, s)));
    assert Height(c'.sib) == Height(s) && Balanced(c'.sib);
  }

  lemma RedFarNephewDone(left: bool, c: Ctx, t: Tree)
    requires c != Top && left == c.InLeft? && Short(c, t) && !IsRed(t) && c.sib.Bin? && !IsRed(c.sib)
    requires IsRed(Far(left, c.sib))
    ensures var s := c.sib;
      var t' := Join(left, Join(left, t, c.n, false, Near(left, s)), s.n, c.red, Paint(Far(left, s), false));
      && Balanced(Plug(c.up, t')) && !IsRed(Plug(c.up, t'))
      && InOrder(Plug(c.up, t')) == Whole(c, t)
  {
    var s, f := c.sib, Paint(Far(left, c.sib), false);
    var t' := Join(left, Join(left, t, c.n, false, Near(left, s)), s.n, c.red, f);
    BlackNearly(t);
    var j := Join(left, t, c.n, false, Near(left, s));
    assert Balanced(s) && Balanced(Far(left, s));
    assert Balanced(j) && Balanced(f) && Height(j) == Height(f);
    PlugBalanced(c.up, t');
    PlugRed(c.up, t');
    PlugInOrder(c.up, t');
    WholeUp(c, t);
    assert InOrder(f) == InOrder(Far(left, s));
    if left {
      Regroup(InOrder(t), c.n, InOrder(s.left), s.n, InOrder(s.right));
    } else {
      Regroup(InOrder(s.left), s.n, InOrder(s.right), c.n, InOrder(t));
    }
    assert InOrder(t') == InOrder(Widen(c, t));
  }

  lemma ShortDone(c: Ctx, t: Tree)
    requires Short(c, t) && (c == Top || IsRed(t))
    ensures var t' := if t.Leaf? then t else Paint(t, false);
      Balanced(Plug(c, t')) && !IsRed(Plug(c, t')) && InOrder(Plug(c, t')) == Whole(c, t)
  {
    var t' := if t.Leaf? then t else Paint(t, false);
    assert InOrder(t') == InOrder(t) && Balanced(t');
    assert c != Top ==> Height(t') == Height(t) + 1;
    PlugBalanced(c, t');
    PlugRed(c, t');
    PlugInOrder(c, t');
  }

  lemma TopShort(t: Tree)
    requires Balanced(t)
    ensures Short(Top, t) && Whole(Top, t) == InOrder(t) && Depth(Top) == 0
  {
  }

  lemma LeftIsLeaf(mem: Mem, root: Ptr, c: Ctx, t: Tree)
    requires Held(mem, root, c, t) && t.Bin? && Root(t.left) == 0
    ensures t.left.Leaf?
  {
    assert t.left.Bin? ==> Shape(mem, t.n, t.left);
  }

  /** What the source reads of the sibling's children. */
  lemma Nephews(mem: Mem, root: Ptr, c: Ctx, t: Tree)
    requires Held(mem, root, c, t) && c != Top && c.sib.Bin?
    ensures var s := c.sib;
      && s.n in mem && mem[s.n].left == Root(s.left) && mem[s.n].right == Root(s.right)
      && (s.left.Bin? ==> s.left.n != 0 && s.left.n in mem && mem[s.left.n].red == s.left.red)
      && (s.right.Bin? ==> s.right.n != 0 && s.right.n in mem && mem[s.right.n].red == s.right.red)
  {
    ShapeStored(mem, c.n, c.sib);
  }

  /** The focus is the root exactly when its context is empty. */
  lemma {:induction false} CtxRoot(mem: Mem, root: Ptr, c: Ctx, p: Ptr)
    requires CtxShape(mem, root, c, p) && !c.Top?
    ensures root != 0 && root in CtxNodes(c)
    decreases c
  {
    if !c.up.Top? {
      CtxRoot(mem, root, c.up, c.n);
    }
  }

  lemma AtRoot(mem: Mem, root: Ptr, c: Ctx, t: Tree)
    requires Held(mem, root, c, t)
    ensures root == Root(t) <==> c == Top
    ensures t.Bin? ==> t.n != 0 && t.n in mem && mem[t.n].red == t.red && mem[t.n].parent == Parent(c)
  {
    if c != Top {
      CtxRoot(mem, root, c, Root(t));
      RootsNodes(t);
    }
  }

  // ------------------------------------------------------------------------
  // Taking a node out
  // ------------------------------------------------------------------------

  lemma HeldOver(mem: Mem, root: Ptr, inner: Ctx, outer: Ctx, t: Tree)
    ensures Held(mem, root, Over(inner, outer), t) <==> Held(mem, root, outer, Plug(inner, t))
  {
    OverPlug(inner, outer, t);
    HeldPlug(mem, root, Over(inner, outer), t);
    HeldPlug(mem, root, outer, Plug(inner, t));
  }

  /** A node with one child is replaced by that child. */
  lemma Spliced(mem: Mem, mem': Mem, root: Ptr, root': Ptr, c: Ctx, t: Tree, sub: Tree)
    requires Held(mem, root, c, t) && t.Bin? && (sub == t.left || sub == t.right)
    requires sub.Bin? ==> sub.n in mem && Stores(mem', sub.n, mem[sub.n].(parent := Parent(c)))
    requires Only(mem, mem', Parents(c) + Roots(sub)) && Linked(mem, mem', root, root', c, Root(sub))
    ensures Held(mem', root', c, sub)
  {
    var s := Parents(c) + Roots(sub);
    RootsNodes(sub);
    assert Nodes(sub) <= Nodes(t);
    assert Parents(c) !! Nodes(t);
    Reparent(mem, mem', s, t.n, Parent(c), sub);
    Refocus(mem, mem', s, root, root', c, t, sub);
  }

  /** The root of the focus is exchanged for a node `y` from outside. */
  lemma Exchanged(mem: Mem, mem': Mem, root: Ptr, root': Ptr, c: Ctx, t: Tree, y: Ptr)
    requires Held(mem, root, c, t) && t.Bin? && y !in Nodes(t) && y !in CtxNodes(c)
    requires Stores(mem', y, Node(Parent(c), Root(t.left), Root(t.right), t.red))
    requires t.left.Bin? ==> t.left.n in mem && Stores(mem', t.left.n, mem[t.left.n].(parent := y))
    requires t.right.Bin? ==> t.right.n in mem && Stores(mem', t.right.n, mem[t.right.n].(parent := y))
    requires Only(mem, mem', {y} + Roots(t.left) + Roots(t.right) + Parents(c)) && Linked(mem, mem', root, root', c, y)
    ensures Held(mem', root', c, t.(n := y))
  {
    var s := {y} + Roots(t.left) + Roots(t.right) + Parents(c);
    RootsNodes(t.left);
    RootsNodes(t.right);
    assert Parents(c) !! Nodes(t);
    Reparent(mem, mem', s, t.n, y, t.left);
    Reparent(mem, mem', s, t.n, y, t.right);
    Reseat(mem, mem', s, root, root', c, t.n, y);
  }

  /** The same when `y` is the right child of the root, without a left child of its own. */
  lemma ExchangedChild(mem: Mem, mem': Mem, root: Ptr, root': Ptr, c: Ctx, t: Tree)
    requires Held(mem, root, c, t) && t.Bin? && t.right.Bin? && t.right.left.Leaf?
    requires Stores(mem', t.right.n, Node(Parent(c), Root(t.left), Root(t.right.right), t.red))
    requires t.left.Bin? ==> t.left.n in mem && Stores(mem', t.left.n, mem[t.left.n].(parent := t.right.n))
    requires Only(mem, mem', {t.right.n} + Roots(t.left) + Parents(c)) && Linked(mem, mem', root, root', c, t.right.n)
    ensures Held(mem', root', c, Bin(t.left, t.right.n, t.red, t.right.right))
  {
    hide CtxShape, DistinctCtx, CtxNodes;
    var y := t.right.n;
    var s := {y} + Roots(t.left) + Parents(c);
    LeftPieces(c, t);
    RootsNodes(t.left);
    ShapeStored(mem, t.n, t.right);
    Reparent(mem, mem', s, t.n, y, t.left);
    ShapeFrame(mem, mem', s, y, t.right.right);
    Refocus(mem, mem', s, root, root', c, t, Bin(t.left, y, t.red, t.right.right));
  }

  /** After a node is taken out from above `t`: one black node short, or already balanced. */
  predicate Repairable(short: bool, c: Ctx, t: Tree) {
    if short then Short(c, t) else Balanced(Plug(c, t)) && !IsRed(Plug(c, t))
  }

  lemma EraseOne(c: Ctx, t: Tree, sub: Tree)
    requires t.Bin? && Balanced(Plug(c, t)) && !IsRed(Plug(c, t))
    requires (t.left.Leaf? && sub == t.right) || (t.right.Leaf? && sub == t.left)
    ensures Repairable(!t.red, c, sub)
    ensures Whole(c, sub) == Before(c) + InOrder(t.left) + InOrder(t.right) + After(c)
  {
    hide Plug;
    UnplugBalanced(c, t);
    PlugRed(c, t);
    BalancedNearly(sub);
    if t.red {
      PlugBalanced(c, sub);
      PlugRed(c, sub);
    }
  }

  lemma {:induction false} OverTopRed(inner: Ctx, outer: Ctx)
    requires !outer.Top?
    ensures TopRed(Over(inner, outer)) == TopRed(outer)
    decreases inner
  {
    if !inner.Top? {
      OverTopRed(inner.up, outer);
    }
  }

  lemma EraseTwoBalanced(c: Ctx, t: Tree, inner: Ctx, yt: Tree)
    requires t.Bin? && Balanced(Plug(c, t)) && !IsRed(Plug(c, t))
    requires yt.Bin? && yt.left.Leaf? && Plug(inner, yt) == t.right
    ensures Repairable(!yt.red, Over(inner, InRight(yt.n, t.red, t.left, c)), yt.right)
  {
    var outer := InRight(t.n, t.red, t.left, c);
    var d := Over(inner, InRight(yt.n, t.red, t.left, c));
    OverPlug(inner, outer, yt);
    UnplugBalanced(Over(inner, outer), yt);
    OverBalanced(inner, outer, yt.n, Height(yt));
    PlugRed(Over(inner, outer), yt);
    OverTopRed(inner, outer);
    OverTopRed(inner, InRight(yt.n, t.red, t.left, c));
    var x := yt.right;
    BalancedNearly(x);
    if yt.red {
      PlugBalanced(d, x);
      PlugRed(d, x);
    }
  }

  lemma EraseTwoOrder(c: Ctx, t: Tree, inner: Ctx, yt: Tree)
    requires t.Bin? && LeftOnly(inner) && yt.Bin? && yt.left.Leaf? && Plug(inner, yt) == t.right
    ensures Whole(Over(inner, InRight(yt.n, t.red, t.left, c)), yt.right) ==
            Before(c) + InOrder(t.left) + InOrder(t.right) + After(c)
  {
    var outer := InRight(yt.n, t.red, t.left, c);
    var p := Plug(inner, yt.right);
    MinFirst(inner, yt);
    assert Before(outer) == Before(c) + InOrder(t.left) + [yt.n] && After(outer) == After(c);
    hide InOrder, Before, After, Plug, Over;
    OverPlug(inner, outer, yt.right);
    PlugInOrder(Over(inner, outer), yt.right);
    PlugInOrder(outer, p);
    Append(Before(c) + InOrder(t.left), yt.n, InOrder(p), After(c));
  }

  lemma MinFirst(inner: Ctx, yt: Tree)
    requires LeftOnly(inner) && yt.Bin? && yt.left.Leaf?
    ensures InOrder(Plug(inner, yt)) == [yt.n] + InOrder(Plug(inner, yt.right))
  {
    assert InOrder(yt) == [yt.n] + InOrder(yt.right);
    hide InOrder;
    LeftOnlyFirst(inner, yt);
    LeftOnlyFirst(inner, yt.right);
  }

  lemma {:induction false} OverNodes(inner: Ctx, outer: Ctx)
    ensures CtxNodes(Over(inner, outer)) == CtxNodes(inner) + CtxNodes(outer)
    decreases inner
  {
    if !inner.Top? {
      OverNodes(inner.up, outer);
    }
  }

  /** The source tells the two cases apart by the successor's parent. */
  lemma ParentOfMin(mem: Mem, root: Ptr, inner: Ctx, outer: Ctx, yt: Tree)
    requires Held(mem, root, Over(inner, outer), yt) && yt.Bin? && !outer.Top?
    ensures yt.n in mem && mem[yt.n].parent == (if inner.Top? then outer.n else inner.n)
    ensures !inner.Top? ==> inner.n != outer.n
  {
    FocusStored(mem, root, Over(inner, outer), yt);
    if !inner.Top? {
      OverNodes(inner.up, outer);
    }
  }

  lemma {:induction false} PlugInnerBin(c: Ctx, t: Tree)
    requires !c.Top?
    ensures Plug(c, t).Bin?
    decreases c
  {
    PlugBin(c.up, Widen(c, t));
  }

  /** Once the successor is spliced out it is nowhere in the tree, and the splice does not touch it. */
  lemma Successor(mem: Mem, root: Ptr, c: Ctx, t: Tree, inner: Ctx, yt: Tree)
    requires t.Bin? && Held(mem, root, Over(inner, InRight(t.n, t.red, t.left, c)), yt) && yt.Bin? && !inner.Top?
    ensures Plug(inner, yt.right).Bin? && yt.n != 0
    ensures yt.n !in Nodes(t.(right := Plug(inner, yt.right))) && yt.n !in CtxNodes(c)
    ensures yt.n !in Parents(Over(inner, InRight(t.n, t.red, t.left, c))) + Roots(yt.right)
  {
    var outer := InRight(t.n, t.red, t.left, c);
    OverNodes(inner, outer);
    PlugInnerBin(inner, yt.right);
    PlugDistinct(inner, yt.right);
    RootsNodes(yt.right);
    AtRoot(mem, root, Over(inner, outer), yt);
  }

  lemma Regroup4(a: seq<Ptr>, l: seq<Ptr>, z: Ptr, r: seq<Ptr>, b: seq<Ptr>)
    ensures a + (l + [z] + r) + b == (a + l) + [z] + (r + b)
    ensures a + l + r + b == (a + l) + (r + b)
  {
  }

  lemma Append(a: seq<Ptr>, y: Ptr, b: seq<Ptr>, d: seq<Ptr>)
    ensures (a + [y]) + b + d == a + ([y] + b) + d
  {
  }

  lemma NewLeaf(c: Ctx, node: Ptr)
    requires CtxBalanced(c, 0)
    ensures var t := Bin(Leaf, node, true, Leaf);
      IsRed(t) && Balanced(t) && CtxBalanced(c, Height(t)) && Whole(c, t) == Before(c) + [node] + After(c)
    ensures Whole(c, Leaf) == Before(c) + After(c)
  {
    assert InOrder(Bin(Leaf, node, true, Leaf)) == [node];
  }

  /** Where a new node is linked: the root pointer or a child pointer of a node. */
  datatype Slot = AtTop | LeftOf(p: Ptr) | RightOf(p: Ptr)

  function SlotOf(c: Ctx): Slot {
    match c
    case Top => AtTop
    case InLeft(n, _, _, _) => LeftOf(n)
    case InRight(n, _, _, _) => RightOf(n)
  }

  /** Position `i` holds the node, and `next` comes after it; 0 stands for the end. */
  predicate NextAt(s: seq<Ptr>, i: nat, node: Ptr, next: Ptr) {
    i < |s| && s[i] == node && next == if i + 1 < |s| then s[i + 1] else 0
  }

  class Rb {
    var root: Ptr
    var mem: Mem
    ghost var tree: Tree

    /** The pointers form one tree, with consistent parent links, that is a red-black
        tree with a black root. */
    ghost predicate Valid()
      reads this
    {
      Held(mem, root, Top, tree) && Balanced(tree) && !IsRed(tree)
    }

    ghost function Contents(): seq<Ptr>
      reads this
    {
      InOrder(tree)
    }

    /** `rb_init`, over the memory in which the nodes will live. */
    constructor (mem: Mem)
      ensures Valid() && Contents() == [] && this.mem == mem
    {
      root := 0;
      this.mem := mem;
      tree := Leaf;
    }

    /** Hangs `y` where `x` hung: the root, or a child link of x's parent. */
    method ReplaceChild(x: Ptr, y: Ptr, ghost c: Ctx)
      requires x in mem && mem[x].parent == Parent(c)
      requires c.Top? <==> Parent(c) == 0
      requires !c.Top? ==> c.n in mem && (mem[c.n].left == x <==> c.InLeft?)
      modifies this
      ensures Linked(old(mem), mem, old(root), root, c, y) && Only(old(mem), mem, Parents(c))
    {
      var p := mem[x].parent;
      if p == 0 {
        root := y;
      } else if x == mem[p].left {
        mem := mem[p := mem[p].(left := y)];
      } else {
        mem := mem[p := mem[p].(right := y)];
      }
    }

    /** `rotate_left`, with its target at the focus. */
    method RotateLeft(x: Ptr, ghost c: Ctx, ghost t: Tree)
      requires Held(mem, root, c, t) && t.Bin? && t.n == x && t.right.Bin?
      modifies this
      ensures Held(mem, root, c, RotatedLeft(t)) && mem.Keys == old(mem).Keys
    {
      hide Nodes, Distinct, DistinctCtx, CtxNodes, CtxShape, Shape;
      LeftPointers(c, t);
      FocusStored(mem, root, c, t);
      ShapeStored(mem, x, t.right);
      if t.right.left.Bin? {
        ShapeStored(mem, t.right.n, t.right.left);
      }
      var y := mem[x].right;
      mem := mem[x := mem[x].(right := mem[y].left)];
      if mem[y].left != 0 {
        var b := mem[y].left;
        mem := mem[b := mem[b].(parent := x)];
      }
      mem := mem[y := mem[y].(parent := mem[x].parent)];
      ReplaceChild(x, y, c);
      mem := mem[y := mem[y].(left := x)];
      mem := mem[x := mem[x].(parent := y)];
      RotateLeftHeld(old(mem), mem, old(root), root, c, t);
    }

    /** `rotate_right`. */
    method RotateRight(x: Ptr, ghost c: Ctx, ghost t: Tree)
      requires Held(mem, root, c, t) && t.Bin? && t.n == x && t.left.Bin?
      modifies this
      ensures Held(mem, root, c, RotatedRight(t)) && mem.Keys == old(mem).Keys
    {
      hide Nodes, Distinct, DistinctCtx, CtxNodes, CtxShape, Shape;
      RightPointers(c, t);
      FocusStored(mem, root, c, t);
      ShapeStored(mem, x, t.left);
      if t.left.right.Bin? {
        ShapeStored(mem, t.left.n, t.left.right);
      }
      var y := mem[x].left;
      mem := mem[x := mem[x].(left := mem[y].right)];
      if mem[y].right != 0 {
        var b := mem[y].right;
        mem := mem[b := mem[b].(parent := x)];
      }
      mem := mem[y := mem[y].(parent := mem[x].parent)];
      ReplaceChild(x, y, c);
      mem := mem[y := mem[y].(right := x)];
      mem := mem[x := mem[x].(parent := y)];
      RotateRightHeld(old(mem), mem, old(root), root, c, t);
    }

    /** A colour assignment at the focus. */
    method SetColor(n: Ptr, red: bool, ghost c: Ctx, ghost t: Tree)
      requires Held(mem, root, c, t) && t.Bin? && t.n == n
      modifies this`mem
      ensures Held(mem, root, c, Paint(t, red)) && mem.Keys == old(mem).Keys
    {
      mem := mem[n := mem[n].(red := red)];
      Recolored(old(mem), mem, root, c, t, red);
    }

    // ----------------------------------------------------------------------
    // Insertion
    // ----------------------------------------------------------------------

    /** First case of `rb_insert_color`: a red uncle.  The colours move up one level. */
    method RedUncle(p: Ptr, u: Ptr, g: Ptr, ghost c: Ctx, ghost t: Tree)
      requires Held(mem, root, c, t) && t.Bin?
      requires c != Top && c.up != Top && c.up.sib.Bin? && p == c.n && g == c.up.n && u == c.up.sib.n
      modifies this`mem
      ensures Held(mem, root, c.up.up, Lifted(c, t)) && mem.Keys == old(mem).Keys
    {
      hide Held;
      HeldUp(mem, root, c, t);
      SetColor(p, false, c.up, Widen(c, t));
      ghost var pt := Paint(Widen(c, t), false);
      HeldUp(mem, root, c.up, pt);
      ghost var side := Flip(c.up, pt);
      HeldUp(mem, root, side, c.up.sib);
      SetColor(u, false, side, c.up.sib);
      ghost var ut := Paint(c.up.sib, false);
      HeldUp(mem, root, side, ut);
      SetColor(g, true, c.up.up, Widen(side, ut));
    }

    /** The inner grandchild of a left parent is rotated outwards; the focus moves to the old parent. */
    method StraightenLeft(p: Ptr, ghost c: Ctx, ghost t: Tree)
      requires Held(mem, root, c, t) && t.Bin? && c.InRight? && p == c.n
      modifies this
      ensures Held(mem, root, InLeft(t.n, t.red, t.right, c.up), Bin(c.sib, c.n, c.red, t.left))
      ensures mem.Keys == old(mem).Keys
    {
      hide Held;
      HeldUp(mem, root, c, t);
      RotateLeft(p, c.up, Widen(c, t));
      HeldUp(mem, root, InLeft(t.n, t.red, t.right, c.up), Bin(c.sib, c.n, c.red, t.left));
    }

    method StraightenRight(p: Ptr, ghost c: Ctx, ghost t: Tree)
      requires Held(mem, root, c, t) && t.Bin? && c.InLeft? && p == c.n
      modifies this
      ensures Held(mem, root, InRight(t.n, t.red, t.left, c.up), Bin(t.right, c.n, c.red, c.sib))
      ensures mem.Keys == old(mem).Keys
    {
      hide Held;
      HeldUp(mem, root, c, t);
      RotateRight(p, c.up, Widen(c, t));
      HeldUp(mem, root, InRight(t.n, t.red, t.left, c.up), Bin(t.right, c.n, c.red, c.sib));
    }

    /** The outer grandchild on the left: parent black, grandparent red, and rotate right. */
    method FinishLeft(q: Ptr, g: Ptr, ghost c: Ctx, ghost t: Tree)
      requires Held(mem, root, c, t) && c.InLeft? && c.up.InLeft? && q == c.n && g == c.up.n
      modifies this
      ensures Held(mem, root, InLeft(q, false, Bin(c.sib, g, true, c.up.sib), c.up.up), t) && mem.Keys == old(mem).Keys
    {
      hide Held;
      HeldUp(mem, root, c, t);
      SetColor(q, false, c.up, Widen(c, t));
      ghost var qt := Paint(Widen(c, t), false);
      HeldUp(mem, root, c.up, qt);
      SetColor(g, true, c.up.up, Widen(c.up, qt));
      RotateRight(g, c.up.up, Paint(Widen(c.up, qt), true));
      HeldUp(mem, root, InLeft(q, false, Bin(c.sib, g, true, c.up.sib), c.up.up), t);
    }

    method FinishRight(q: Ptr, g: Ptr, ghost c: Ctx, ghost t: Tree)
      requires Held(mem, root, c, t) && c.InRight? && c.up.InRight? && q == c.n && g == c.up.n
      modifies this
      ensures Held(mem, root, InRight(q, false, Bin(c.up.sib, g, true, c.sib), c.up.up), t) && mem.Keys == old(mem).Keys
    {
      hide Held;
      HeldUp(mem, root, c, t);
      SetColor(q, false, c.up, Widen(c, t));
      ghost var qt := Paint(Widen(c, t), false);
      HeldUp(mem, root, c.up, qt);
      SetColor(g, true, c.up.up, Widen(c.up, qt));
      RotateLeft(g, c.up.up, Paint(Widen(c.up, qt), true));
      HeldUp(mem, root, InRight(q, false, Bin(c.up.sib, g, true, c.sib), c.up.up), t);
    }

    /** The black-uncle cases, both mirror images: at most two rotations, after which the
        focus has a black parent. */
    method BlackUncle(z0: Ptr, ghost c: Ctx, ghost t: Tree) returns (z: Ptr, ghost c': Ctx, ghost t': Tree)
      requires Held(mem, root, c, t) && c != Top && c.up != Top && c.red && !IsRed(c.up.sib) && IsRed(t) && t.n == z0
      requires Balanced(t) && CtxBalanced(c, Height(t))
      modifies this
      ensures Held(mem, root, c', t') && IsRed(t') && t'.n == z && mem.Keys == old(mem).Keys
      ensures Balanced(t') && CtxBalanced(c', Height(t')) && Whole(c', t') == Whole(c, t)
      ensures !CtxRed(c') && Depth(c') < Depth(c)
    {
      hide Held, Whole;
      Around(mem, root, c, t);
      Around(mem, root, c.up, Widen(c, t));
      z, c', t' := z0, c, t;
      var p := mem[z].parent;
      var g := mem[p].parent;
      if p == mem[g].left {
        if z == mem[p].right {
          z := p;
          StraightenLeft(z, c, t);
          c', t' := InLeft(t.n, t.red, t.right, c.up), Bin(c.sib, c.n, c.red, t.left);
          Around(mem, root, c', t');
        }
        var q := mem[z].parent;
        FinishLeft(q, g, c', t');
        FinishLeftBalanced(c, t, c', t');
        c' := InLeft(q, false, Bin(c'.sib, g, true, c'.up.sib), c'.up.up);
      } else {
        if z == mem[p].left {
          z := p;
          StraightenRight(z, c, t);
          c', t' := InRight(t.n, t.red, t.left, c.up), Bin(t.right, c.n, c.red, c.sib);
          Around(mem, root, c', t');
        }
        var q := mem[z].parent;
        FinishRight(q, g, c', t');
        FinishRightBalanced(c, t, c', t');
        c' := InRight(q, false, Bin(c'.up.sib, g, true, c'.sib), c'.up.up);
      }
    }

    /** `rb_insert_color`: a red node whose only fault is a red parent is absorbed. */
    method InsertColor(node: Ptr, ghost c0: Ctx, ghost t0: Tree) returns (ghost whole: Tree)
      requires Held(mem, root, c0, t0) && IsRed(t0) && t0.n == node
      requires Balanced(t0) && CtxBalanced(c0, Height(t0))
      modifies this
      ensures Held(mem, root, Top, whole) && mem.Keys == old(mem).Keys
      ensures Balanced(whole) && !IsRed(whole) && InOrder(whole) == Whole(c0, t0)
    {
      hide Held, Whole;
      var z := node;
      ghost var c, t := c0, t0;
      Enclosing(mem, root, c, t);
      while mem[z].parent != 0 && mem[mem[z].parent].red
        invariant Held(mem, root, c, t) && IsRed(t) && t.n == z && mem.Keys == old(mem).Keys
        invariant Balanced(t) && CtxBalanced(c, Height(t)) && Whole(c, t) == Whole(c0, t0)
        invariant Seen(mem, c, t)
        decreases Depth(c)
      {
        var p := mem[z].parent;
        Around(mem, root, c, t);
        Enclosing(mem, root, c.up, Widen(c, t));
        var g := mem[p].parent;
        if g == 0 {
          break;
        }
        Around(mem, root, c.up, Widen(c, t));
        var u := if p == mem[g].left then mem[g].right else mem[g].left;
        if u != 0 && mem[u].red {
          RedUncle(p, u, g, c, t);
          LiftedBalanced(c, t);
          assert Depth(c) == 1 + Depth(c.up) == 2 + Depth(c.up.up);
          z, c, t := g, c.up.up, Lifted(c, t);
        } else {
          z, c, t := BlackUncle(z, c, t);
        }
        Enclosing(mem, root, c, t);
      }
      whole := BlackenRoot(c, t);
    }

    /** The last statement of `rb_insert_color`. */
    method BlackenRoot(ghost c: Ctx, ghost t: Tree) returns (ghost whole: Tree)
      requires Held(mem, root, c, t) && IsRed(t) && Balanced(t) && CtxBalanced(c, Height(t))
      requires CtxRed(c) ==> c.up == Top
      modifies this`mem
      ensures Held(mem, root, Top, whole) && mem.Keys == old(mem).Keys
      ensures Balanced(whole) && !IsRed(whole) && InOrder(whole) == Whole(c, t)
    {
      hide Held;
      whole := Plug(c, t);
      HeldPlug(mem, root, c, t);
      PlugInOrder(c, t);
      BlackenBalanced(c, t);
      RootIs(mem, root, whole);
      if root != 0 {
        SetColor(root, false, Top, whole);
      }
      whole := Paint(whole, false);
    }

    // ----------------------------------------------------------------------
    // Repair after erasing a black node
    // ----------------------------------------------------------------------

    /** `rotate_left` (`rotate_right`) at a node whose far child is not a leaf. */
    method Rotate(left: bool, x: Ptr, ghost c: Ctx, ghost t: Tree)
      requires Held(mem, root, c, t) && t.Bin? && t.n == x && Far(left, t).Bin?
      modifies this
      ensures var y := Far(left, t);
        Held(mem, root, c, Join(left, Join(left, Near(left, t), x, t.red, Near(left, y)), y.n, y.red, Far(left, y)))
      ensures mem.Keys == old(mem).Keys
    {
      hide Held;
      if left {
        RotateLeft(x, c, t);
      } else {
        RotateRight(x, c, t);
      }
    }

    /** A colour assignment at the sibling of the focus. */
    method SetSiblingColor(w: Ptr, red: bool, ghost c: Ctx, ghost t: Tree)
      requires Held(mem, root, c, t) && c != Top && c.sib.Bin? && c.sib.n == w
      modifies this`mem
      ensures Held(mem, root, c.(sib := Paint(c.sib, red)), t) && mem.Keys == old(mem).Keys
    {
      hide Held;
      HeldUp(mem, root, c, t);
      HeldUp(mem, root, Flip(c, t), c.sib);
      SetColor(w, red, Flip(c, t), c.sib);
      HeldUp(mem, root, Flip(c, t), Paint(c.sib, red));
      HeldUp(mem, root, c.(sib := Paint(c.sib, red)), t);
    }

    /** A colour assignment at the parent of the focus. */
    method SetParentColor(p: Ptr, red: bool, ghost c: Ctx, ghost t: Tree)
      requires Held(mem, root, c, t) && c != Top && c.n == p
      modifies this`mem
      ensures Held(mem, root, c.(red := red), t) && mem.Keys == old(mem).Keys
    {
      hide Held;
      HeldUp(mem, root, c, t);
      SetColor(p, red, c.up, Widen(c, t));
      HeldUp(mem, root, c.(red := red), t);
    }

    /** A red sibling is rotated above the parent, which becomes red. */
    method RedSibling(left: bool, p: Ptr, w: Ptr, ghost c: Ctx, ghost t: Tree) returns (ghost c': Ctx)
      requires Held(mem, root, c, t) && c != Top && left == c.InLeft? && c.sib.Bin? && p == c.n && w == c.sib.n
      modifies this
      ensures c' == Side(left, p, true, Near(left, c.sib), Side(left, w, false, Far(left, c.sib), c.up))
      ensures Held(mem, root, c', t) && mem.Keys == old(mem).Keys
    {
      hide Held;
      SetSiblingColor(w, false, c, t);
      ghost var c1 := c.(sib := Paint(c.sib, false));
      SetParentColor(p, true, c1, t);
      ghost var c2 := c1.(red := true);
      HeldUp(mem, root, c2, t);
      Rotate(left, p, c.up, Widen(c2, t));
      c' := Side(left, p, true, Near(left, c.sib), Side(left, w, false, Far(left, c.sib), c.up));
      HeldUp(mem, root, c'.up, Join(left, t, p, true, Near(left, c.sib)));
      HeldUp(mem, root, c', t);
    }

    /** The sibling's near child is red: it is rotated above the sibling. */
    method RedNephew(left: bool, w: Ptr, nl: Ptr, ghost c: Ctx, ghost t: Tree) returns (ghost c': Ctx)
      requires Held(mem, root, c, t) && c != Top && left == c.InLeft? && c.sib.Bin? && w == c.sib.n
      requires Near(left, c.sib).Bin? && nl == Near(left, c.sib).n
      modifies this
      ensures var s, n := c.sib, Near(left, c.sib);
        c' == c.(sib := Join(left, Near(left, n), n.n, false, Join(left, Far(left, n), w, true, Far(left, s))))
      ensures Held(mem, root, c', t) && mem.Keys == old(mem).Keys
    {
      hide Held;
      ghost var s, n := c.sib, Near(left, c.sib);
      HeldUp(mem, root, c, t);
      ghost var d := Flip(c, t);
      HeldUp(mem, root, d, s);
      ghost var e := Side(left, w, s.red, Far(left, s), d);
      HeldUp(mem, root, e, n);
      SetColor(nl, false, e, n);
      SetParentColor(w, true, e, Paint(n, false));
      HeldUp(mem, root, e.(red := true), Paint(n, false));
      ghost var s1 := Widen(e.(red := true), Paint(n, false));
      Rotate(!left, w, d, s1);
      c' := c.(sib := Join(left, Near(left, n), n.n, false, Join(left, Far(left, n), w, true, Far(left, s))));
      HeldUp(mem, root, d, c'.sib);
      HeldUp(mem, root, c', t);
    }

    /** The last case: the sibling takes the parent's place and colour. */
    method RedFarNephew(left: bool, p: Ptr, w: Ptr, nr: Ptr, ghost c: Ctx, ghost t: Tree) returns (ghost t': Tree)
      requires Held(mem, root, c, t) && c != Top && left == c.InLeft? && c.sib.Bin? && p == c.n && w == c.sib.n
      requires Far(left, c.sib).Bin? && nr == Far(left, c.sib).n && p in mem && mem[p].red == c.red
      modifies this
      ensures var s := c.sib;
        t' == Join(left, Join(left, t, p, false, Near(left, s)), w, c.red, Paint(Far(left, s), false))
      ensures Held(mem, root, c.up, t') && mem.Keys == old(mem).Keys
    {
      hide Held;
      ghost var s, f := c.sib, Far(left, c.sib);
      SetSiblingColor(w, mem[p].red, c, t);
      ghost var c1 := c.(sib := Paint(s, c.red));
      SetParentColor(p, false, c1, t);
      ghost var c2 := c1.(red := false);
      HeldUp(mem, root, c2, t);
      ghost var d := Flip(c2, t);
      HeldUp(mem, root, d, c2.sib);
      ghost var e := Side(!left, w, c.red, Near(left, s), d);
      HeldUp(mem, root, e, f);
      SetColor(nr, false, e, f);
      HeldUp(mem, root, e, Paint(f, false));
      HeldUp(mem, root, d, Widen(e, Paint(f, false)));
      Rotate(left, p, c.up, Widen(d, Widen(e, Paint(f, false))));
      t' := Join(left, Join(left, t, p, false, Near(left, s)), w, c.red, Paint(f, false));
    }

    /** Black nephews: the sibling becomes red, and the shortage moves up to the parent. */
    method BlackNephews(p: Ptr, w: Ptr, ghost c0: Ctx, ghost t0: Tree)
      returns (x: Ptr, xp: Ptr, ghost c: Ctx, ghost t: Tree)
      requires Held(mem, root, c0, t0) && c0 != Top && p == c0.n && c0.sib.Bin? && w == c0.sib.n
      requires !c0.sib.red && !IsRed(c0.sib.left) && !IsRed(c0.sib.right) && Short(c0, t0) && !IsRed(t0)
      modifies this`mem
      ensures c == c0.up && t == Widen(c0.(sib := Paint(c0.sib, true)), t0)
      ensures Held(mem, root, c, t) && x == p == Root(t) && xp == Parent(c) && mem.Keys == old(mem).Keys
      ensures Short(c, t) && Whole(c, t) == Whole(c0, t0)
    {
      hide Held, Whole, Short;
      BlackNephewsShort(c0, t0);
      SetSiblingColor(w, true, c0, t0);
      ghost var d := c0.(sib := Paint(c0.sib, true));
      HeldUp(mem, root, d, t0);
      Around(mem, root, d, t0);
      x, xp := p, mem[p].parent;
      c, t := c0.up, Widen(d, t0);
    }

    /** A red nephew: at most two rotations, and nothing is short any more. */
    method OneRedNephew(left: bool, p: Ptr, w0: Ptr, near: Ptr, far0: Ptr, ghost c0: Ctx, ghost t0: Tree)
      returns (ghost t: Tree)
      requires Held(mem, root, c0, t0) && c0 != Top && p == c0.n && left == c0.InLeft? && Short(c0, t0) && !IsRed(t0)
      requires c0.sib.Bin? && !c0.sib.red && w0 == c0.sib.n
      requires near == Root(Near(left, c0.sib)) && far0 == Root(Far(left, c0.sib))
      requires IsRed(Near(left, c0.sib)) || IsRed(Far(left, c0.sib))
      modifies this
      ensures Held(mem, root, Top, t) && mem.Keys == old(mem).Keys
      ensures Short(Top, t) && Whole(Top, t) == Whole(c0, t0)
    {
      hide Held, Whole, Short;
      var w, far := w0, far0;
      ghost var c := c0;
      Around(mem, root, c, t0);
      Nephews(mem, root, c, t0);
      if far == 0 || !mem[far].red {
        RedNephewShort(left, c, t0);
        c := RedNephew(left, w, near, c, t0);
        Around(mem, root, c, t0);
        Nephews(mem, root, c, t0);
        w := if left then mem[p].right else mem[p].left;
        far := if left then mem[w].right else mem[w].left;
      }
      RedFarNephewDone(left, c, t0);
      ghost var t' := RedFarNephew(left, p, w, far, c, t0);
      HeldPlug(mem, root, c.up, t');
      t := Plug(c.up, t');
      TopShort(t);
    }

    /** One turn of `erase_fixup`, for a focus that is the left (right) child of `p`. */
    method FixupStep(left: bool, p: Ptr, ghost c0: Ctx, ghost t0: Tree)
      returns (x: Ptr, xp: Ptr, ghost c: Ctx, ghost t: Tree)
      requires Held(mem, root, c0, t0) && c0 != Top && p == c0.n && left == c0.InLeft? && Short(c0, t0) && !IsRed(t0)
      modifies this
      ensures Held(mem, root, c, t) && x == Root(t) && (x == 0 ==> xp == Parent(c)) && mem.Keys == old(mem).Keys
      ensures Short(c, t) && Whole(c, t) == Whole(c0, t0)
      ensures Depth(c) + (if IsRed(t) then 0 else 1) < Depth(c0) + 1
    {
      hide Held, Whole, Short;
      c, t := c0, t0;
      Around(mem, root, c, t);
      BlackNephewsShort(c, t);
      var w := if left then mem[p].right else mem[p].left;
      if w != 0 && mem[w].red {
        RedSiblingShort(left, c, t);
        c := RedSibling(left, p, w, c, t);
        Around(mem, root, c, t);
        BlackNephewsShort(c, t);
        w := if left then mem[p].right else mem[p].left;
      }
      Nephews(mem, root, c, t);
      var near := if left then mem[w].left else mem[w].right;
      var far := if left then mem[w].right else mem[w].left;
      if (near == 0 || !mem[near].red) && (far == 0 || !mem[far].red) {
        x, xp, c, t := BlackNephews(p, w, c, t);
      } else {
        t := OneRedNephew(left, p, w, near, far, c, t);
        c := Top;
        RootIs(mem, root, t);
        x, xp := root, 0;
      }
    }

    /** `erase_fixup`: from a focus one black node short, back to a balanced tree. */
    method EraseFixup(x0: Ptr, xp0: Ptr, ghost c0: Ctx, ghost t0: Tree) returns (ghost whole: Tree)
      requires Held(mem, root, c0, t0) && x0 == Root(t0) && (x0 == 0 ==> xp0 == Parent(c0)) && Short(c0, t0)
      modifies this
      ensures Held(mem, root, Top, whole) && mem.Keys == old(mem).Keys
      ensures Balanced(whole) && !IsRed(whole) && InOrder(whole) == Whole(c0, t0)
    {
      hide Held, Whole, Short;
      var x, xp := x0, xp0;
      ghost var c, t := c0, t0;
      AtRoot(mem, root, c, t);
      while x != root && (x == 0 || !mem[x].red)
        invariant Held(mem, root, c, t) && x == Root(t) && (x == 0 ==> xp == Parent(c)) && mem.Keys == old(mem).Keys
        invariant Short(c, t) && Whole(c, t) == Whole(c0, t0)
        invariant x == root <==> c == Top
        invariant t.Bin? ==> x != 0 && x in mem && mem[x].red == t.red && mem[x].parent == Parent(c)
        decreases Depth(c) + if IsRed(t) then 0 else 1
      {
        var p := if x != 0 then mem[x].parent else xp;
        Around(mem, root, c, t);
        BlackNephewsShort(c, t);
        x, xp, c, t := FixupStep(x == mem[p].left, p, c, t);
        AtRoot(mem, root, c, t);
      }
      ShortDone(c, t);
      if x != 0 {
        SetColor(x, false, c, t);
        t := Paint(t, false);
      }
      HeldPlug(mem, root, c, t);
      whole := Plug(c, t);
    }

    // ----------------------------------------------------------------------
    // Erasure
    // ----------------------------------------------------------------------

    /** `transplant`: the subtree at `v` takes the place of `u`. */
    method Transplant(u: Ptr, v: Ptr, ghost c: Ctx)
      requires u in mem && mem[u].parent == Parent(c) && (c.Top? <==> Parent(c) == 0)
      requires !c.Top? ==> c.n in mem && c.n != u && c.n != v && (mem[c.n].left == u <==> c.InLeft?)
      requires v != 0 ==> v in mem
      modifies this
      ensures Linked(old(mem), mem, old(root), root, c, v)
      ensures Only(old(mem), mem, Parents(c) + if v == 0 then {} else {v})
      ensures v != 0 ==> mem[v] == old(mem[v]).(parent := Parent(c))
    {
      ReplaceChild(u, v, c);
      if v != 0 {
        mem := mem[v := mem[v].(parent := mem[u].parent)];
      }
    }

    /** `transplant` of a node by its only child. */
    method Splice(u: Ptr, v: Ptr, ghost c: Ctx, ghost t: Tree, ghost sub: Tree)
      requires Held(mem, root, c, t) && t.Bin? && t.n == u && (sub == t.left || sub == t.right) && v == Root(sub)
      modifies this
      ensures Held(mem, root, c, sub) && Only(old(mem), mem, Parents(c) + Roots(sub))
    {
      FocusStored(mem, root, c, t);
      RootsNodes(sub);
      assert Parents(c) !! Nodes(t) && Nodes(sub) <= Nodes(t);
      if sub.Bin? {
        ShapeStored(mem, t.n, sub);
      }
      Transplant(u, v, c);
      Spliced(old(mem), mem, old(root), root, c, t, sub);
    }

    /** `rb_min`: follows left links to the first node of the focus. */
    method Min(n: Ptr, ghost outer: Ctx, ghost t: Tree) returns (y: Ptr, ghost inner: Ctx, ghost yt: Tree)
      requires Held(mem, root, outer, t) && t.Bin? && t.n == n
      ensures Plug(inner, yt) == t && LeftOnly(inner) && yt.Bin? && yt.n == y && yt.left.Leaf?
      ensures Held(mem, root, Over(inner, outer), yt)
      ensures InOrder(t) != [] && InOrder(t)[0] == y
    {
      hide Held;
      y, inner, yt := n, Top, t;
      AtFocus(mem, root, outer, t);
      while mem[y].left != 0
        invariant Plug(inner, yt) == t && LeftOnly(inner) && yt.Bin? && yt.n == y
        invariant Held(mem, root, Over(inner, outer), yt)
        invariant y in mem && mem[y].left == Root(yt.left)
        decreases yt
      {
        ghost var c := InLeft(yt.n, yt.red, yt.right, inner);
        HeldUp(mem, root, Over(c, outer), yt.left);
        y := mem[y].left;
        inner, yt := c, yt.left;
        AtFocus(mem, root, Over(inner, outer), yt);
      }
      AtRoot(mem, root, Over(inner, outer), yt);
      LeftIsLeaf(mem, root, Over(inner, outer), yt);
      MinFirst(inner, yt);
    }

    /** The common end of the two-child case: `y`, whose right link is set, replaces `z`. */
    method TakePlace(z: Ptr, y: Ptr, ghost c: Ctx)
      requires z in mem && y in mem && z != y && mem[z].parent == Parent(c) && (c.Top? <==> Parent(c) == 0)
      requires !c.Top? ==> c.n in mem && c.n != z && c.n != y && (mem[c.n].left == z <==> c.InLeft?)
      requires y != 0 && mem[z].left in mem && mem[z].left != y && mem[z].left != z && (c.Top? || mem[z].left != c.n)
      modifies this
      ensures mem.Keys == old(mem).Keys
      ensures Stores(mem, y, Node(Parent(c), old(mem)[z].left, old(mem)[y].right, old(mem)[z].red))
      ensures mem[old(mem)[z].left] == old(mem)[old(mem)[z].left].(parent := y)
      ensures Linked(old(mem), mem, old(root), root, c, y) && Only(old(mem), mem, {y, old(mem)[z].left} + Parents(c))
    {
      Transplant(z, y, c);
      mem := mem[y := mem[y].(left := mem[z].left)];
      var l := mem[y].left;
      mem := mem[l := mem[l].(parent := y)];
      mem := mem[y := mem[y].(red := mem[z].red)];
    }

    /** The successor of `z` is its right child. */
    method AdoptChild(z: Ptr, y: Ptr, ghost c: Ctx, ghost t: Tree)
      requires Held(mem, root, c, t) && t.Bin? && t.n == z && t.left.Bin?
      requires t.right.Bin? && t.right.left.Leaf? && t.right.n == y
      modifies this
      ensures Held(mem, root, c, Bin(t.left, y, t.red, t.right.right)) && mem.Keys == old(mem).Keys
    {
      LeftPieces(c, t);
      FocusStored(mem, root, c, t);
      ShapeStored(mem, z, t.right);
      ShapeStored(mem, z, t.left);
      RootsNodes(t.left);
      TakePlace(z, y, c);
      ExchangedChild(old(mem), mem, old(root), root, c, t);
    }

    /** The successor has already been taken out of the tree. */
    method AdoptDistant(z: Ptr, y: Ptr, ghost c: Ctx, ghost t: Tree)
      requires Held(mem, root, c, t) && t.Bin? && t.n == z && t.left.Bin? && t.right.Bin?
      requires y != 0 && y in mem && y !in Nodes(t) && y !in CtxNodes(c)
      modifies this
      ensures Held(mem, root, c, t.(n := y)) && mem.Keys == old(mem).Keys
    {
      FocusStored(mem, root, c, t);
      ShapeStored(mem, z, t.right);
      ShapeStored(mem, z, t.left);
      RootsNodes(t.left);
      RootsNodes(t.right);
      assert Parents(c) <= CtxNodes(c);
      hide Nodes, CtxNodes, Shape, CtxShape, Distinct, DistinctCtx;
      mem := mem[y := mem[y].(right := mem[z].right)];
      var r := mem[y].right;
      mem := mem[r := mem[r].(parent := y)];
      TakePlace(z, y, c);
      Exchanged(old(mem), mem, old(root), root, c, t, y);
    }

    /** The two-child case of `rb_erase`: the successor of `z` takes its place and colour. */
    method EraseTwo(z: Ptr, ghost c: Ctx, ghost t: Tree)
      returns (short: bool, x: Ptr, xp: Ptr, ghost c': Ctx, ghost t': Tree)
      requires Held(mem, root, c, t) && t.Bin? && t.n == z && t.left.Bin? && t.right.Bin?
      requires Balanced(Plug(c, t)) && !IsRed(Plug(c, t))
      modifies this
      ensures Held(mem, root, c', t') && x == Root(t') && xp == Parent(c') && mem.Keys == old(mem).Keys
      ensures Repairable(short, c', t') && Whole(c', t') == Before(c) + InOrder(t.left) + InOrder(t.right) + After(c)
    {
      hide Held, Whole, Repairable, Balanced, CtxNodes, Nodes;
      ghost var outer := InRight(z, t.red, t.left, c);
      AtFocus(mem, root, c, t);
      HeldUp(mem, root, outer, t.right);
      var y;
      ghost var inner, yt;
      y, inner, yt := Min(mem[z].right, outer, t.right);
      AtFocus(mem, root, Over(inner, outer), yt);
      short, x := !mem[y].red, mem[y].right;
      EraseTwoBalanced(c, t, inner, yt);
      EraseTwoOrder(c, t, inner, yt);
      ParentOfMin(mem, root, inner, outer, yt);
      ghost var over := InRight(y, t.red, t.left, c);
      c', t' := Over(inner, over), yt.right;
      if mem[y].parent == z {
        xp := y;
        AdoptChild(z, y, c, t);
      } else {
        Successor(mem, root, c, t, inner, yt);
        Splice(y, mem[y].right, Over(inner, outer), yt, yt.right);
        HeldOver(mem, root, inner, outer, yt.right);
        HeldUp(mem, root, outer, Plug(inner, yt.right));
        xp := mem[y].parent;
        AdoptDistant(z, y, c, t.(right := Plug(inner, yt.right)));
      }
      HeldUp(mem, root, over, Plug(inner, yt.right));
      HeldOver(mem, root, inner, over, yt.right);
    }

    // ----------------------------------------------------------------------
    // The operations on a valid tree
    // ----------------------------------------------------------------------

    /** `rb_link_node` into the empty slot at the hole of `c`. */
    method Link(node: Ptr, parent: Ptr, slot: Slot, ghost c: Ctx)
      requires Held(mem, root, c, Leaf) && parent == Parent(c) && slot == SlotOf(c)
      requires node != 0 && node in mem && node !in CtxNodes(c)
      modifies this`mem, this`root
      ensures Held(mem, root, c, Bin(Leaf, node, true, Leaf)) && mem.Keys == old(mem).Keys
    {
      mem := mem[node := Node(parent, 0, 0, true)];
      match slot {
        case AtTop => root := node;
        case LeftOf(p) => mem := mem[p := mem[p].(left := node)];
        case RightOf(p) => mem := mem[p := mem[p].(right := node)];
      }
      Reseat(old(mem), mem, {node} + Parents(c), old(root), root, c, 0, node);
    }

    /** `rb_link_node` followed by `rb_insert_color`: the node appears where it was linked
        and nothing else moves. */
    method Insert(node: Ptr, parent: Ptr, slot: Slot, ghost c: Ctx)
      requires Valid() && Plug(c, Leaf) == tree && parent == Parent(c) && slot == SlotOf(c)
      requires node != 0 && node in mem && node !in Nodes(tree)
      modifies this
      ensures Valid() && mem.Keys == old(mem).Keys
      ensures old(Contents()) == Before(c) + After(c)
      ensures Contents() == Before(c) + [node] + After(c)
    {
      HeldPlug(mem, root, c, Leaf);
      PlugDistinct(c, Leaf);
      PlugInOrder(c, Leaf);
      UnplugBalanced(c, Leaf);
      NewLeaf(c, node);
      hide Held, Balanced, CtxBalanced, InOrder, Nodes, Distinct;
      Link(node, parent, slot, c);
      tree := InsertColor(node, c, Bin(Leaf, node, true, Leaf));
    }

    /** `rb_erase`: exactly the given node disappears from the order. */
    method Erase(z: Ptr) returns (ghost before: seq<Ptr>, ghost after: seq<Ptr>)
      requires Valid() && z in Nodes(tree)
      modifies this
      ensures Valid() && mem.Keys == old(mem).Keys
      ensures old(Contents()) == before + [z] + after && Contents() == before + after
    {
      hide Held, Balanced, Whole, Short;
      ghost var c, t := Focus(tree, z, Top);
      HeldPlug(mem, root, c, t);
      PlugInOrder(c, t);
      before, after := Before(c) + InOrder(t.left), InOrder(t.right) + After(c);
      Regroup4(Before(c), InOrder(t.left), z, InOrder(t.right), After(c));
      AtFocus(mem, root, c, t);
      ChildrenLeaf(mem, root, c, t);
      var short, x, xp;
      ghost var c', t';
      if mem[z].left == 0 {
        short, x, xp := !mem[z].red, mem[z].right, mem[z].parent;
        c', t' := c, t.right;
        EraseOne(c, t, t');
        Splice(z, x, c, t, t');
      } else if mem[z].right == 0 {
        short, x, xp := !mem[z].red, mem[z].left, mem[z].parent;
        c', t' := c, t.left;
        EraseOne(c, t, t');
        Splice(z, x, c, t, t');
      } else {
        short, x, xp, c', t' := EraseTwo(z, c, t);
      }
      if short {
        tree := EraseFixup(x, xp, c', t');
      } else {
        HeldPlug(mem, root, c', t');
        PlugInOrder(c', t');
        WholeIs(c', t');
        tree := Plug(c', t');
      }
    }

    /** `rb_first`. */
    method First() returns (n: Ptr)
      requires Valid()
      ensures n == if Contents() == [] then 0 else Contents()[0]
    {
      RootIs(mem, root, tree);
      n := root;
      if n != 0 {
        ghost var inner, yt;
        n, inner, yt := Min(n, Top, tree);
      }
    }

    /** `rb_next`: the successor in the order, or 0 after the last node. */
    method Next(node: Ptr) returns (next: Ptr)
      requires Valid() && node in Nodes(tree)
      ensures exists i :: NextAt(Contents(), i, node, next)
    {
      hide Held, Balanced;
      ghost var c, t := Focus(tree, node, Top);
      HeldPlug(mem, root, c, t);
      PlugInOrder(c, t);
      AtFocus(mem, root, c, t);
      ghost var i := |Before(c)| + |InOrder(t.left)|;
      assert Contents()[i] == node;
      var n := node;
      if mem[n].right != 0 {
        ChildrenLeaf(mem, root, c, t);
        ghost var d := InRight(t.n, t.red, t.left, c);
        HeldUp(mem, root, d, t.right);
        ghost var inner, yt;
        next, inner, yt := Min(mem[n].right, d, t.right);
        assert Contents()[i + 1] == InOrder(t.right)[0];
        assert NextAt(Contents(), i, node, next);
        return;
      }
      ChildrenLeaf(mem, root, c, t);
      Enclosing(mem, root, c, t);
      ghost var after := After(c);
      assert Contents()[i + 1..] == after;
      next := Climb(n, c, t);
      assert after != [] ==> Contents()[i + 1] == after[0];
      assert NextAt(Contents(), i, node, next);
    }

    /** The upward walk of `rb_next`. */
    method Climb(node: Ptr, ghost c0: Ctx, ghost t0: Tree) returns (next: Ptr)
      requires Held(mem, root, c0, t0) && t0.Bin? && t0.n == node
      ensures next == if After(c0) == [] then 0 else After(c0)[0]
    {
      hide Held;
      var n := node;
      ghost var c, t := c0, t0;
      FocusSide(mem, root, c, t);
      while mem[n].parent != 0 && n == mem[mem[n].parent].right
        invariant Held(mem, root, c, t) && t.Bin? && t.n == n && After(c) == After(c0)
        invariant Seen(mem, c, t) && (!c.Top? ==> (mem[c.n].right == n <==> c.InRight?))
        decreases c
      {
        HeldUp(mem, root, c, t);
        n := mem[n].parent;
        c, t := c.up, Widen(c, t);
        FocusSide(mem, root, c, t);
      }
      next := mem[n].parent;
    }
  }
}
