/** Red-black trees as values: the tree, a tree with a hole, their in-order
    sequences and the red-black conditions (kernel/lib/rbtree.c). */
module RbShapes {

  /** A node is named by its address; 0 is NULL. */
  type Ptr = nat

  datatype Tree = Leaf | Bin(left: Tree, n: Ptr, red: bool, right: Tree)

  /** A tree with a hole, from the hole outwards: the hole is the left (right)
      subtree of `n`, whose other subtree is `sib`. */
  datatype Ctx = Top | InLeft(n: Ptr, red: bool, sib: Tree, up: Ctx) | InRight(n: Ptr, red: bool, sib: Tree, up: Ctx)

  function Nodes(t: Tree): set<Ptr> {
    match t
    case Leaf => {}
    case Bin(l, n, _, r) => Nodes(l) + {n} + Nodes(r)
  }

  function CtxNodes(c: Ctx): set<Ptr> {
    if c.Top? then {} else {c.n} + Nodes(c.sib) + CtxNodes(c.up)
  }

  /** No node occurs twice. */
  predicate Distinct(t: Tree) {
    match t
    case Leaf => true
    case Bin(l, n, _, r) => Distinct(l) && Distinct(r) && n !in Nodes(l) && n !in Nodes(r) && Nodes(l) !! Nodes(r)
  }

  predicate DistinctCtx(c: Ctx) {
    c.Top? ||
    (Distinct(c.sib) && DistinctCtx(c.up) && c.n !in Nodes(c.sib) && c.n !in CtxNodes(c.up) &&
        Nodes(c.sib) !! CtxNodes(c.up))
  }

  function InOrder(t: Tree): seq<Ptr> {
    match t
    case Leaf => []
    case Bin(l, n, _, r) => InOrder(l) + [n] + InOrder(r)
  }

  /** The nodes that come before (after) the hole. */
  function Before(c: Ctx): seq<Ptr> {
    match c
    case Top => []
    case InLeft(_, _, _, up) => Before(up)
    case InRight(n, _, l, up) => Before(up) + InOrder(l) + [n]
  }

  function After(c: Ctx): seq<Ptr> {
    match c
    case Top => []
    case InLeft(n, _, r, up) => [n] + InOrder(r) + After(up)
    case InRight(_, _, _, up) => After(up)
  }

  function Plug(c: Ctx, t: Tree): Tree {
    match c
    case Top => t
    case InLeft(n, red, r, up) => Plug(up, Bin(t, n, red, r))
    case InRight(n, red, l, up) => Plug(up, Bin(l, n, red, t))
  }

  function Depth(c: Ctx): nat {
    if c.Top? then 0 else 1 + Depth(c.up)
  }

  lemma Nested(a: seq<Ptr>, l: seq<Ptr>, n: Ptr, r: seq<Ptr>, b: seq<Ptr>)
    ensures a + (l + [n] + r) + b == a + l + ([n] + r + b)
    ensures a + (l + [n] + r) + b == (a + l + [n]) + r + b
  {
    assert a + (l + [n] + r) == a + l + ([n] + r);
  }

  lemma {:induction false} PlugInOrder(c: Ctx, t: Tree)
    ensures InOrder(Plug(c, t)) == Before(c) + InOrder(t) + After(c)
  {
    match c
    case Top =>
    case InLeft(n, red, r, up) =>
      PlugInOrder(up, Bin(t, n, red, r));
      Nested(Before(up), InOrder(t), n, InOrder(r), After(up));
    case InRight(n, red, l, up) =>
      PlugInOrder(up, Bin(l, n, red, t));
      Nested(Before(up), InOrder(l), n, InOrder(t), After(up));
  }

  lemma {:induction false} PlugDistinct(c: Ctx, t: Tree)
    ensures Distinct(Plug(c, t)) <==> Distinct(t) && DistinctCtx(c) && Nodes(t) !! CtxNodes(c)
    ensures Nodes(Plug(c, t)) == Nodes(t) + CtxNodes(c)
  {
    match c
    case Top =>
    case InLeft(n, red, r, up) => PlugDistinct(up, Bin(t, n, red, r));
    case InRight(n, red, l, up) => PlugDistinct(up, Bin(l, n, red, t));
  }

  // ------------------------------------------------------------------------
  // Red-black conditions
  // ------------------------------------------------------------------------

  predicate IsRed(t: Tree) {
    t.Bin? && t.red
  }

  predicate CtxRed(c: Ctx) {
    !c.Top? && c.red
  }

  /** Black nodes on the way to a leaf. */
  function Height(t: Tree): nat {
    match t
    case Leaf => 0
    case Bin(l, _, red, _) => Height(l) + (if red then 0 else 1)
  }

  /** Equal black heights and no red node with a red child. */
  predicate Balanced(t: Tree) {
    match t
    case Leaf => true
    case Bin(l, _, red, r) =>
      && Balanced(l)
      && Balanced(r)
      && Height(l) == Height(r)
      && (red ==> !IsRed(l) && !IsRed(r))
  }

  /** The same of a tree whose hole stands for a subtree of black height `h`. */
  predicate CtxBalanced(c: Ctx, h: int) {
    c.Top? ||
    (&& Balanced(c.sib)
     && Height(c.sib) == h
     && (c.red ==> !IsRed(c.sib) && !CtxRed(c.up))
     && CtxBalanced(c.up, h + (if c.red then 0 else 1)))
  }

  lemma {:induction false} PlugBalanced(c: Ctx, t: Tree)
    requires Balanced(t) && CtxBalanced(c, Height(t)) && !(IsRed(t) && CtxRed(c))
    ensures Balanced(Plug(c, t))
  {
    match c
    case Top =>
    case InLeft(n, red, r, up) => PlugBalanced(up, Bin(t, n, red, r));
    case InRight(n, red, l, up) => PlugBalanced(up, Bin(l, n, red, t));
  }

  lemma {:induction false} UnplugBalanced(c: Ctx, t: Tree)
    requires Balanced(Plug(c, t))
    ensures Balanced(t) && CtxBalanced(c, Height(t)) && !(IsRed(t) && CtxRed(c))
  {
    match c
    case Top =>
    case InLeft(n, red, r, up) => UnplugBalanced(up, Bin(t, n, red, r));
    case InRight(n, red, l, up) => UnplugBalanced(up, Bin(l, n, red, t));
  }

  /** Every node of a tree can be put in focus. */
  lemma {:induction false} Focus(t: Tree, z: Ptr, c: Ctx) returns (c': Ctx, t': Tree)
    requires z in Nodes(t)
    ensures Plug(c', t') == Plug(c, t) && t'.Bin? && t'.n == z
    decreases t
  {
    if t.n == z {
      c', t' := c, t;
    } else if z in Nodes(t.left) {
      c', t' := Focus(t.left, z, InLeft(t.n, t.red, t.right, c));
    } else {
      c', t' := Focus(t.right, z, InRight(t.n, t.red, t.left, c));
    }
  }

  // ------------------------------------------------------------------------
  // Moving the focus
  // ------------------------------------------------------------------------

  /** The tree in focus together with its parent and sibling. */
  function Widen(c: Ctx, t: Tree): Tree
    requires !c.Top?
  {
    if c.InLeft? then Bin(t, c.n, c.red, c.sib) else Bin(c.sib, c.n, c.red, t)
  }

  /** The context of the sibling, when the hole holds `t`. */
  function Flip(c: Ctx, t: Tree): Ctx
    requires !c.Top?
  {
    if c.InLeft? then InRight(c.n, c.red, t, c.up) else InLeft(c.n, c.red, t, c.up)
  }

  function Paint(t: Tree, red: bool): Tree
    requires t.Bin?
  {
    t.(red := red)
  }

  /** The nodes of the whole tree, in order. */
  function Whole(c: Ctx, t: Tree): seq<Ptr> {
    Before(c) + InOrder(t) + After(c)
  }

  lemma WholeUp(c: Ctx, t: Tree)
    requires !c.Top?
    ensures Whole(c.up, Widen(c, t)) == Whole(c, t)
  {
    assert Plug(c.up, Widen(c, t)) == Plug(c, t);
    PlugInOrder(c.up, Widen(c, t));
    PlugInOrder(c, t);
  }

  // ------------------------------------------------------------------------
  // Mirror images
  // ------------------------------------------------------------------------

  /** A context whose hole is the left (right) child. */
  function Side(left: bool, n: Ptr, red: bool, sib: Tree, up: Ctx): Ctx {
    if left then InLeft(n, red, sib, up) else InRight(n, red, sib, up)
  }

  /** A tree with `near` on the left (right). */
  function Join(left: bool, near: Tree, n: Ptr, red: bool, far: Tree): Tree {
    if left then Bin(near, n, red, far) else Bin(far, n, red, near)
  }

  function Near(left: bool, t: Tree): Tree
    requires t.Bin?
  {
    if left then t.left else t.right
  }

  function Far(left: bool, t: Tree): Tree
    requires t.Bin?
  {
    if left then t.right else t.left
  }

  // ------------------------------------------------------------------------
  // Contexts inside contexts
  // ------------------------------------------------------------------------

  function Over(inner: Ctx, outer: Ctx): Ctx {
    match inner
    case Top => outer
    case InLeft(n, red, sib, up) => InLeft(n, red, sib, Over(up, outer))
    case InRight(n, red, sib, up) => InRight(n, red, sib, Over(up, outer))
  }

  lemma {:induction false} OverPlug(inner: Ctx, outer: Ctx, t: Tree)
    ensures Plug(Over(inner, outer), t) == Plug(outer, Plug(inner, t))
    decreases inner
  {
    if !inner.Top? {
      OverPlug(inner.up, outer, Widen(inner, t));
    }
  }

  /** A path that goes left only. */
  predicate LeftOnly(c: Ctx) {
    c.Top? || (c.InLeft? && LeftOnly(c.up))
  }

  lemma {:induction false} LeftOnlyFirst(c: Ctx, t: Tree)
    requires LeftOnly(c)
    ensures Before(c) == [] && InOrder(Plug(c, t)) == InOrder(t) + After(c)
    decreases c
  {
    if !c.Top? {
      LeftOnlyFirst(c.up, Widen(c, t));
      assert InOrder(t) + [c.n] + InOrder(c.sib) + After(c.up) == InOrder(t) + ([c.n] + InOrder(c.sib) + After(c.up));
    }
  }

  /** Balance does not depend on which nodes the tree is made of. */
  lemma {:induction false} OverBalanced(inner: Ctx, outer: Ctx, y: Ptr, h: int)
    requires !outer.Top?
    ensures CtxBalanced(Over(inner, outer), h) == CtxBalanced(Over(inner, outer.(n := y)), h)
    ensures CtxRed(Over(inner, outer)) == CtxRed(Over(inner, outer.(n := y)))
    decreases inner
  {
    if !inner.Top? {
      OverBalanced(inner.up, outer, y, h + (if inner.red then 0 else 1));
    }
  }
}
