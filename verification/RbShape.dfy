/**
 The shape of a parent-linked red-black tree: what the linked nodes mean, independently
 of the order in which the code rewrites their fields.

 A `Tree` records the nodes of a subtree together with their colors, keys and data.
 A `Ctx` is a tree with one hole, kept as the path from the hole up to the root; the pair
 (tree, context) is how the loops that walk `node` upward see the whole structure.
 */
module RbShape {
  /** An unsigned 64-bit word (`qp_uint64_t`, and an untyped data pointer). */
  type Word = w: int | 0 <= w < 0x1_0000_0000_0000_0000

  type Word32 = w: int | 0 <= w < 0x1_0000_0000

  datatype Color = Red | Black

  class Node {
    var left: Node?
    var right: Node?
    var parent: Node?
    var data: Word
    var key: Word
    var color: Color

    constructor () {
      left, right, parent := null, null, null;
    }
  }

  datatype Cell = Cell(node: Node, color: Color, key: Word, data: Word)
  datatype Tree = Leaf | Branch(left: Tree, cell: Cell, right: Tree)
  /** `InLeft` is the context of the left child of `cell`, `InRight` of its right child. */
  datatype Ctx = Top | InLeft(cell: Cell, right: Tree, up: Ctx) | InRight(left: Tree, cell: Cell, up: Ctx)

  datatype Entry = Entry(node: Node, key: Word, data: Word)

  // ---------- the nodes and entries of a shape ----------

  ghost function Nodes(t: Tree): (r: set<Node>) {
    match t
    case Leaf => {}
    case Branch(l, m, r) => Nodes(l) + {m.node} + Nodes(r)
  }

  ghost function CNodes(c: Ctx): (r: set<Node>) {
    match c
    case Top => {}
    case InLeft(m, r, up) => {m.node} + Nodes(r) + CNodes(up)
    case InRight(l, m, up) => Nodes(l) + {m.node} + CNodes(up)
  }

  ghost function EntryOf(m: Cell): (r: Entry) { Entry(m.node, m.key, m.data) }

  ghost function InOrder(t: Tree): (r: seq<Entry>) {
    match t
    case Leaf => []
    case Branch(l, m, r) => InOrder(l) + [EntryOf(m)] + InOrder(r)
  }

  ghost function Before(c: Ctx): (r: seq<Entry>) {
    match c
    case Top => []
    case InLeft(m, r, up) => Before(up)
    case InRight(l, m, up) => Before(up) + InOrder(l) + [EntryOf(m)]
  }

  ghost function After(c: Ctx): (r: seq<Entry>) {
    match c
    case Top => []
    case InLeft(m, r, up) => [EntryOf(m)] + InOrder(r) + After(up)
    case InRight(l, m, up) => After(up)
  }

  /** The entries of the whole tree, seen from a focus. */
  ghost function Around(t: Tree, c: Ctx): (r: seq<Entry>) { Before(c) + InOrder(t) + After(c) }

  /** Keys strictly increase. */
  ghost predicate Sorted(s: seq<Entry>) {
    forall i, j :: 0 <= i < j < |s| ==> s[i].key < s[j].key
  }

  ghost function Plug(c: Ctx, t: Tree): (r: Tree) {
    match c
    case Top => t
    case InLeft(m, r, up) => Plug(up, Branch(t, m, r))
    case InRight(l, m, up) => Plug(up, Branch(l, m, t))
  }

  /** The contexts of the two children of `t`. */
  ghost function LeftCtx(t: Tree, c: Ctx): (r: Ctx)
    requires t.Branch?
  {
    InLeft(t.cell, t.right, c)
  }

  ghost function RightCtx(t: Tree, c: Ctx): (r: Ctx)
    requires t.Branch?
  {
    InRight(t.left, t.cell, c)
  }

  /** The context of a hole inside `inner`, itself inside `outer`. */
  ghost function Compose(inner: Ctx, outer: Ctx): (r: Ctx) {
    match inner
    case Top => outer
    case InLeft(m, r, up) => InLeft(m, r, Compose(up, outer))
    case InRight(l, m, up) => InRight(l, m, Compose(up, outer))
  }

  ghost function Depth(c: Ctx): (r: nat) {
    if c.Top? then 0 else 1 + Depth(c.up)
  }

  // ---------- what the linked nodes must look like ----------

  /** No node occurs twice in a tree, nor in a context. */
  ghost predicate Sep(t: Tree) {
    match t
    case Leaf => true
    case Branch(l, m, r) =>
      Sep(l) && Sep(r) && m.node !in Nodes(l) && m.node !in Nodes(r) && Nodes(l) !! Nodes(r)
  }

  ghost predicate CSep(c: Ctx) {
    match c
    case Top => true
    case InLeft(m, r, up) =>
      Sep(r) && CSep(up) && m.node !in Nodes(r) && m.node !in CNodes(up) && Nodes(r) !! CNodes(up)
    case InRight(l, m, up) =>
      Sep(l) && CSep(up) && m.node !in Nodes(l) && m.node !in CNodes(up) && Nodes(l) !! CNodes(up)
  }

  ghost function Ref(t: Tree, nil: Node): (r: Node) { if t.Leaf? then nil else t.cell.node }
  ghost function CRef(c: Ctx, nil: Node): (r: Node) { if c.Top? then nil else c.cell.node }

  /** The links of one node. */
  datatype Links = Links(left: Node?, right: Node?, parent: Node?, color: Color, key: Word, data: Word)
  /** The contents of the nodes at one moment. */
  type Mem = map<Node, Links>

  ghost predicate Linked(m: Cell, p: Node, l: Node, r: Node, mem: Mem) {
    m.node in mem && mem[m.node] == Links(l, r, p, m.color, m.key, m.data)
  }

  /** The nodes of `t` are linked as `t` says, below parent `p`. */
  ghost predicate Seg(t: Tree, p: Node, nil: Node, mem: Mem) {
    match t
    case Leaf => true
    case Branch(l, m, r) =>
      Linked(m, p, Ref(l, nil), Ref(r, nil), mem) && Seg(l, m.node, nil, mem) && Seg(r, m.node, nil, mem)
  }

  /** The nodes of `c` are linked as `c` says, with `x` in the hole and the tree hanging off `root`. */
  ghost predicate CSeg(c: Ctx, x: Node, nil: Node, root: Node, mem: Mem) {
    match c
    case Top => root == x
    case InLeft(m, r, up) =>
      Linked(m, CRef(up, nil), x, Ref(r, nil), mem) && Seg(r, m.node, nil, mem) && CSeg(up, m.node, nil, root, mem)
    case InRight(l, m, up) =>
      Linked(m, CRef(up, nil), Ref(l, nil), x, mem) && Seg(l, m.node, nil, mem) && CSeg(up, m.node, nil, root, mem)
  }

  /** The linked structure is the tree `Plug(c, t)`, with the focus on `t`. */
  ghost predicate Holds(t: Tree, c: Ctx, nil: Node, root: Node, mem: Mem) {
    Sep(t) && CSep(c) && Nodes(t) !! CNodes(c) && nil !in Nodes(t) && nil !in CNodes(c) &&
    Seg(t, CRef(c, nil), nil, mem) && CSeg(c, Ref(t, nil), nil, root, mem)
  }

  // ---------- parts of the structure that an update leaves alone ----------

  ghost predicate Same(mem: Mem, mem': Mem, s: set<Node>) {
    forall x | x in s :: x in mem && x in mem' && mem'[x] == mem[x]
  }

  lemma {:induction false} SegFrame(t: Tree, p: Node, nil: Node, mem: Mem, mem': Mem)
    requires Seg(t, p, nil, mem) && Same(mem, mem', Nodes(t))
    ensures Seg(t, p, nil, mem')
  {
    if t.Branch? {
      SegFrame(t.left, t.cell.node, nil, mem, mem');
      SegFrame(t.right, t.cell.node, nil, mem, mem');
    }
  }

  lemma {:induction false} CSegFrame(c: Ctx, x: Node, nil: Node, root: Node, mem: Mem, mem': Mem)
    requires CSeg(c, x, nil, root, mem) && Same(mem, mem', CNodes(c))
    ensures CSeg(c, x, nil, root, mem')
  {
    if !c.Top? {
      SegFrame(if c.InLeft? then c.right else c.left, c.cell.node, nil, mem, mem');
      CSegFrame(c.up, c.cell.node, nil, root, mem, mem');
    }
  }

  /** Only the parent link of the root of `t` changes. */
  lemma SegReparent(t: Tree, p: Node, p': Node, nil: Node, mem: Mem, mem': Mem)
    requires Sep(t) && Seg(t, p, nil, mem)
    requires t.Branch? ==>
               && Same(mem, mem', Nodes(t) - {t.cell.node})
               && t.cell.node in mem' && mem'[t.cell.node] == mem[t.cell.node].(parent := p')
    ensures Seg(t, p', nil, mem')
  {
    if t.Branch? {
      SegFrame(t.left, t.cell.node, nil, mem, mem');
      SegFrame(t.right, t.cell.node, nil, mem, mem');
    }
  }

  /** Only the link to the hole changes, from `x` to `y`. */
  lemma CSegReplace(c: Ctx, x: Node, y: Node, nil: Node, root: Node, root': Node, mem: Mem, mem': Mem)
    requires CSep(c) && CSeg(c, x, nil, root, mem)
    requires if c.Top? then root' == y else
               && root' == root && Same(mem, mem', CNodes(c) - {c.cell.node}) && c.cell.node in mem'
               && mem'[c.cell.node] == if c.InLeft? then mem[c.cell.node].(left := y) else mem[c.cell.node].(right := y)
    ensures CSeg(c, y, nil, root', mem')
  {
    if !c.Top? {
      SegFrame(if c.InLeft? then c.right else c.left, c.cell.node, nil, mem, mem');
      CSegFrame(c.up, c.cell.node, nil, root, mem, mem');
    }
  }

  lemma {:induction false} SegKeys(t: Tree, p: Node, nil: Node, mem: Mem)
    requires Seg(t, p, nil, mem)
    ensures Nodes(t) <= mem.Keys
  {
    if t.Branch? {
      SegKeys(t.left, t.cell.node, nil, mem);
      SegKeys(t.right, t.cell.node, nil, mem);
    }
  }

  lemma {:induction false} CSegKeys(c: Ctx, x: Node, nil: Node, root: Node, mem: Mem)
    requires CSeg(c, x, nil, root, mem)
    ensures CNodes(c) <= mem.Keys
  {
    if !c.Top? {
      SegKeys(if c.InLeft? then c.right else c.left, c.cell.node, nil, mem);
      CSegKeys(c.up, c.cell.node, nil, root, mem);
    }
  }

  lemma Focus(t: Tree, c: Ctx, nil: Node, root: Node, mem: Mem)
    requires t.Branch?
    ensures Holds(t, c, nil, root, mem) <==> Holds(t.left, LeftCtx(t, c), nil, root, mem)
    ensures Holds(t, c, nil, root, mem) <==> Holds(t.right, RightCtx(t, c), nil, root, mem)
  {
  }

  /** Focusing on a part of the focus changes nothing. */
  lemma {:induction false} Refocus(inner: Ctx, t: Tree, outer: Ctx, nil: Node, root: Node, mem: Mem)
    ensures Holds(t, Compose(inner, outer), nil, root, mem) <==> Holds(Plug(inner, t), outer, nil, root, mem)
    decreases inner
  {
    match inner
    case Top =>
    case InLeft(m, r, up) =>
      Refocus(up, Branch(t, m, r), outer, nil, root, mem);
      Focus(Branch(t, m, r), Compose(up, outer), nil, root, mem);
    case InRight(l, m, up) =>
      Refocus(up, Branch(l, m, t), outer, nil, root, mem);
      Focus(Branch(l, m, t), Compose(up, outer), nil, root, mem);
  }

  lemma {:induction false} ComposeTop(c: Ctx)
    ensures Compose(c, Top) == c
  {
    if !c.Top? { ComposeTop(c.up); }
  }

  lemma {:induction false} PlugNodes(c: Ctx, t: Tree)
    ensures Nodes(Plug(c, t)) == Nodes(t) + CNodes(c)
  {
    match c
    case Top =>
    case InLeft(m, r, up) => PlugNodes(up, Branch(t, m, r));
    case InRight(l, m, up) => PlugNodes(up, Branch(l, m, t));
  }

  lemma Regroup<T>(a: seq<T>, b: seq<T>, c: seq<T>, d: seq<T>, e: seq<T>)
    ensures a + (b + c + d) + e == a + b + (c + d + e)
    ensures a + (b + c + d) + e == a + b + c + d + e
  {
  }

  /** Moving the focus to a child does not change the entries. */
  lemma AroundChild(t: Tree, c: Ctx)
    requires t.Branch?
    ensures Around(t, c) == Around(t.left, LeftCtx(t, c))
    ensures Around(t, c) == Around(t.right, RightCtx(t, c))
  {
    Regroup(Before(c), InOrder(t.left), [EntryOf(t.cell)], InOrder(t.right), After(c));
  }

  lemma {:induction false} PlugInOrder(c: Ctx, t: Tree)
    ensures InOrder(Plug(c, t)) == Around(t, c)
  {
    match c
    case Top =>
    case InLeft(m, r, up) =>
      PlugInOrder(up, Branch(t, m, r));
      AroundChild(Branch(t, m, r), up);
    case InRight(l, m, up) =>
      PlugInOrder(up, Branch(l, m, t));
      AroundChild(Branch(l, m, t), up);
  }

  /** Only the root position has no parent cell: elsewhere the root is a node of the context. */
  lemma {:induction false} RootInCtx(c: Ctx, x: Node, nil: Node, root: Node, mem: Mem)
    requires CSeg(c, x, nil, root, mem)
    ensures !c.Top? ==> root in CNodes(c)
  {
    if !c.Top? { RootInCtx(c.up, c.cell.node, nil, root, mem); }
  }

  // ---------- rotations and recoloring of a shape ----------

  ghost function RotLeft(t: Tree): (r: Tree)
    requires t.Branch? && t.right.Branch?
  {
    Branch(Branch(t.left, t.cell, t.right.left), t.right.cell, t.right.right)
  }

  ghost function RotRight(t: Tree): (r: Tree)
    requires t.Branch? && t.left.Branch?
  {
    Branch(t.left.left, t.left.cell, Branch(t.left.right, t.cell, t.right))
  }

  lemma Rotate<T>(a: seq<T>, n: seq<T>, b: seq<T>, m: seq<T>, g: seq<T>)
    ensures (a + n + b) + m + g == a + n + (b + m + g)
  {
  }

  /** A rotation does not change the order of the entries. */
  lemma RotationsPreserveInOrder(t: Tree)
    requires t.Branch?
    ensures t.right.Branch? ==> InOrder(RotLeft(t)) == InOrder(t)
    ensures t.left.Branch? ==> InOrder(RotRight(t)) == InOrder(t)
  {
    if t.right.Branch? {
      var a, b, g := InOrder(t.left), InOrder(t.right.left), InOrder(t.right.right);
      Rotate(a, [EntryOf(t.cell)], b, [EntryOf(t.right.cell)], g);
    }
    if t.left.Branch? {
      var a, b, g := InOrder(t.left.left), InOrder(t.left.right), InOrder(t.right);
      Rotate(a, [EntryOf(t.left.cell)], b, [EntryOf(t.cell)], g);
    }
  }

  /** The nodes `n`, `m` and the subtrees of a rotation are pairwise apart. */
  ghost predicate Apart(n: Node, m: Node, a: Tree, b: Tree, g: Tree) {
    && Sep(a) && Sep(b) && Sep(g) && n != m
    && n !in Nodes(a) && n !in Nodes(b) && n !in Nodes(g) && m !in Nodes(a) && m !in Nodes(b) && m !in Nodes(g)
    && Nodes(a) !! Nodes(b) && Nodes(a) !! Nodes(g) && Nodes(b) !! Nodes(g)
  }

  lemma LeftRotationNodes(t: Tree)
    requires t.Branch? && t.right.Branch?
    ensures Sep(t) <==> Apart(t.cell.node, t.right.cell.node, t.left, t.right.left, t.right.right)
    ensures Sep(RotLeft(t)) <==> Apart(t.cell.node, t.right.cell.node, t.left, t.right.left, t.right.right)
    ensures Nodes(RotLeft(t)) == Nodes(t)
  {
  }

  lemma RightRotationNodes(t: Tree)
    requires t.Branch? && t.left.Branch?
    ensures Sep(t) <==> Apart(t.left.cell.node, t.cell.node, t.left.left, t.left.right, t.right)
    ensures Sep(RotRight(t)) <==> Apart(t.left.cell.node, t.cell.node, t.left.left, t.left.right, t.right)
    ensures Nodes(RotRight(t)) == Nodes(t)
  {
  }

  ghost function Paint(t: Tree, color: Color): (r: Tree)
    requires t.Branch?
  {
    t.(cell := t.cell.(color := color))
  }

  // ---------- the same updates on the linked nodes ----------

  /** Painting the node in focus. */
  lemma PaintHolds(t: Tree, color: Color, c: Ctx, nil: Node, root: Node, mem: Mem, mem': Mem)
    requires t.Branch? && Holds(t, c, nil, root, mem)
    requires mem' == mem[t.cell.node := mem[t.cell.node].(color := color)]
    ensures Holds(Paint(t, color), c, nil, root, mem')
  {
    SegKeys(t, CRef(c, nil), nil, mem);
    CSegKeys(c, t.cell.node, nil, root, mem);
    SegFrame(t.left, t.cell.node, nil, mem, mem');
    SegFrame(t.right, t.cell.node, nil, mem, mem');
    CSegFrame(c, t.cell.node, nil, root, mem, mem');
  }

  /** `up`, the parent of `x`, points to `y` where it pointed to `x`. */
  ghost function Redirect(k: Links, x: Node, y: Node): (r: Links) {
    if k.left == x then k.(left := y) else k.(right := y)
  }

  /** The links after `m` has taken the place of `n`. */
  ghost function Replaced(n: Node, m: Node, root: Node, mem: Mem): (r: Mem)
    requires n in mem && m in mem && mem[n].parent in mem
  {
    var p, up := mem[n].parent, mem[m := mem[m].(parent := mem[n].parent)];
    if n == root then up else up[p := Redirect(up[p], n, m)]
  }

  /** The links after `n` has moved below its right child `m`. */
  ghost function SwungLeft(x: Node, n: Node, m: Node, nil: Node, mem: Mem): (r: Links)
    requires x in mem && n in mem && m in mem
  {
    if x == n then mem[n].(parent := m, right := mem[m].left)
    else if x == m then mem[m].(left := n)
    else if x == mem[m].left && x != nil then mem[x].(parent := n)
    else mem[x]
  }

  /** The links after `n` has moved below its left child `m`. */
  ghost function SwungRight(x: Node, n: Node, m: Node, nil: Node, mem: Mem): (r: Links)
    requires x in mem && n in mem && m in mem
  {
    if x == n then mem[n].(parent := m, left := mem[m].right)
    else if x == m then mem[m].(right := n)
    else if x == mem[m].right && x != nil then mem[x].(parent := n)
    else mem[x]
  }

  /** The links after a left rotation at `n`, whose right child is `m`. */
  ghost function RotLeftLinks(x: Node, n: Node, m: Node, nil: Node, root: Node, mem: Mem): (r: Links)
    requires x in mem && n in mem && m in mem
  {
    if x == n then mem[n].(parent := m, right := mem[m].left)
    else if x == m then mem[m].(parent := mem[n].parent, left := n)
    else if x == mem[m].left && x != nil then mem[x].(parent := n)
    else if x == mem[n].parent && n != root then Redirect(mem[x], n, m)
    else mem[x]
  }

  ghost predicate LeftRotated(n: Node, m: Node, nil: Node, root: Node, root': Node, mem: Mem, mem': Mem) {
    && n in mem && m in mem && mem'.Keys == mem.Keys && root' == (if n == root then m else root)
    && forall x | x in mem :: mem'[x] == RotLeftLinks(x, n, m, nil, root, mem)
  }

  /** The parts around a focus with a right child. */
  ghost predicate RightParts(t: Tree, c: Ctx, nil: Node, root: Node, mem: Mem)
    requires t.Branch? && t.right.Branch?
  {
    var a, n, b, m, g := t.left, t.cell, t.right.left, t.right.cell, t.right.right;
    && Nodes(t) <= mem.Keys && CNodes(c) <= mem.Keys && (n.node == root <==> c.Top?)
    && Linked(n, CRef(c, nil), Ref(a, nil), m.node, mem) && Linked(m, n.node, Ref(b, nil), Ref(g, nil), mem)
    && Seg(a, n.node, nil, mem) && Seg(b, m.node, nil, mem) && Seg(g, m.node, nil, mem)
    && (!c.Top? ==> c.cell.node in CNodes(c))
  }

  lemma ToRightParts(t: Tree, c: Ctx, nil: Node, root: Node, mem: Mem)
    requires t.Branch? && t.right.Branch? && Holds(t, c, nil, root, mem)
    ensures RightParts(t, c, nil, root, mem)
  {
    SegKeys(t, CRef(c, nil), nil, mem);
    CSegKeys(c, t.cell.node, nil, root, mem);
    RootInCtx(c, t.cell.node, nil, root, mem);
    assert Seg(t.right, t.cell.node, nil, mem);
  }

  /** A left rotation leaves most links alone. */
  lemma LeftRotationFrame(t: Tree, c: Ctx, nil: Node, root: Node, mem: Mem)
    requires t.Branch? && t.right.Branch? && RightParts(t, c, nil, root, mem)
    requires Sep(t) && Nodes(t) !! CNodes(c) && nil !in Nodes(t) && nil !in CNodes(c)
    ensures var n, m, b := t.cell.node, t.right.cell.node, t.right.left;
            && (forall x | x in Nodes(t.left) || x in Nodes(t.right.right) ::
                  RotLeftLinks(x, n, m, nil, root, mem) == mem[x])
            && (forall x | x in Nodes(b) && x != Ref(b, nil) :: RotLeftLinks(x, n, m, nil, root, mem) == mem[x])
            && (forall x | x in CNodes(c) && x != CRef(c, nil) :: RotLeftLinks(x, n, m, nil, root, mem) == mem[x])
  {
    LeftRotationNodes(t);
  }

  lemma LeftRotationSeg(t: Tree, c: Ctx, nil: Node, root: Node, root': Node, mem: Mem, mem': Mem)
    requires t.Branch? && t.right.Branch? && RightParts(t, c, nil, root, mem)
    requires Sep(t) && Nodes(t) !! CNodes(c) && nil !in Nodes(t) && nil !in CNodes(c)
    requires LeftRotated(t.cell.node, t.right.cell.node, nil, root, root', mem, mem')
    ensures Seg(RotLeft(t), CRef(c, nil), nil, mem')
  {
    var n, m := t.cell.node, t.right.cell.node;
    var a, b, g := t.left, t.right.left, t.right.right;
    LeftRotationFrame(t, c, nil, root, mem);
    LeftRotationNodes(t);
    assert Seg(a, n, nil, mem') by { SegFrame(a, n, nil, mem, mem'); }
    assert Seg(b, n, nil, mem') by { SegReparent(b, m, n, nil, mem, mem'); }
    assert Seg(g, m, nil, mem') by { SegFrame(g, m, nil, mem, mem'); }
  }

  /** Rotating the linked nodes rotates the shape they hold. */
  lemma LeftRotationHolds(t: Tree, c: Ctx, nil: Node, root: Node, root': Node, mem: Mem, mem': Mem)
    requires t.Branch? && t.right.Branch? && Holds(t, c, nil, root, mem)
    requires LeftRotated(t.cell.node, t.right.cell.node, nil, root, root', mem, mem')
    ensures Holds(RotLeft(t), c, nil, root', mem')
  {
    LeftRotationNodes(t);
    ToRightParts(t, c, nil, root, mem);
    LeftRotationSeg(t, c, nil, root, root', mem, mem');
    LeftRotationFrame(t, c, nil, root, mem);
    CSegReplace(c, t.cell.node, t.right.cell.node, nil, root, root', mem, mem');
  }

  /** The links after a right rotation at `n`, whose left child is `m`. */
  ghost function RotRightLinks(x: Node, n: Node, m: Node, nil: Node, root: Node, mem: Mem): (r: Links)
    requires x in mem && n in mem && m in mem
  {
    if x == n then mem[n].(parent := m, left := mem[m].right)
    else if x == m then mem[m].(parent := mem[n].parent, right := n)
    else if x == mem[m].right && x != nil then mem[x].(parent := n)
    else if x == mem[n].parent && n != root then Redirect(mem[x], n, m)
    else mem[x]
  }

  ghost predicate RightRotated(n: Node, m: Node, nil: Node, root: Node, root': Node, mem: Mem, mem': Mem) {
    && n in mem && m in mem && mem'.Keys == mem.Keys && root' == (if n == root then m else root)
    && forall x | x in mem :: mem'[x] == RotRightLinks(x, n, m, nil, root, mem)
  }

  /** The parts around a focus with a left child. */
  ghost predicate LeftParts(t: Tree, c: Ctx, nil: Node, root: Node, mem: Mem)
    requires t.Branch? && t.left.Branch?
  {
    var a, n, b, m, g := t.right, t.cell, t.left.right, t.left.cell, t.left.left;
    && Nodes(t) <= mem.Keys && CNodes(c) <= mem.Keys && (n.node == root <==> c.Top?)
    && Linked(n, CRef(c, nil), m.node, Ref(a, nil), mem) && Linked(m, n.node, Ref(g, nil), Ref(b, nil), mem)
    && Seg(a, n.node, nil, mem) && Seg(b, m.node, nil, mem) && Seg(g, m.node, nil, mem)
    && (!c.Top? ==> c.cell.node in CNodes(c))
  }

  lemma ToLeftParts(t: Tree, c: Ctx, nil: Node, root: Node, mem: Mem)
    requires t.Branch? && t.left.Branch? && Holds(t, c, nil, root, mem)
    ensures LeftParts(t, c, nil, root, mem)
  {
    SegKeys(t, CRef(c, nil), nil, mem);
    CSegKeys(c, t.cell.node, nil, root, mem);
    RootInCtx(c, t.cell.node, nil, root, mem);
    assert Seg(t.left, t.cell.node, nil, mem);
  }

  /** A right rotation leaves most links alone. */
  lemma RightRotationFrame(t: Tree, c: Ctx, nil: Node, root: Node, mem: Mem)
    requires t.Branch? && t.left.Branch? && LeftParts(t, c, nil, root, mem)
    requires Sep(t) && Nodes(t) !! CNodes(c) && nil !in Nodes(t) && nil !in CNodes(c)
    ensures var n, m, b := t.cell.node, t.left.cell.node, t.left.right;
            && (forall x | x in Nodes(t.right) || x in Nodes(t.left.left) ::
                  RotRightLinks(x, n, m, nil, root, mem) == mem[x])
            && (forall x | x in Nodes(b) && x != Ref(b, nil) :: RotRightLinks(x, n, m, nil, root, mem) == mem[x])
            && (forall x | x in CNodes(c) && x != CRef(c, nil) :: RotRightLinks(x, n, m, nil, root, mem) == mem[x])
  {
    RightRotationNodes(t);
  }

  lemma RightRotationSeg(t: Tree, c: Ctx, nil: Node, root: Node, root': Node, mem: Mem, mem': Mem)
    requires t.Branch? && t.left.Branch? && LeftParts(t, c, nil, root, mem)
    requires Sep(t) && Nodes(t) !! CNodes(c) && nil !in Nodes(t) && nil !in CNodes(c)
    requires RightRotated(t.cell.node, t.left.cell.node, nil, root, root', mem, mem')
    ensures Seg(RotRight(t), CRef(c, nil), nil, mem')
  {
    var n, m := t.cell.node, t.left.cell.node;
    var a, b, g := t.right, t.left.right, t.left.left;
    RightRotationFrame(t, c, nil, root, mem);
    RightRotationNodes(t);
    assert Seg(a, n, nil, mem') by { SegFrame(a, n, nil, mem, mem'); }
    assert Seg(b, n, nil, mem') by { SegReparent(b, m, n, nil, mem, mem'); }
    assert Seg(g, m, nil, mem') by { SegFrame(g, m, nil, mem, mem'); }
  }

  /** Rotating the linked nodes rotates the shape they hold. */
  lemma RightRotationHolds(t: Tree, c: Ctx, nil: Node, root: Node, root': Node, mem: Mem, mem': Mem)
    requires t.Branch? && t.left.Branch? && Holds(t, c, nil, root, mem)
    requires RightRotated(t.cell.node, t.left.cell.node, nil, root, root', mem, mem')
    ensures Holds(RotRight(t), c, nil, root', mem')
  {
    RightRotationNodes(t);
    ToLeftParts(t, c, nil, root, mem);
    RightRotationSeg(t, c, nil, root, root', mem, mem');
    RightRotationFrame(t, c, nil, root, mem);
    CSegReplace(c, t.cell.node, t.left.cell.node, nil, root, root', mem, mem');
  }

  /** Enough to rotate left at `n`: its right child, and the neighbours to relink, are nodes apart. */
  ghost predicate CanRotateLeft(n: Node, nil: Node, root: Node, mem: Mem) {
    && n in mem && mem[n].right in mem && n != nil
    && var m, p := mem[n].right, mem[n].parent;
       && n != m && mem[m].left in mem && mem[m].left != n && mem[m].left != m && m != nil && p in mem
       && (n != root ==> p != n && p != m && p != mem[m].left && p != nil && (mem[p].left == n || mem[p].right == n))
  }

  /** A left rotation is a new parent for the right child, a new child for the parent, and a swing. */
  lemma LeftRotationLinks(x: Node, n: Node, m: Node, nil: Node, root: Node, mem: Mem, mem': Mem)
    requires CanRotateLeft(n, nil, root, mem) && m == mem[n].right && x in mem
    requires mem' == Replaced(n, m, root, mem)
    ensures SwungLeft(x, n, m, nil, mem') == RotLeftLinks(x, n, m, nil, root, mem)
  {
  }

  /** A right rotation is a new parent for the left child, a new child for the parent, and a swing. */
  lemma RightRotationLinks(x: Node, n: Node, m: Node, nil: Node, root: Node, mem: Mem, mem': Mem)
    requires CanRotateRight(n, nil, root, mem) && m == mem[n].left && x in mem
    requires mem' == Replaced(n, m, root, mem)
    ensures SwungRight(x, n, m, nil, mem') == RotRightLinks(x, n, m, nil, root, mem)
  {
  }

  lemma HoldsCanRotateLeft(t: Tree, c: Ctx, nil: Node, root: Node, mem: Mem)
    requires t.Branch? && t.right.Branch? && Holds(t, c, nil, root, mem) && nil in mem
    ensures CanRotateLeft(t.cell.node, nil, root, mem) && mem[t.cell.node].right == t.right.cell.node
    ensures forall x | x in mem && x !in Nodes(t) && x !in CNodes(c) ::
              RotLeftLinks(x, t.cell.node, t.right.cell.node, nil, root, mem) == mem[x]
  {
    ToRightParts(t, c, nil, root, mem);
    LeftRotationNodes(t);
  }

  /** Enough to rotate right at `n`: its left child, and the neighbours to relink, are nodes apart. */
  ghost predicate CanRotateRight(n: Node, nil: Node, root: Node, mem: Mem) {
    && n in mem && mem[n].left in mem && n != nil
    && var m, p := mem[n].left, mem[n].parent;
       && n != m && mem[m].right in mem && mem[m].right != n && mem[m].right != m && m != nil && p in mem
       && (n != root ==> p != n && p != m && p != mem[m].right && p != nil && (mem[p].right == n || mem[p].left == n))
  }

  lemma HoldsCanRotateRight(t: Tree, c: Ctx, nil: Node, root: Node, mem: Mem)
    requires t.Branch? && t.left.Branch? && Holds(t, c, nil, root, mem) && nil in mem
    ensures CanRotateRight(t.cell.node, nil, root, mem) && mem[t.cell.node].left == t.left.cell.node
    ensures forall x | x in mem && x !in Nodes(t) && x !in CNodes(c) ::
              RotRightLinks(x, t.cell.node, t.left.cell.node, nil, root, mem) == mem[x]
  {
    ToLeftParts(t, c, nil, root, mem);
    RightRotationNodes(t);
  }

  // ---------- walking the focus up ----------

  /** The tree one level up. */
  ghost function Fill(c: Ctx, t: Tree): (r: Tree)
    requires !c.Top?
  {
    if c.InLeft? then Branch(t, c.cell, c.right) else Branch(c.left, c.cell, t)
  }

  ghost function Sibling(c: Ctx): (r: Tree)
    requires !c.Top?
  {
    if c.InLeft? then c.right else c.left
  }

  lemma FocusUp(t: Tree, c: Ctx, nil: Node, root: Node, mem: Mem)
    requires !c.Top?
    ensures Holds(t, c, nil, root, mem) <==> Holds(Fill(c, t), c.up, nil, root, mem)
  {
    Focus(Fill(c, t), c.up, nil, root, mem);
  }

  /** The nodes and entries of the whole, seen from a focus. */
  ghost function Whole(t: Tree, c: Ctx): (set<Node>, seq<Entry>) { (Nodes(t) + CNodes(c), Around(t, c)) }

  lemma WholeTop(t: Tree)
    ensures Whole(t, Top) == (Nodes(t), InOrder(t))
  {
    assert Around(t, Top) == InOrder(t) && Nodes(t) + CNodes(Top) == Nodes(t);
  }

  lemma WholeUp(t: Tree, c: Ctx)
    requires !c.Top?
    ensures Whole(Fill(c, t), c.up) == Whole(t, c)
  {
    AroundChild(Fill(c, t), c.up);
    assert Nodes(Fill(c, t)) + CNodes(c.up) == Nodes(t) + CNodes(c);
  }

  /** The context of the sibling of the focus `t`. */
  ghost function SiblingCtx(c: Ctx, t: Tree): (r: Ctx)
    requires !c.Top?
  {
    if c.InLeft? then InRight(t, c.cell, c.up) else InLeft(c.cell, t, c.up)
  }

  ghost function WithSibling(c: Ctx, s: Tree): (r: Ctx)
    requires !c.Top?
  {
    if c.InLeft? then c.(right := s) else c.(left := s)
  }

  lemma FocusSibling(t: Tree, c: Ctx, nil: Node, root: Node, mem: Mem)
    requires !c.Top?
    ensures Holds(t, c, nil, root, mem) <==> Holds(Sibling(c), SiblingCtx(c, t), nil, root, mem)
  {
    Focus(Fill(c, t), c.up, nil, root, mem);
  }

  /** What the nodes around the focus point to. */
  lemma LinksAround(t: Tree, c: Ctx, nil: Node, root: Node, mem: Mem)
    requires Holds(t, c, nil, root, mem)
    ensures t.Branch? ==> Linked(t.cell, CRef(c, nil), Ref(t.left, nil), Ref(t.right, nil), mem)
    ensures c.Top? ==> root == Ref(t, nil)
    ensures t.Branch? ==> (root == t.cell.node <==> c.Top?)
    ensures !c.Top? ==>
              && root != nil && c.cell.node in mem && mem[c.cell.node].parent == CRef(c.up, nil)
              && mem[c.cell.node].color == c.cell.color
              && (if c.InLeft? then mem[c.cell.node].left == Ref(t, nil) && mem[c.cell.node].right == Ref(c.right, nil)
                  else mem[c.cell.node].right == Ref(t, nil) && mem[c.cell.node].left == Ref(c.left, nil))
    ensures !c.Top? && (t.Branch? || Sibling(c).Branch?) ==> (c.InLeft? <==> mem[c.cell.node].left == Ref(t, nil))
    ensures !c.Top? && Sibling(c).Branch? ==>
              var s := Sibling(c); Linked(s.cell, c.cell.node, Ref(s.left, nil), Ref(s.right, nil), mem)
  {
    RootInCtx(c, Ref(t, nil), nil, root, mem);
    assert !c.Top? ==> CNodes(c) >= Nodes(Sibling(c)) && Seg(Sibling(c), c.cell.node, nil, mem);
  }

  ghost function PaintCtx(c: Ctx, color: Color): (r: Ctx)
    requires !c.Top?
  {
    c.(cell := c.cell.(color := color))
  }

  /** Colors are not part of the contents. */
  lemma WholePainted(t: Tree, c: Ctx, color: Color)
    ensures t.Branch? ==> Whole(Paint(t, color), c) == Whole(t, c)
    ensures !c.Top? ==> Whole(t, PaintCtx(c, color)) == Whole(t, c)
    ensures !c.Top? && Sibling(c).Branch? ==> Whole(t, WithSibling(c, Paint(Sibling(c), color))) == Whole(t, c)
  {
    if t.Branch? {
      assert Nodes(Paint(t, color)) == Nodes(t) && InOrder(Paint(t, color)) == InOrder(t);
    }
    if !c.Top? {
      var c' := PaintCtx(c, color);
      assert EntryOf(c'.cell) == EntryOf(c.cell);
      assert CNodes(c') == CNodes(c) && Before(c') == Before(c) && After(c') == After(c);
    }
    if !c.Top? && Sibling(c).Branch? {
      var s := Sibling(c);
      var c' := WithSibling(c, Paint(s, color));
      assert Nodes(Paint(s, color)) == Nodes(s) && InOrder(Paint(s, color)) == InOrder(s);
      assert CNodes(c') == CNodes(c) && Before(c') == Before(c) && After(c') == After(c);
    }
  }

  // ---------- red-black invariants ----------

  ghost predicate IsRedTree(t: Tree) { t.Branch? && t.cell.color.Red? }

  /** Black nodes on the leftmost path; on every path, when `Balanced`. */
  ghost function BlackHeight(t: Tree): (r: nat) {
    if t.Leaf? then 0 else BlackHeight(t.left) + if t.cell.color.Black? then 1 else 0
  }

  /** Equal black counts on all paths and no red node with a red child. */
  ghost predicate Balanced(t: Tree) {
    t.Branch? ==>
      && Balanced(t.left) && Balanced(t.right) && BlackHeight(t.left) == BlackHeight(t.right)
      && (t.cell.color.Red? ==> !IsRedTree(t.left) && !IsRedTree(t.right))
  }

  /** The red-black property of a whole tree. */
  ghost predicate RedBlack(t: Tree) { Balanced(t) && !IsRedTree(t) }

  /** The context is red-black around a hole of black height `h`, if the hole is not red under red. */
  ghost predicate CtxBalanced(c: Ctx, h: nat) {
    match c
    case Top => true
    case InLeft(m, r, up) =>
      && Balanced(r) && BlackHeight(r) == h
      && (m.color.Red? ==> !IsRedTree(r) && !NeedsBlack(up))
      && CtxBalanced(up, h + if m.color.Black? then 1 else 0)
    case InRight(l, m, up) =>
      && Balanced(l) && BlackHeight(l) == h
      && (m.color.Red? ==> !IsRedTree(l) && !NeedsBlack(up))
      && CtxBalanced(up, h + if m.color.Black? then 1 else 0)
  }

  /** The hole is at the root or below a red node. */
  ghost predicate NeedsBlack(c: Ctx) { c.Top? || c.cell.color.Red? }

  lemma {:induction false} PlugRedBlack(c: Ctx, t: Tree)
    ensures RedBlack(Plug(c, t)) <==>
            Balanced(t) && CtxBalanced(c, BlackHeight(t)) && (NeedsBlack(c) ==> !IsRedTree(t))
  {
    match c
    case Top =>
    case InLeft(m, r, up) => PlugRedBlack(up, Branch(t, m, r));
    case InRight(l, m, up) => PlugRedBlack(up, Branch(l, m, t));
  }

  // ---------- height ----------

  ghost function Size(t: Tree): (r: nat) {
    if t.Leaf? then 0 else Size(t.left) + 1 + Size(t.right)
  }

  ghost function Height(t: Tree): (r: nat) {
    if t.Leaf? then 0 else 1 + if Height(t.left) > Height(t.right) then Height(t.left) else Height(t.right)
  }

  ghost function Pow2(n: nat): (r: nat) { if n == 0 then 1 else 2 * Pow2(n - 1) }

  lemma {:induction false} BlackHeightBounds(t: Tree)
    requires Balanced(t)
    ensures Pow2(BlackHeight(t)) <= Size(t) + 1
    ensures Height(t) <= 2 * BlackHeight(t) + if IsRedTree(t) then 1 else 0
  {
    if t.Branch? {
      BlackHeightBounds(t.left);
      BlackHeightBounds(t.right);
    }
  }

  lemma {:induction false} Pow2Monotone(a: nat, b: nat)
    requires a <= b
    ensures Pow2(a) <= Pow2(b)
    decreases b - a
  {
    if a < b { Pow2Monotone(a, b - 1); }
  }

  /** At most 2*log2(n+1) nodes. */
  ghost predicate AtMostTwoLogs(visited: nat, n: nat) { Pow2((visited + 1) / 2) <= n + 1 }

  /** How many nodes of a search tree the path to `key` visits, down to the node that holds it or to a leaf. */
  ghost function SearchDepth(t: Tree, key: Word): (n: nat)
    ensures n <= Height(t)
  {
    if t.Leaf? then 0
    else if key == t.cell.key then 1
    else 1 + SearchDepth(if key < t.cell.key then t.left else t.right, key)
  }

  /** A path down a red-black tree of n nodes visits at most 2*log2(n+1) of them. */
  lemma PathIsLogarithmic(visited: nat, t: Tree)
    requires RedBlack(t) && visited <= Height(t)
    ensures AtMostTwoLogs(visited, Size(t))
  {
    BlackHeightBounds(t);
    Pow2Monotone((visited + 1) / 2, BlackHeight(t));
  }

  // ---------- one red node too many ----------

  /** The focus is a red node that may sit below another red node; everything else is red-black. */
  ghost predicate RedFocus(t: Tree, c: Ctx) {
    IsRedTree(t) && Balanced(t) && CtxBalanced(c, BlackHeight(t))
  }

  /** Parent and uncle turn black, the grandparent red: the new focus. */
  ghost function PushedUp(t: Tree, c: Ctx): (r: Tree)
    requires !c.Top? && !c.up.Top? && Sibling(c.up).Branch?
  {
    Fill(PaintCtx(WithSibling(c.up, Paint(Sibling(c.up), Black)), Red), Fill(PaintCtx(c, Black), t))
  }

  lemma PushedUpIsRedFocus(t: Tree, c: Ctx)
    requires RedFocus(t, c) && !c.Top? && c.cell.color.Red? && !c.up.Top? && IsRedTree(Sibling(c.up))
    ensures RedFocus(PushedUp(t, c), c.up.up) && Whole(PushedUp(t, c), c.up.up) == Whole(t, c)
  {
    var c1 := PaintCtx(c, Black);
    var c2 := WithSibling(c.up, Paint(Sibling(c.up), Black));
    var p := Fill(c1, t);
    assert CtxBalanced(c.up, BlackHeight(t));
    assert Balanced(p) && BlackHeight(p) == BlackHeight(t) + 1;
    assert Balanced(Sibling(c2)) && BlackHeight(Sibling(c2)) == BlackHeight(t) + 1;
    WholePainted(t, c, Black);
    WholeUp(t, c1);
    WholePainted(p, c.up, Black);
    WholePainted(p, c2, Red);
    WholeUp(p, PaintCtx(c2, Red));
  }

  /** The red node is the right child of a left child: after a left rotation at its parent, the former parent
      is the red node to mend, and it is a left child of a left child. */
  lemma InnerLeftRotation(t: Tree, c: Ctx)
    requires RedFocus(t, c) && c.InRight? && c.cell.color.Red? && c.up.InLeft?
    ensures var r := RotLeft(Fill(c, t)); var c' := LeftCtx(r, c.up);
            RedFocus(r.left, c') && c'.cell.color.Red? && Whole(r.left, c') == Whole(t, c)
  {
    var r := RotLeft(Fill(c, t));
    assert CtxBalanced(c.up, BlackHeight(t));
    LeftRotationNodes(Fill(c, t));
    RotationsPreserveInOrder(Fill(c, t));
    WholeUp(t, c);
    WholeUp(r.left, LeftCtx(r, c.up));
  }

  /** The red node is the left child of a left child with a black uncle: recoloring parent and grandparent
      and a right rotation at the grandparent leave a red node below a black one. */
  lemma OuterRightRotation(t: Tree, c: Ctx)
    requires RedFocus(t, c) && c.InLeft? && c.cell.color.Red? && c.up.InLeft? && !IsRedTree(c.up.right)
    ensures var r := RotRight(Fill(PaintCtx(c.up, Red), Fill(PaintCtx(c, Black), t)));
            var c' := LeftCtx(r, c.up.up);
            r.left == t && RedFocus(t, c') && c'.cell.color.Black? && Whole(t, c') == Whole(t, c)
  {
    var p := Fill(PaintCtx(c, Black), t);
    var g := Fill(PaintCtx(c.up, Red), p);
    var r := RotRight(g);
    assert CtxBalanced(c.up, BlackHeight(t));
    RightRotationNodes(g);
    RotationsPreserveInOrder(g);
    WholePainted(t, c, Black);
    WholeUp(t, PaintCtx(c, Black));
    WholePainted(p, c.up, Red);
    WholeUp(p, PaintCtx(c.up, Red));
    WholeUp(t, LeftCtx(r, c.up.up));
  }

  /** The red node is the left child of a right child: after a right rotation at its parent, the former parent
      is the red node to mend, and it is a right child of a right child. */
  lemma InnerRightRotation(t: Tree, c: Ctx)
    requires RedFocus(t, c) && c.InLeft? && c.cell.color.Red? && c.up.InRight?
    ensures var r := RotRight(Fill(c, t)); var c' := RightCtx(r, c.up);
            RedFocus(r.right, c') && c'.cell.color.Red? && Whole(r.right, c') == Whole(t, c)
  {
    var r := RotRight(Fill(c, t));
    assert CtxBalanced(c.up, BlackHeight(t));
    RightRotationNodes(Fill(c, t));
    RotationsPreserveInOrder(Fill(c, t));
    WholeUp(t, c);
    WholeUp(r.right, RightCtx(r, c.up));
  }

  /** The red node is the right child of a right child with a black uncle: recoloring parent and grandparent
      and a left rotation at the grandparent leave a red node below a black one. */
  lemma OuterLeftRotation(t: Tree, c: Ctx)
    requires RedFocus(t, c) && c.InRight? && c.cell.color.Red? && c.up.InRight? && !IsRedTree(c.up.left)
    ensures var r := RotLeft(Fill(PaintCtx(c.up, Red), Fill(PaintCtx(c, Black), t)));
            var c' := RightCtx(r, c.up.up);
            r.right == t && RedFocus(t, c') && c'.cell.color.Black? && Whole(t, c') == Whole(t, c)
  {
    var p := Fill(PaintCtx(c, Black), t);
    var g := Fill(PaintCtx(c.up, Red), p);
    var r := RotLeft(g);
    assert CtxBalanced(c.up, BlackHeight(t));
    LeftRotationNodes(g);
    RotationsPreserveInOrder(g);
    WholePainted(t, c, Black);
    WholeUp(t, PaintCtx(c, Black));
    WholePainted(p, c.up, Red);
    WholeUp(p, PaintCtx(c.up, Red));
    WholeUp(t, RightCtx(r, c.up.up));
  }

  /** Back to the root: the whole tree in focus. */
  lemma WholeTree(t: Tree, c: Ctx, nil: Node, root: Node, mem: Mem)
    ensures Holds(t, c, nil, root, mem) <==> Holds(Plug(c, t), Top, nil, root, mem)
    ensures Whole(Plug(c, t), Top) == Whole(t, c)
    ensures InOrder(Plug(c, t)) == Around(t, c) && Nodes(Plug(c, t)) == Nodes(t) + CNodes(c)
    ensures t.Branch? ==> Plug(c, t).Branch?
  {
    Refocus(c, t, Top, nil, root, mem);
    ComposeTop(c);
    PlugInOrder(c, t);
    PlugNodes(c, t);
    assert t.Branch? ==> t.cell.node in Nodes(Plug(c, t));
    assert Around(Plug(c, t), Top) == InOrder(Plug(c, t));
    assert Nodes(Plug(c, t)) + CNodes(Top) == Nodes(t) + CNodes(c);
  }

  /** With the root painted black, a red focus at the root or below a black node is a red-black tree. */
  lemma BlackRoot(t: Tree, c: Ctx)
    requires RedFocus(t, c) && (!c.Top? ==> c.cell.color.Black?) && Plug(c, t).Branch?
    ensures RedBlack(Paint(Plug(c, t), Black))
    ensures !c.Top? ==> RedBlack(Plug(c, t))
  {
    PlugRedBlack(c, t);
  }

  /** A red node's parent being red, it has a black grandparent. */
  lemma RedParentHasParent(t: Tree, c: Ctx)
    requires RedFocus(t, c) && !c.Top? && c.cell.color.Red?
    ensures !c.up.Top? && c.up.cell.color.Black?
  {
  }

  // ---------- one black node too few ----------

  /** Paths through the focus have one black node less than all others; everything else is red-black,
      except that a red focus may have red children. */
  ghost predicate BlackDeficit(t: Tree, c: Ctx) {
    (t.Branch? ==> Balanced(Paint(t, Black))) && CtxBalanced(c, BlackHeight(t) + 1)
  }

  lemma DeficitBalanced(t: Tree, c: Ctx)
    requires BlackDeficit(t, c) && !IsRedTree(t)
    ensures Balanced(t)
  {
    assert t.Branch? ==> Paint(t, Black) == t;
  }

  /** Below a deficit there is always a real sibling, even of the sentinel. */
  lemma DeficitHasSibling(t: Tree, c: Ctx)
    requires BlackDeficit(t, c) && !c.Top?
    ensures Sibling(c).Branch?
    ensures IsRedTree(Sibling(c)) ==> c.cell.color.Black? && Sibling(c).left.Branch? && Sibling(c).right.Branch?
  {
  }

  /** Black sibling with black children: painted red, the deficit moves to the parent. */
  lemma RedSiblingMovesDeficit(t: Tree, c: Ctx)
    requires BlackDeficit(t, c) && !c.Top? && !IsRedTree(t)
    requires var s := Sibling(c); s.Branch? && s.cell.color.Black? && !IsRedTree(s.left) && !IsRedTree(s.right)
    ensures var c' := WithSibling(c, Paint(Sibling(c), Red));
            BlackDeficit(Fill(c', t), c.up) && Whole(Fill(c', t), c.up) == Whole(t, c)
  {
    var c' := WithSibling(c, Paint(Sibling(c), Red));
    DeficitBalanced(t, c);
    assert Balanced(Sibling(c)) && BlackHeight(Sibling(c)) == BlackHeight(t) + 1;
    PaintBalanced(Sibling(c), Red);
    assert Balanced(Sibling(c')) && BlackHeight(Sibling(c')) == BlackHeight(t);
    WholePainted(t, c, Red);
    WholeUp(t, c');
  }

  lemma PaintBalanced(t: Tree, color: Color)
    requires t.Branch? && Balanced(t) && (color.Red? ==> !IsRedTree(t.left) && !IsRedTree(t.right))
    ensures Balanced(Paint(t, color))
    ensures BlackHeight(Paint(t, color)) == BlackHeight(t.left) + if color.Black? then 1 else 0
  {
  }

  /** At the root nothing is missing. */
  lemma WholeIsMended(t: Tree)
    requires RedBlack(t)
    ensures BlackDeficit(t, Top)
  {
    if t.Branch? { PaintBalanced(t, Black); }
  }

  /** A deficit at the root, or at a red node painted black, is no deficit. */
  lemma DeficitMended(t: Tree, c: Ctx)
    requires BlackDeficit(t, c) && (c.Top? || IsRedTree(t))
    ensures t.Branch? ==> RedBlack(Plug(c, Paint(t, Black)))
    ensures t.Leaf? ==> RedBlack(Plug(c, t))
  {
    PlugRedBlack(c, if t.Branch? then Paint(t, Black) else t);
  }

  /** Painting the focus black where that ends the deficit; the sentinel is black already. */
  lemma LastBlackened(t: Tree, c: Ctx, nil: Node, root: Node, mem: Mem, mem': Mem)
    requires Holds(t, c, nil, root, mem) && BlackDeficit(t, c) && (c.Top? || IsRedTree(t))
    requires Ref(t, nil) in mem && mem' == mem[Ref(t, nil) := mem[Ref(t, nil)].(color := Black)]
    requires t.Leaf? ==> mem[nil].color.Black?
    ensures var whole := if t.Branch? then Plug(c, Paint(t, Black)) else Plug(c, t);
            Holds(whole, Top, nil, root, mem') && RedBlack(whole) && Whole(whole, Top) == Whole(t, c)
  {
    DeficitMended(t, c);
    if t.Branch? {
      PaintHolds(t, Black, c, nil, root, mem, mem');
      WholePainted(t, c, Black);
      WholeTree(Paint(t, Black), c, nil, root, mem');
    } else {
      assert mem' == mem;
      WholeTree(t, c, nil, root, mem');
    }
  }

  /** A red sibling on the right: black sibling, red parent, left rotation at the parent. */
  ghost function RedRightSibling(t: Tree, c: Ctx): (r: Tree)
    requires c.InLeft? && c.right.Branch?
  {
    RotLeft(Fill(PaintCtx(WithSibling(c, Paint(c.right, Black)), Red), t))
  }

  lemma RedRightSiblingGone(t: Tree, c: Ctx)
    requires BlackDeficit(t, c) && !IsRedTree(t) && c.InLeft? && IsRedTree(c.right)
    ensures var r := RedRightSibling(t, c); var c' := LeftCtx(r.left, LeftCtx(r, c.up));
            && r.left.left == t && BlackDeficit(t, c') && Whole(t, c') == Whole(t, c)
            && c'.cell.color.Red? && c'.cell.node == c.cell.node && c'.right.Branch? && c'.right.cell.color.Black?
            && c'.up.up == c.up
  {
    DeficitBalanced(t, c);
    var c1 := WithSibling(c, Paint(c.right, Black));
    var c2 := PaintCtx(c1, Red);
    var r := RedRightSibling(t, c);
    WholePainted(t, c, Black);
    WholePainted(t, c1, Red);
    WholeUp(t, c2);
    RotationsPreserveInOrder(Fill(c2, t));
    LeftRotationNodes(Fill(c2, t));
    WholeUp(t, LeftCtx(r.left, LeftCtx(r, c.up)));
    WholeUp(r.left, LeftCtx(r, c.up));
  }

  /** A black sibling on the right whose left child is its red one: rotate that child up to be the sibling. */
  ghost function RaisedLeftNephew(s: Tree): (r: Tree)
    requires s.Branch? && s.left.Branch?
  {
    RotRight(Paint(s.(left := Paint(s.left, Black)), Red))
  }

  lemma LeftNephewRaised(t: Tree, c: Ctx)
    requires BlackDeficit(t, c) && !IsRedTree(t) && c.InLeft? && c.right.Branch? && c.right.cell.color.Black?
    requires IsRedTree(c.right.left) && !IsRedTree(c.right.right)
    ensures var s := RaisedLeftNephew(c.right); var c' := c.(right := s);
            && BlackDeficit(t, c') && Whole(t, c') == Whole(t, c)
            && s.cell.color.Black? && IsRedTree(s.right)
  {
    DeficitBalanced(t, c);
    var s := c.right;
    var s1 := s.(left := Paint(s.left, Black));
    var s2 := Paint(s1, Red);
    RotationsPreserveInOrder(s2);
    RightRotationNodes(s2);
    assert Nodes(Paint(s.left, Black)) == Nodes(s.left) && InOrder(Paint(s.left, Black)) == InOrder(s.left);
    assert Nodes(s1) == Nodes(s) && InOrder(s1) == InOrder(s);
    assert Nodes(s2) == Nodes(s1) && InOrder(s2) == InOrder(s1);
    assert Whole(t, c.(right := RotRight(s2))) == Whole(t, c);
    assert Balanced(s) && BlackHeight(s) == BlackHeight(t) + 1;
    PaintBalanced(s.left, Black);
    assert Balanced(s.left) && BlackHeight(s.left) == BlackHeight(t);
    assert Balanced(RotRight(s2).right) && BlackHeight(RotRight(s2).right) == BlackHeight(t);
  }

  /** A black sibling on the right whose right child is red: a left rotation at the parent ends it. */
  ghost function RedRightNephew(t: Tree, c: Ctx): (r: Tree)
    requires c.InLeft? && c.right.Branch? && c.right.right.Branch?
  {
    var s := c.right;
    var s1 := Paint(s, c.cell.color);
    RotLeft(Fill(PaintCtx(WithSibling(c, s1.(right := Paint(s1.right, Black))), Black), t))
  }

  lemma RedRightNephewEnds(t: Tree, c: Ctx)
    requires BlackDeficit(t, c) && !IsRedTree(t) && c.InLeft? && c.right.Branch? && c.right.cell.color.Black?
    requires IsRedTree(c.right.right)
    ensures var r := RedRightNephew(t, c); RedBlack(Plug(c.up, r)) && Whole(r, c.up) == Whole(t, c)
  {
    DeficitBalanced(t, c);
    var s := c.right;
    var s1 := Paint(s, c.cell.color);
    var s2 := s1.(right := Paint(s1.right, Black));
    var c2 := WithSibling(c, s2);
    assert Nodes(Paint(s1.right, Black)) == Nodes(s1.right) && InOrder(Paint(s1.right, Black)) == InOrder(s1.right);
    assert Nodes(s2) == Nodes(s) && InOrder(s2) == InOrder(s);
    assert Whole(t, c2) == Whole(t, c);
    WholePainted(t, c2, Black);
    var f := Fill(PaintCtx(c2, Black), t);
    WholeUp(t, PaintCtx(c2, Black));
    RotationsPreserveInOrder(f);
    LeftRotationNodes(f);
    assert Whole(RotLeft(f), c.up) == Whole(f, c.up);
    PaintBalanced(s.right, Black);
    assert Balanced(s) && BlackHeight(s) == BlackHeight(t) + 1;
    assert BlackHeight(s.right) == BlackHeight(s.left) == BlackHeight(t);
    assert Balanced(RotLeft(f).left) && BlackHeight(RotLeft(f).left) == BlackHeight(t) + 1;
    assert Balanced(RotLeft(f));
    PlugRedBlack(c.up, RotLeft(f));
  }

  /** A red sibling on the left: black sibling, red parent, right rotation at the parent. */
  ghost function RedLeftSibling(t: Tree, c: Ctx): (r: Tree)
    requires c.InRight? && c.left.Branch?
  {
    RotRight(Fill(PaintCtx(WithSibling(c, Paint(c.left, Black)), Red), t))
  }

  lemma RedLeftSiblingGone(t: Tree, c: Ctx)
    requires BlackDeficit(t, c) && !IsRedTree(t) && c.InRight? && IsRedTree(c.left)
    ensures var r := RedLeftSibling(t, c); var c' := RightCtx(r.right, RightCtx(r, c.up));
            && r.right.right == t && BlackDeficit(t, c') && Whole(t, c') == Whole(t, c)
            && c'.cell.color.Red? && c'.cell.node == c.cell.node && c'.left.Branch? && c'.left.cell.color.Black?
            && c'.up.up == c.up
  {
    DeficitBalanced(t, c);
    var c1 := WithSibling(c, Paint(c.left, Black));
    var c2 := PaintCtx(c1, Red);
    var r := RedLeftSibling(t, c);
    WholePainted(t, c, Black);
    WholePainted(t, c1, Red);
    WholeUp(t, c2);
    RotationsPreserveInOrder(Fill(c2, t));
    RightRotationNodes(Fill(c2, t));
    WholeUp(t, RightCtx(r.right, RightCtx(r, c.up)));
    WholeUp(r.right, RightCtx(r, c.up));
  }

  /** A black sibling on the left whose right child is its red one: rotate that child up to be the sibling. */
  ghost function RaisedRightNephew(s: Tree): (r: Tree)
    requires s.Branch? && s.right.Branch?
  {
    RotLeft(Paint(s.(right := Paint(s.right, Black)), Red))
  }

  lemma RightNephewRaised(t: Tree, c: Ctx)
    requires BlackDeficit(t, c) && !IsRedTree(t) && c.InRight? && c.left.Branch? && c.left.cell.color.Black?
    requires IsRedTree(c.left.right) && !IsRedTree(c.left.left)
    ensures var s := RaisedRightNephew(c.left); var c' := c.(left := s);
            && BlackDeficit(t, c') && Whole(t, c') == Whole(t, c)
            && s.cell.color.Black? && IsRedTree(s.left)
  {
    DeficitBalanced(t, c);
    var s := c.left;
    var s1 := s.(right := Paint(s.right, Black));
    var s2 := Paint(s1, Red);
    RotationsPreserveInOrder(s2);
    LeftRotationNodes(s2);
    assert Nodes(Paint(s.right, Black)) == Nodes(s.right) && InOrder(Paint(s.right, Black)) == InOrder(s.right);
    assert Nodes(s1) == Nodes(s) && InOrder(s1) == InOrder(s);
    assert Nodes(s2) == Nodes(s1) && InOrder(s2) == InOrder(s1);
    assert Whole(t, c.(left := RotLeft(s2))) == Whole(t, c);
    assert Balanced(s) && BlackHeight(s) == BlackHeight(t) + 1;
    PaintBalanced(s.right, Black);
    assert Balanced(s.right) && BlackHeight(s.right) == BlackHeight(t);
    assert Balanced(RotLeft(s2).left) && BlackHeight(RotLeft(s2).left) == BlackHeight(t);
  }

  /** A black sibling on the left whose left child is red: a right rotation at the parent ends it. */
  ghost function RedLeftNephew(t: Tree, c: Ctx): (r: Tree)
    requires c.InRight? && c.left.Branch? && c.left.left.Branch?
  {
    var s := c.left;
    var s1 := Paint(s, c.cell.color);
    RotRight(Fill(PaintCtx(WithSibling(c, s1.(left := Paint(s1.left, Black))), Black), t))
  }

  lemma RedLeftNephewEnds(t: Tree, c: Ctx)
    requires BlackDeficit(t, c) && !IsRedTree(t) && c.InRight? && c.left.Branch? && c.left.cell.color.Black?
    requires IsRedTree(c.left.left)
    ensures var r := RedLeftNephew(t, c); RedBlack(Plug(c.up, r)) && Whole(r, c.up) == Whole(t, c)
  {
    DeficitBalanced(t, c);
    var s := c.left;
    var s1 := Paint(s, c.cell.color);
    var s2 := s1.(left := Paint(s1.left, Black));
    var c2 := WithSibling(c, s2);
    assert Nodes(Paint(s1.left, Black)) == Nodes(s1.left) && InOrder(Paint(s1.left, Black)) == InOrder(s1.left);
    assert Nodes(s2) == Nodes(s) && InOrder(s2) == InOrder(s);
    assert Whole(t, c2) == Whole(t, c);
    WholePainted(t, c2, Black);
    var f := Fill(PaintCtx(c2, Black), t);
    WholeUp(t, PaintCtx(c2, Black));
    RotationsPreserveInOrder(f);
    RightRotationNodes(f);
    assert Whole(RotRight(f), c.up) == Whole(f, c.up);
    PaintBalanced(s.left, Black);
    assert Balanced(s) && BlackHeight(s) == BlackHeight(t) + 1;
    assert BlackHeight(s.left) == BlackHeight(s.right) == BlackHeight(t);
    assert Balanced(RotRight(f).right) && BlackHeight(RotRight(f).right) == BlackHeight(t) + 1;
    assert Balanced(RotRight(f));
    PlugRedBlack(c.up, RotRight(f));
  }

  // ---------- searching ----------

  ghost predicate Below(s: seq<Entry>, key: Word) { forall e | e in s :: e.key < key }
  ghost predicate Above(s: seq<Entry>, key: Word) { forall e | e in s :: key < e.key }

  lemma SortedAround(a: seq<Entry>, e: Entry, b: seq<Entry>)
    ensures Sorted(a + [e] + b) <==> Sorted(a) && Sorted(b) && Below(a, e.key) && Above(b, e.key)
  {
    var s := a + [e] + b;
    assert s[|a|] == e;
    assert a == s[..|a|] && b == s[|a| + 1..];
    if Sorted(s) {
      assert forall i | 0 <= i < |a| :: s[i].key < e.key;
      assert forall i | |a| < i < |s| :: e.key < s[i].key;
    }
  }

  /** All keys outside the focus are on their side of `key`. */
  ghost predicate Brackets(c: Ctx, key: Word) { Below(Before(c), key) && Above(After(c), key) }

  lemma AroundSplit(t: Tree, c: Ctx)
    requires t.Branch?
    ensures Around(t, c) == (Before(c) + InOrder(t.left)) + [EntryOf(t.cell)] + (InOrder(t.right) + After(c))
  {
    Regroup(Before(c), InOrder(t.left), [EntryOf(t.cell)], InOrder(t.right), After(c));
  }

  lemma SearchStep(t: Tree, c: Ctx, key: Word)
    requires t.Branch? && Sorted(Around(t, c)) && Brackets(c, key)
    ensures key < t.cell.key ==> Brackets(LeftCtx(t, c), key)
    ensures t.cell.key < key ==> Brackets(RightCtx(t, c), key)
    ensures EntryOf(t.cell) in Around(t, c)
    ensures Sorted(Around(t.left, LeftCtx(t, c))) && Sorted(Around(t.right, RightCtx(t, c)))
  {
    AroundSplit(t, c);
    var a, b := Before(c) + InOrder(t.left), InOrder(t.right) + After(c);
    SortedAround(a, EntryOf(t.cell), b);
    AroundChild(t, c);
    assert EntryOf(t.cell) in a + [EntryOf(t.cell)];
  }

  ghost predicate HasKey(s: seq<Entry>, key: Word) { exists e :: e in s && e.key == key }

  /** The search has fallen off the tree: the key is nowhere in it. */
  lemma NotFound(c: Ctx, key: Word, s: seq<Entry>)
    requires Brackets(c, key) && Around(Leaf, c) == s
    ensures !HasKey(s, key)
  {
  }

  lemma {:induction false} NodeHasEntry(t: Tree, n: Node, p: Node, nil: Node, mem: Mem)
    requires Seg(t, p, nil, mem) && n in Nodes(t)
    ensures n in mem && Entry(n, mem[n].key, mem[n].data) in InOrder(t)
  {
    if n == t.cell.node {
    } else if n in Nodes(t.left) {
      NodeHasEntry(t.left, n, t.cell.node, nil, mem);
    } else {
      NodeHasEntry(t.right, n, t.cell.node, nil, mem);
    }
  }

  /** The search for `key` has narrowed the tree down to the focus. */
  ghost predicate Searching(t: Tree, c: Ctx, key: Word, s: seq<Entry>, nil: Node, root: Node, mem: Mem) {
    Holds(t, c, nil, root, mem) && Ref(t, nil) in mem && Around(t, c) == s && Sorted(s) && Brackets(c, key)
  }

  lemma Descend(t: Tree, c: Ctx, key: Word, s: seq<Entry>, nil: Node, root: Node, mem: Mem)
    requires t.Branch? && Searching(t, c, key, s, nil, root, mem) && nil in mem
    ensures var k := mem[t.cell.node];
            && k.key == t.cell.key && k.data == t.cell.data
            && k.left == Ref(t.left, nil) && k.right == Ref(t.right, nil)
    ensures key < t.cell.key ==> Searching(t.left, LeftCtx(t, c), key, s, nil, root, mem)
    ensures t.cell.key < key ==> Searching(t.right, RightCtx(t, c), key, s, nil, root, mem)
    ensures EntryOf(t.cell) in s
  {
    LinksAround(t, c, nil, root, mem);
    SearchStep(t, c, key);
    Focus(t, c, nil, root, mem);
    AroundChild(t, c);
    LinksAround(t.left, LeftCtx(t, c), nil, root, mem);
    LinksAround(t.right, RightCtx(t, c), nil, root, mem);
  }

  /** The end of the leftmost path is the first entry. */
  lemma LeftEndIsFirst(s: Ctx, t: Tree)
    requires t.Branch? && t.left.Leaf? && Before(s) == []
    ensures InOrder(Plug(s, t)) != [] && InOrder(Plug(s, t))[0] == EntryOf(t.cell)
  {
    PlugInOrder(s, t);
    AroundSplit(t, s);
  }

  lemma RightEndIsLast(s: Ctx, t: Tree)
    requires t.Branch? && t.right.Leaf? && After(s) == []
    ensures var o := InOrder(Plug(s, t)); o != [] && o[|o| - 1] == EntryOf(t.cell)
  {
    PlugInOrder(s, t);
    AroundSplit(t, s);
  }

  lemma {:induction false} EntriesLinked(t: Tree, p: Node, nil: Node, mem: Mem)
    requires Seg(t, p, nil, mem)
    ensures forall e | e in InOrder(t) ::
              e.node in Nodes(t) && e.node in mem && mem[e.node].key == e.key && mem[e.node].data == e.data
  {
    if t.Branch? {
      EntriesLinked(t.left, t.cell.node, nil, mem);
      EntriesLinked(t.right, t.cell.node, nil, mem);
    }
  }

  // ---------- the map a tree stands for ----------

  ghost function MapOf(s: seq<Entry>): (r: map<Word, Word>) {
    if s == [] then map[] else MapOf(s[..|s| - 1])[s[|s| - 1].key := s[|s| - 1].data]
  }

  lemma {:induction false} MapOfKey(s: seq<Entry>, key: Word)
    ensures key in MapOf(s) <==> HasKey(s, key)
  {
    if s != [] {
      MapOfKey(s[..|s| - 1], key);
      assert s == s[..|s| - 1] + [s[|s| - 1]];
    }
  }

  lemma {:induction false} MapOfEntry(s: seq<Entry>, e: Entry)
    requires Sorted(s) && e in s
    ensures e.key in MapOf(s) && MapOf(s)[e.key] == e.data
  {
    var r, last := s[..|s| - 1], s[|s| - 1];
    assert s == r + [last] && r + [last] + [] == s;
    SortedAround(r, last, []);
    if e != last { MapOfEntry(r, e); }
  }

  /** Putting an entry in its place adds one pair; taking it out removes it. */
  lemma MapOfInserted(a: seq<Entry>, e: Entry, b: seq<Entry>)
    requires Sorted(a + [e] + b) && Sorted(a + b)
    ensures MapOf(a + [e] + b) == MapOf(a + b)[e.key := e.data]
    ensures e.key !in MapOf(a + b) && MapOf(a + b) == MapOf(a + [e] + b) - {e.key}
  {
    var s, t := a + [e] + b, a + b;
    SortedAround(a, e, b);
    assert e in s && forall x :: x in s <==> x in t || x == e;
    forall k ensures k in MapOf(s) <==> k in MapOf(t) || k == e.key {
      MapOfKey(s, k);
      MapOfKey(t, k);
    }
    MapOfKey(t, e.key);
    forall k | k in MapOf(s) ensures MapOf(s)[k] == if k == e.key then e.data else MapOf(t)[k] {
      MapOfKey(s, k);
      var x :| x in s && x.key == k;
      MapOfEntry(s, x);
      if x != e { MapOfEntry(t, x); }
    }
  }

  lemma InsertedAt(a: seq<Entry>, e: Entry, b: seq<Entry>)
    requires Sorted(a + [e] + b) && Sorted(a + b)
    ensures (a + b)[..|a|] + [e] + (a + b)[|a|..] == a + [e] + b
    ensures MapOf(a + [e] + b) == MapOf(a + b)[e.key := e.data]
  {
    assert (a + b)[..|a|] == a && (a + b)[|a|..] == b;
    MapOfInserted(a, e, b);
  }

  // ---------- hanging up a new node, taking one out ----------

  ghost function NewLeaf(n: Node, key: Word, data: Word): (r: Tree) { Branch(Leaf, Cell(n, Red, key, data), Leaf) }

  /** A new red node in an empty hole. */
  lemma NewLeafHolds(n: Node, key: Word, data: Word, c: Ctx, nil: Node, root: Node, mem: Mem, mem': Mem)
    requires !c.Top? && Holds(Leaf, c, nil, root, mem) && n !in CNodes(c) && n != nil && c.cell.node in mem
    requires var p := c.cell.node; var k := mem[p];
             mem' == mem[p := if c.InLeft? then k.(left := n) else k.(right := n)]
                     [n := Links(nil, nil, p, Red, key, data)]
    ensures Holds(NewLeaf(n, key, data), c, nil, root, mem')
  {
    CSegKeys(c, nil, nil, root, mem);
    CSegReplace(c, nil, n, nil, root, root, mem, mem');
  }

  lemma NewLeafIsRedFocus(n: Node, key: Word, data: Word, c: Ctx)
    requires RedBlack(Plug(c, Leaf)) && Brackets(c, key) && Sorted(Around(Leaf, c))
    ensures RedFocus(NewLeaf(n, key, data), c)
    ensures Around(NewLeaf(n, key, data), c) == Before(c) + [Entry(n, key, data)] + After(c)
    ensures Sorted(Around(NewLeaf(n, key, data), c)) && Around(Leaf, c) == Before(c) + After(c)
  {
    PlugRedBlack(c, Leaf);
    assert InOrder(NewLeaf(n, key, data)) == [Entry(n, key, data)];
    assert Around(Leaf, c) == Before(c) + After(c);
    SortedHalves(Before(c), After(c));
    SortedAround(Before(c), Entry(n, key, data), After(c));
  }

  lemma SortedHalves(a: seq<Entry>, b: seq<Entry>)
    requires Sorted(a + b)
    ensures Sorted(a) && Sorted(b)
  {
    var s := a + b;
    assert s[..|a|] == a && s[|a|..] == b;
  }

  /** The links determine the shape. */
  lemma {:induction false} SameShape(t: Tree, u: Tree, p: Node, nil: Node, mem: Mem)
    requires Seg(t, p, nil, mem) && Seg(u, p, nil, mem) && Ref(t, nil) == Ref(u, nil)
    requires nil !in Nodes(t) && nil !in Nodes(u)
    ensures t == u
  {
    if t.Branch? && u.Branch? {
      SameShape(t.left, u.left, t.cell.node, nil, mem);
      SameShape(t.right, u.right, t.cell.node, nil, mem);
    }
  }

  /** What is left of a node with at most one child when it is taken out. */
  ghost function OnlyChild(t: Tree): (r: Tree)
    requires t.Branch?
  {
    if t.left.Branch? then t.left else t.right
  }

  /** The links after `tmp` has been put in the place of `n`, whose parent is `p`. */
  ghost predicate Spliced(n: Node, tmp: Node, p: Node, nil: Node, root: Node, root': Node, mem: Mem, mem': Mem)
    requires tmp in mem && (p != nil ==> p in mem)
  {
    var up := mem[tmp := mem[tmp].(parent := p)];
    if p == nil then root' == tmp && mem' == up else root' == root && mem' == up[p := Redirect(up[p], n, tmp)]
  }

  /** `tmp`, the root of the only child or the sentinel, hangs where `t` was. */
  lemma SpliceHolds(t: Tree, c: Ctx, nil: Node, root: Node, root': Node, mem: Mem, mem': Mem)
    requires Holds(t, c, nil, root, mem) && t.Branch? && (t.left.Leaf? || t.right.Leaf?) && nil in mem
    requires Ref(OnlyChild(t), nil) in mem && (!c.Top? ==> c.cell.node in mem)
    requires Spliced(t.cell.node, Ref(OnlyChild(t), nil), CRef(c, nil), nil, root, root', mem, mem')
    ensures Holds(OnlyChild(t), c, nil, root', mem')
    ensures Nodes(OnlyChild(t)) == Nodes(t) - {t.cell.node}
  {
    var child := OnlyChild(t);
    SegKeys(t, CRef(c, nil), nil, mem);
    CSegKeys(c, t.cell.node, nil, root, mem);
    LinksAround(t, c, nil, root, mem);
    assert Seg(child, t.cell.node, nil, mem) && Sep(child) && Nodes(child) <= Nodes(t);
    SegReparent(child, t.cell.node, CRef(c, nil), nil, mem, mem');
    CSegReplace(c, t.cell.node, Ref(child, nil), nil, root, root', mem, mem');
  }

  lemma SpliceLinks(t: Tree, c: Ctx, nil: Node, root: Node, mem: Mem)
    requires Holds(t, c, nil, root, mem) && t.Branch? && (t.left.Leaf? || t.right.Leaf?) && nil in mem
    ensures var k := Linked(t.cell, CRef(c, nil), Ref(t.left, nil), Ref(t.right, nil), mem);
            k && Ref(OnlyChild(t), nil) == (if nil != Ref(t.left, nil) then Ref(t.left, nil) else Ref(t.right, nil))
    ensures Ref(OnlyChild(t), nil) in mem && CRef(c, nil) in mem && (CRef(c, nil) == nil <==> c.Top?)
    ensures t.cell.node != nil && t.cell.node != Ref(OnlyChild(t), nil) && t.cell.node != CRef(c, nil)
  {
    LinksAround(t, c, nil, root, mem);
    SegKeys(t, CRef(c, nil), nil, mem);
    CSegKeys(c, t.cell.node, nil, root, mem);
    assert !c.Top? ==> c.cell.node in CNodes(c);
    assert OnlyChild(t).Branch? ==> OnlyChild(t).cell.node in Nodes(OnlyChild(t));
  }

  lemma SpliceNodes(t: Tree, c: Ctx, nil: Node, root: Node, mem: Mem)
    requires Holds(t, c, nil, root, mem) && t.Branch? && (t.left.Leaf? || t.right.Leaf?)
    ensures Nodes(OnlyChild(t)) + CNodes(c) == Nodes(t) + CNodes(c) - {t.cell.node}
  {
  }

  lemma SpliceEntries(t: Tree, c: Ctx)
    requires t.Branch? && (t.left.Leaf? || t.right.Leaf?)
    ensures var a, b := Before(c) + InOrder(t.left), InOrder(t.right) + After(c);
            Around(t, c) == a + [EntryOf(t.cell)] + b && Around(OnlyChild(t), c) == a + b
  {
    AroundSplit(t, c);
  }

  /** Taking out a red node keeps the tree red-black; taking out a black one leaves a deficit. */
  lemma SpliceBalance(t: Tree, c: Ctx)
    requires t.Branch? && (t.left.Leaf? || t.right.Leaf?) && RedBlack(Plug(c, t))
    ensures t.cell.color.Red? ==> RedBlack(Plug(c, OnlyChild(t)))
    ensures t.cell.color.Black? ==> BlackDeficit(OnlyChild(t), c)
  {
    PlugRedBlack(c, t);
    PlugRedBlack(c, OnlyChild(t));
    if OnlyChild(t).Branch? { PaintBalanced(OnlyChild(t), Black); }
  }

  /** The shape of a focus that has been given another entry. */
  ghost function WithEntry(t: Tree, key: Word, data: Word): (r: Tree)
    requires t.Branch?
  {
    t.(cell := t.cell.(key := key, data := data))
  }

  lemma WithEntryHolds(t: Tree, key: Word, data: Word, c: Ctx, nil: Node, root: Node, mem: Mem, mem': Mem)
    requires t.Branch? && Holds(t, c, nil, root, mem)
    requires mem' == mem[t.cell.node := mem[t.cell.node].(key := key, data := data)]
    ensures Holds(WithEntry(t, key, data), c, nil, root, mem')
  {
    SegKeys(t, CRef(c, nil), nil, mem);
    CSegKeys(c, t.cell.node, nil, root, mem);
    SegFrame(t.left, t.cell.node, nil, mem, mem');
    SegFrame(t.right, t.cell.node, nil, mem, mem');
    CSegFrame(c, t.cell.node, nil, root, mem, mem');
  }

  /** Balance does not depend on entries further out. */
  lemma {:induction false} RekeyBalanced(s: Ctx, t: Tree, key: Word, data: Word, c: Ctx, h: nat)
    requires t.Branch?
    ensures var o, o' := Compose(s, RightCtx(t, c)), Compose(s, RightCtx(WithEntry(t, key, data), c));
            && (CtxBalanced(o, h) <==> CtxBalanced(o', h)) && (NeedsBlack(o) <==> NeedsBlack(o'))
            && CNodes(o) == CNodes(o')
    decreases s
  {
    if !s.Top? {
      RekeyBalanced(s.up, t, key, data, c, h + if s.cell.color.Black? then 1 else 0);
    }
  }

  lemma {:induction false} AroundCompose(s: Ctx, t: Tree, c: Ctx)
    ensures Around(t, Compose(s, c)) == Around(Plug(s, t), c)
    decreases s
  {
    if !s.Top? {
      AroundCompose(s.up, Fill(s, t), c);
      AroundChild(Fill(s, t), Compose(s.up, c));
    }
  }

  lemma {:induction false} PlugCompose(s: Ctx, t: Tree, c: Ctx)
    ensures Plug(Compose(s, c), t) == Plug(c, Plug(s, t))
    decreases s
  {
    if !s.Top? { PlugCompose(s.up, Fill(s, t), c); }
  }

  /**
   What a deletion of `node`, at position `at` of `s`, leaves: its entry is gone. When the node unlinked is
   another one, it was the successor, and `node` now holds the successor's entry.
   */
  ghost predicate Deleted(node: Node, unlinked: Node, at: nat, s: seq<Entry>, s': seq<Entry>) {
    && at < |s| && s[at].node == node
    && (if unlinked == node then s' == s[..at] + s[at + 1..]
        else at + 1 < |s| && s[at + 1].node == unlinked
             && s' == s[..at] + [Entry(node, s[at + 1].key, s[at + 1].data)] + s[at + 2..])
    && MapOf(s') == MapOf(s) - {s[at].key}
  }

  lemma DeletedAt(a: seq<Entry>, e: Entry, b: seq<Entry>)
    requires Sorted(a + [e] + b)
    ensures Deleted(e.node, e.node, |a|, a + [e] + b, a + b) && (a + [e] + b)[|a|] == e
  {
    var s := a + [e] + b;
    assert s[..|a|] == a && s[|a| + 1..] == b;
    SortedConcat(a, e, b);
    MapOfInserted(a, e, b);
  }

  lemma MovedEntries(a: seq<Entry>, e: Entry, f: Entry, b: seq<Entry>)
    requires Sorted(a + [e] + ([f] + b)) && e.node != f.node
    ensures Deleted(e.node, f.node, |a|, a + [e] + ([f] + b), a + [Entry(e.node, f.key, f.data)] + b)
    ensures (a + [e] + ([f] + b))[|a|] == e
  {
    var s := a + [e] + ([f] + b);
    assert s[..|a|] == a && s[|a| + 2..] == b && s[|a| + 1] == f;
    MovedMap(a, e, f, b);
  }

  lemma MovedMap(a: seq<Entry>, e: Entry, f: Entry, b: seq<Entry>)
    requires Sorted(a + [e] + ([f] + b))
    ensures Sorted(a + [Entry(e.node, f.key, f.data)] + b)
    ensures MapOf(a + [Entry(e.node, f.key, f.data)] + b) == MapOf(a + [e] + ([f] + b)) - {e.key}
  {
    var g := Entry(e.node, f.key, f.data);
    SortedConcat(a, e, [f] + b);
    MapOfInserted(a, e, [f] + b);
    assert a + ([f] + b) == a + [f] + b;
    SortedAround(a, f, b);
    SortedAround(a, g, b);
    SortedConcat(a, f, b);
    MapOfInserted(a, f, b);
    MapOfInserted(a, g, b);
  }

  lemma SortedConcat(a: seq<Entry>, e: Entry, b: seq<Entry>)
    requires Sorted(a + [e] + b)
    ensures Sorted(a + b)
  {
    var s, t := a + [e] + b, a + b;
    forall i, j | 0 <= i < j < |t| ensures t[i].key < t[j].key {
      var i', j' := if i < |a| then i else i + 1, if j < |a| then j else j + 1;
      assert t[i] == s[i'] && t[j] == s[j'];
    }
  }

  // ---------- unlinking the successor instead of a node with two children ----------

  /**
   `t` has two children; `tm`, at the end of the leftmost path `s` of its right child, is unlinked, and `t` takes its
   entry.
   */
  ghost function SuccessorCopied(t: Tree, tm: Tree): (r: Tree)
    requires t.Branch? && tm.Branch?
  {
    WithEntry(t, tm.cell.key, tm.cell.data)
  }

  ghost function Hollow(s: Ctx, t: Tree, tm: Tree, c: Ctx): (r: Ctx)
    requires t.Branch? && tm.Branch?
  {
    Compose(s, RightCtx(SuccessorCopied(t, tm), c))
  }

  /** The entries after those of the left child: the successor's comes first. */
  lemma SuccessorIsNext(s: Ctx, t: Tree, tm: Tree, c: Ctx)
    requires t.Branch? && tm.Branch? && tm.left.Leaf? && t.right == Plug(s, tm) && Before(s) == []
    ensures InOrder(t.right) + After(c) == [EntryOf(tm.cell)] + (InOrder(Plug(s, tm.right)) + After(c))
  {
    PlugInOrder(s, tm);
    AroundSplit(tm, s);
    PlugInOrder(s, tm.right);
    var x := InOrder(tm.right) + After(s);
    assert InOrder(Plug(s, tm.right)) == x by { NoPrefix(InOrder(tm.right), After(s)); }
    assert InOrder(t.right) == [EntryOf(tm.cell)] + x by { NoPrefix([EntryOf(tm.cell)], x); }
    NoPrefix([EntryOf(tm.cell)], x);
    Concat3([EntryOf(tm.cell)], x, After(c));
  }

  lemma NoPrefix<T>(a: seq<T>, b: seq<T>)
    ensures [] + a + b == a + b && [] + [] + a + b == a + b
  {
  }

  lemma Concat3<T>(a: seq<T>, b: seq<T>, c: seq<T>)
    ensures a + b + c == a + (b + c)
  {
  }

  lemma SuccessorEntries(s: Ctx, t: Tree, tm: Tree, c: Ctx)
    requires t.Branch? && tm.Branch? && tm.left.Leaf? && t.right == Plug(s, tm) && Before(s) == []
    ensures var a, b := Before(c) + InOrder(t.left), InOrder(Plug(s, tm.right)) + After(c);
            && Around(t, c) == a + [EntryOf(t.cell)] + ([EntryOf(tm.cell)] + b)
            && Around(tm.right, Hollow(s, t, tm, c)) == a + [Entry(t.cell.node, tm.cell.key, tm.cell.data)] + b
  {
    var t' := SuccessorCopied(t, tm);
    var u := Branch(t'.left, t'.cell, Plug(s, tm.right));
    SuccessorIsNext(s, t, tm, c);
    AroundSplit(t, c);
    AroundCompose(s, tm.right, RightCtx(t', c));
    AroundChild(u, c);
    AroundSplit(u, c);
  }

  lemma SuccessorBalance(s: Ctx, t: Tree, tm: Tree, c: Ctx)
    requires t.Branch? && tm.Branch? && tm.left.Leaf? && t.right == Plug(s, tm) && RedBlack(Plug(c, t))
    ensures tm.cell.color.Red? ==> RedBlack(Plug(Hollow(s, t, tm, c), tm.right))
    ensures tm.cell.color.Black? ==> BlackDeficit(tm.right, Hollow(s, t, tm, c))
  {
    var o, h := Compose(s, RightCtx(t, c)), Hollow(s, t, tm, c);
    PlugCompose(s, tm, RightCtx(t, c));
    SpliceBalance(tm, o);
    RekeyBalanced(s, t, tm.cell.key, tm.cell.data, c, BlackHeight(tm.right));
    RekeyBalanced(s, t, tm.cell.key, tm.cell.data, c, BlackHeight(tm.right) + 1);
    PlugRedBlack(o, tm.right);
    PlugRedBlack(h, tm.right);
  }

  lemma {:induction false} ComposeNodes(s: Ctx, c: Ctx)
    ensures CNodes(Compose(s, c)) == CNodes(s) + CNodes(c)
  {
    if !s.Top? { ComposeNodes(s.up, c); }
  }

  lemma SuccessorNodes(s: Ctx, t: Tree, tm: Tree, c: Ctx, nil: Node, root: Node, mem: Mem)
    requires t.Branch? && tm.Branch? && tm.left.Leaf? && t.right == Plug(s, tm)
    requires Holds(t, c, nil, root, mem)
    ensures Nodes(tm.right) + CNodes(Hollow(s, t, tm, c)) == Nodes(t) + CNodes(c) - {tm.cell.node}
  {
    var o := Compose(s, RightCtx(t, c));
    Focus(t, c, nil, root, mem);
    Refocus(s, tm, RightCtx(t, c), nil, root, mem);
    RekeyBalanced(s, t, tm.cell.key, tm.cell.data, c, 0);
    PlugNodes(s, tm);
    ComposeNodes(s, RightCtx(t, c));
    assert Nodes(tm.right) == Nodes(tm) - {tm.cell.node};
    assert Nodes(tm) + CNodes(o) == Nodes(t) + CNodes(c);
  }

  lemma SuccessorUnlinked(s: Ctx, t: Tree, tm: Tree, c: Ctx, nil: Node, root: Node, mem: Mem)
    requires t.Branch? && tm.Branch? && tm.left.Leaf? && t.right == Plug(s, tm) && Before(s) == []
    requires Holds(t, c, nil, root, mem) && RedBlack(Plug(c, t)) && Sorted(Around(t, c))
    ensures var h, n := Hollow(s, t, tm, c), tm.cell.node;
            && Nodes(tm.right) + CNodes(h) == Nodes(t) + CNodes(c) - {n} && n in Nodes(t) && n != t.cell.node
            && (if tm.cell.color.Black? then BlackDeficit(tm.right, h) else RedBlack(Plug(h, tm.right)))
    ensures var a, f, b := Before(c) + InOrder(t.left), EntryOf(tm.cell), InOrder(Plug(s, tm.right)) + After(c);
            && Around(t, c) == a + [EntryOf(t.cell)] + ([f] + b)
            && Around(tm.right, Hollow(s, t, tm, c)) == a + [Entry(t.cell.node, f.key, f.data)] + b
            && Sorted(Around(tm.right, Hollow(s, t, tm, c)))
  {
    SuccessorEntries(s, t, tm, c);
    SuccessorBalance(s, t, tm, c);
    SuccessorNodes(s, t, tm, c, nil, root, mem);
    var a, f, b := Before(c) + InOrder(t.left), EntryOf(tm.cell), InOrder(Plug(s, tm.right)) + After(c);
    assert Sorted(a + [EntryOf(t.cell)] + ([f] + b));
    MovedMap(a, EntryOf(t.cell), f, b);
    PlugNodes(s, tm);
  }

  /** The subtree at a node, with its context. */
  ghost function Locate(t: Tree, c: Ctx, n: Node): (r: (Tree, Ctx))
    requires n in Nodes(t)
    ensures r.0.Branch? && r.0.cell.node == n
    ensures Plug(r.1, r.0) == Plug(c, t)
  {
    if n == t.cell.node then (t, c)
    else if n in Nodes(t.left) then Locate(t.left, LeftCtx(t, c), n)
    else Locate(t.right, RightCtx(t, c), n)
  }

  /** Forgetting a node that is not part of the tree. */
  lemma ForgetHolds(t: Tree, c: Ctx, n: Node, nil: Node, root: Node, mem: Mem)
    requires Holds(t, c, nil, root, mem) && n !in Nodes(t) && n !in CNodes(c)
    ensures Holds(t, c, nil, root, mem - {n})
  {
    SegKeys(t, CRef(c, nil), nil, mem);
    CSegKeys(c, Ref(t, nil), nil, root, mem);
    SegFrame(t, CRef(c, nil), nil, mem, mem - {n});
    CSegFrame(c, Ref(t, nil), nil, root, mem, mem - {n});
  }
}
