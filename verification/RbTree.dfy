/**
 The red-black tree of src/core/qp_memory_core.c: linked nodes with parent pointers and one
 shared sentinel, rewritten in place.
 */
module RbTree {
  import opened RbShape

  // ---------- the one-line accessors ----------

  function Parent(n: Node?): (p: Node?)
    reads if n != null then {n} else {}
  {
    if n != null then n.parent else null
  }

  predicate IsRed(n: Node?)
    reads if n != null then {n} else {}
  {
    n != null && n.color.Red?
  }

  predicate IsBlack(n: Node?)
    reads if n != null then {n} else {}
  {
    n != null && n.color.Black?
  }

  predicate IsLeft(n: Node)
    requires n.parent != null
    reads n, n.parent
  {
    n == n.parent.left
  }

  predicate IsRight(n: Node)
    requires n.parent != null
    reads n, n.parent
  {
    n == n.parent.right
  }

  function Brother(n: Node): (r: Node?)
    requires n.parent != null
    reads n, n.parent
  {
    if IsLeft(n) then n.parent.right else n.parent.left
  }

  function Uncle(n: Node): (r: Node?)
    requires n.parent != null && n.parent.parent != null
    reads n, n.parent, n.parent.parent
  {
    if IsLeft(n.parent) then n.parent.parent.right else n.parent.parent.left
  }

  class RbTree {
    var root: Node
    const sentinel: Node
    /** What the nodes of the tree and the sentinel contain. */
    ghost var mem: Mem
    ghost var shape: Tree

    ghost predicate InSync()
      reads this, mem.Keys
    {
      sentinel in mem &&
      forall n | n in mem ::
        n.left == mem[n].left && n.right == mem[n].right && n.parent == mem[n].parent &&
        n.color == mem[n].color && n.key == mem[n].key && n.data == mem[n].data
    }

    ghost predicate Valid()
      reads this, mem.Keys
    {
      && InSync() && mem.Keys == Nodes(shape) + {sentinel}
      && Holds(shape, Top, sentinel, root, mem)
      && RedBlack(shape)
      && Sorted(InOrder(shape))
      && SentinelOk()
    }

    ghost predicate SentinelOk()
      reads this
    {
      sentinel in mem && var k := mem[sentinel]; k.left == sentinel && k.right == sentinel && k.color.Black?
    }

    constructor ()
      ensures Valid() && shape == Leaf && fresh(sentinel)
    {
      var nil := new Node();
      sentinel, root, shape := nil, nil, Leaf;
      new;
      sentinel.left := sentinel;
      sentinel.right := sentinel;
      sentinel.parent := sentinel;
      sentinel.color := Black;
      mem := map[sentinel := Links(sentinel.left, sentinel.right, sentinel.parent,
                                   sentinel.color, sentinel.key, sentinel.data)];
    }

    method PaintNode(n: Node, color: Color)
      requires InSync() && n in mem
      modifies n`color, this`mem
      ensures InSync() && mem == old(mem)[n := old(mem)[n].(color := color)]
    {
      n.color := color;
      mem := mem[n := mem[n].(color := color)];
    }

    /** Recolor the node in focus. */
    method SetColor(n: Node, color: Color, ghost t: Tree, ghost c: Ctx)
      requires InSync() && t.Branch? && n == t.cell.node && Holds(t, c, sentinel, root, mem)
      modifies n`color, this`mem
      ensures InSync() && Holds(Paint(t, color), c, sentinel, root, mem)
      ensures mem.Keys == old(mem.Keys) && mem[sentinel] == old(mem)[sentinel]
    {
      PaintNode(n, color);
      PaintHolds(t, color, c, sentinel, root, old(mem), mem);
    }

    method SetParentColor(n: Node, color: Color, ghost t: Tree, ghost c: Ctx)
      requires InSync() && !c.Top? && n == c.cell.node && Holds(t, c, sentinel, root, mem)
      modifies n`color, this`mem
      ensures InSync() && Holds(t, PaintCtx(c, color), sentinel, root, mem)
      ensures mem.Keys == old(mem.Keys) && mem[sentinel] == old(mem)[sentinel]
    {
      FocusUp(t, c, sentinel, root, mem);
      SetColor(n, color, Fill(c, t), c.up);
      FocusUp(t, PaintCtx(c, color), sentinel, root, mem);
    }

    method SetSiblingColor(n: Node, color: Color, ghost t: Tree, ghost c: Ctx)
      requires InSync() && !c.Top? && Sibling(c).Branch? && n == Sibling(c).cell.node
      requires Holds(t, c, sentinel, root, mem)
      modifies n`color, this`mem
      ensures InSync() && Holds(t, WithSibling(c, Paint(Sibling(c), color)), sentinel, root, mem)
      ensures mem.Keys == old(mem.Keys) && mem[sentinel] == old(mem)[sentinel]
    {
      FocusSibling(t, c, sentinel, root, mem);
      SetColor(n, color, Sibling(c), SiblingCtx(c, t));
      FocusSibling(t, WithSibling(c, Paint(Sibling(c), color)), sentinel, root, mem);
    }

    // ---------- rotations ----------

    method SetParent(n: Node, p: Node)
      requires InSync() && n in mem
      modifies this`mem, n`parent
      ensures InSync() && mem == old(mem)[n := old(mem)[n].(parent := p)]
    {
      n.parent := p;
      mem := mem[n := mem[n].(parent := p)];
    }

    /** `p`, or the tree when `node` is the root, points to `repl` instead of `node`. */
    method ReplaceChild(node: Node, p: Node, repl: Node)
      requires InSync() && (node != root ==> p in mem && (mem[p].left == node || mem[p].right == node))
      modifies this`root, this`mem, p
      ensures InSync() && root == (if node == old(root) then repl else old(root))
      ensures mem == if node == old(root) then old(mem) else old(mem)[p := Redirect(old(mem)[p], node, repl)]
    {
      if node == root {
        root := repl;
      } else {
        if node == p.left {
          p.left := repl;
          mem := mem[p := mem[p].(left := repl)];
        } else {
          p.right := repl;
          mem := mem[p := mem[p].(right := repl)];
        }
      }
    }

    /** `node` goes below its right child, and takes over that child's left subtree. */
    method SwingLeft(node: Node, right: Node)
      requires InSync() && node in mem && right in mem && node != right && node != sentinel && right != sentinel
      requires var b := mem[right].left; b in mem && b != node && b != right
      modifies this`mem, node, right, mem.Keys
      ensures InSync() && mem.Keys == old(mem.Keys)
      ensures forall x | x in mem :: mem[x] == SwungLeft(x, node, right, sentinel, old(mem))
    {
      node.parent := right;
      node.right := right.left;
      if right.left != sentinel {
        right.left.parent := node;
      }
      right.left := node;
      mem := map n | n in mem :: Links(n.left, n.right, n.parent, n.color, n.key, n.data);
    }

    /** The pointer updates of a left rotation: exactly `RotLeftLinks` at every node. */
    method LeftRotate(node: Node)
      requires InSync() && CanRotateLeft(node, sentinel, root, mem)
      modifies this`root, this`mem, mem.Keys
      ensures InSync() && LeftRotated(node, old(mem)[node].right, sentinel, old(root), root, old(mem), mem)
    {
      var right: Node := node.right;
      var p: Node := node.parent;
      SetParent(right, p);
      ReplaceChild(node, p, right);
      ghost var m2 := mem;
      SwingLeft(node, right);
      forall x | x in mem ensures mem[x] == RotLeftLinks(x, node, right, sentinel, old(root), old(mem)) {
        LeftRotationLinks(x, node, right, sentinel, old(root), old(mem), m2);
      }
    }

    /** Rotate at the focus. */
    method RotateLeft(node: Node, ghost t: Tree, ghost c: Ctx)
      requires t.Branch? && t.right.Branch? && node == t.cell.node
      requires InSync() && Holds(t, c, sentinel, root, mem)
      modifies this`root, this`mem, mem.Keys
      ensures InSync() && Holds(RotLeft(t), c, sentinel, root, mem)
      ensures mem.Keys == old(mem.Keys) && mem[sentinel] == old(mem)[sentinel]
    {
      HoldsCanRotateLeft(t, c, sentinel, root, mem);
      LeftRotate(node);
      LeftRotationHolds(t, c, sentinel, old(root), root, old(mem), mem);
    }

    /** `node` goes below its left child, and takes over that child's right subtree. */
    method SwingRight(node: Node, left: Node)
      requires InSync() && node in mem && left in mem && node != left && node != sentinel && left != sentinel
      requires var b := mem[left].right; b in mem && b != node && b != left
      modifies this`mem, node, left, mem.Keys
      ensures InSync() && mem.Keys == old(mem.Keys)
      ensures forall x | x in mem :: mem[x] == SwungRight(x, node, left, sentinel, old(mem))
    {
      node.parent := left;
      node.left := left.right;
      if left.right != sentinel {
        left.right.parent := node;
      }
      left.right := node;
      mem := map n | n in mem :: Links(n.left, n.right, n.parent, n.color, n.key, n.data);
    }

    /** The pointer updates of a right rotation: exactly `RotRightLinks` at every node. */
    method RightRotate(node: Node)
      requires InSync() && CanRotateRight(node, sentinel, root, mem)
      modifies this`root, this`mem, mem.Keys
      ensures InSync() && RightRotated(node, old(mem)[node].left, sentinel, old(root), root, old(mem), mem)
    {
      var left: Node := node.left;
      var p: Node := node.parent;
      SetParent(left, p);
      ReplaceChild(node, p, left);
      ghost var m2 := mem;
      SwingRight(node, left);
      forall x | x in mem ensures mem[x] == RotRightLinks(x, node, left, sentinel, old(root), old(mem)) {
        RightRotationLinks(x, node, left, sentinel, old(root), old(mem), m2);
      }
    }

    /** Rotate at the focus. */
    method RotateRight(node: Node, ghost t: Tree, ghost c: Ctx)
      requires t.Branch? && t.left.Branch? && node == t.cell.node
      requires InSync() && Holds(t, c, sentinel, root, mem)
      modifies this`root, this`mem, mem.Keys
      ensures InSync() && Holds(RotRight(t), c, sentinel, root, mem)
      ensures mem.Keys == old(mem.Keys) && mem[sentinel] == old(mem)[sentinel]
    {
      HoldsCanRotateRight(t, c, sentinel, root, mem);
      RightRotate(node);
      RightRotationHolds(t, c, sentinel, old(root), root, old(mem), mem);
    }

    // ---------- insert_fix ----------

    method Ancestors(node: Node, ghost t: Tree, ghost c: Ctx) returns (parent: Node, grandpa: Node)
      requires InSync() && Holds(t, c, sentinel, root, mem) && t.Branch? && node == t.cell.node && !c.Top? && !c.up.Top?
      ensures parent == c.cell.node == node.parent && grandpa == c.up.cell.node == parent.parent
    {
      LinksAround(t, c, sentinel, root, mem);
      parent := node.parent;
      grandpa := parent.parent;
    }

    /** What the accessors say about the kin of the focus. */
    lemma Kin(node: Node, t: Tree, c: Ctx)
      requires InSync() && SentinelOk() && Holds(t, c, sentinel, root, mem) && t.Branch? && node == t.cell.node
      ensures (node == root <==> c.Top?) && node.parent == CRef(c, sentinel)
      ensures !c.Top? ==>
                && (IsRed(Parent(node)) <==> c.cell.color.Red?)
                && (IsRight(node) <==> c.InRight?) && (IsLeft(node) <==> c.InLeft?)
      ensures !c.Top? && !c.up.Top? ==>
                && node.parent.parent == c.up.cell.node && (IsLeft(node.parent) <==> c.up.InLeft?)
                && Uncle(node) == Ref(Sibling(c.up), sentinel) && (IsRed(Uncle(node)) <==> IsRedTree(Sibling(c.up)))
    {
      LinksAround(t, c, sentinel, root, mem);
      if !c.Top? {
        FocusUp(t, c, sentinel, root, mem);
        LinksAround(Fill(c, t), c.up, sentinel, root, mem);
      }
    }

    /** Red uncle: parent and uncle become black, the grandparent red; the red node to mend moves up. */
    method PushRedUp(node: Node, ghost t: Tree, ghost c: Ctx) returns (next: Node, ghost t': Tree, ghost c': Ctx)
      requires InSync() && SentinelOk() && Holds(t, c, sentinel, root, mem) && RedFocus(t, c) && node == t.cell.node
      requires !c.Top? && c.cell.color.Red? && !c.up.Top? && IsRedTree(Sibling(c.up))
      modifies this`mem, mem.Keys
      ensures InSync() && Holds(t', c', sentinel, root, mem) && RedFocus(t', c') && next == t'.cell.node
      ensures Depth(c') < Depth(c) && Whole(t', c') == Whole(t, c)
      ensures mem.Keys == old(mem.Keys) && mem[sentinel] == old(mem)[sentinel]
    {
      var parent, grandpa := Ancestors(node, t, c);
      Kin(node, t, c);
      var uncle: Node := Uncle(node);
      SetParentColor(parent, Black, t, c);
      ghost var c1 := PaintCtx(c, Black);
      FocusUp(t, c1, sentinel, root, mem);
      SetSiblingColor(uncle, Black, Fill(c1, t), c.up);
      ghost var c2 := WithSibling(c.up, Paint(Sibling(c.up), Black));
      SetParentColor(grandpa, Red, Fill(c1, t), c2);
      FocusUp(Fill(c1, t), PaintCtx(c2, Red), sentinel, root, mem);
      PushedUpIsRedFocus(t, c);
      next, t', c' := grandpa, PushedUp(t, c), c.up.up;
    }

    /** A red right child of a left child: rotate it above its parent, which becomes the red node to mend. */
    method RotateInnerLeft(start: Node, ghost t0: Tree, ghost c0: Ctx) returns (node: Node, ghost t: Tree, ghost c: Ctx)
      requires InSync() && Holds(t0, c0, sentinel, root, mem) && RedFocus(t0, c0) && start == t0.cell.node
      requires c0.InRight? && c0.cell.color.Red? && c0.up.InLeft?
      modifies this`root, this`mem, mem.Keys
      ensures InSync() && Holds(t, c, sentinel, root, mem) && RedFocus(t, c) && node == t.cell.node
      ensures c.InLeft? && c.cell.color.Red? && c.up == c0.up && Whole(t, c) == Whole(t0, c0)
      ensures mem.Keys == old(mem.Keys) && mem[sentinel] == old(mem)[sentinel]
    {
      LinksAround(t0, c0, sentinel, root, mem);
      InnerLeftRotation(t0, c0);
      FocusUp(t0, c0, sentinel, root, mem);
      node := start.parent;
      RotateLeft(node, Fill(c0, t0), c0.up);
      ghost var r := RotLeft(Fill(c0, t0));
      Focus(r, c0.up, sentinel, root, mem);
      t, c := r.left, LeftCtx(r, c0.up);
    }

    /** A red left child of a left child: black parent, red grandparent, and a right rotation there. */
    method RotateOuterRight(node: Node, ghost t: Tree, ghost c: Ctx) returns (ghost c': Ctx)
      requires InSync() && Holds(t, c, sentinel, root, mem) && RedFocus(t, c) && node == t.cell.node
      requires c.InLeft? && c.cell.color.Red? && c.up.InLeft? && !IsRedTree(c.up.right)
      modifies this`root, this`mem, mem.Keys
      ensures InSync() && Holds(t, c', sentinel, root, mem) && RedFocus(t, c')
      ensures !c'.Top? && c'.cell.color.Black? && Depth(c') < Depth(c) && Whole(t, c') == Whole(t, c)
      ensures mem.Keys == old(mem.Keys) && mem[sentinel] == old(mem)[sentinel]
    {
      OuterRightRotation(t, c);
      var parent, grandpa := Ancestors(node, t, c);
      SetParentColor(parent, Black, t, c);
      ghost var p := Fill(PaintCtx(c, Black), t);
      FocusUp(t, PaintCtx(c, Black), sentinel, root, mem);
      SetParentColor(grandpa, Red, p, c.up);
      ghost var g := Fill(PaintCtx(c.up, Red), p);
      FocusUp(p, PaintCtx(c.up, Red), sentinel, root, mem);
      RotateRight(grandpa, g, c.up.up);
      Focus(RotRight(g), c.up.up, sentinel, root, mem);
      c' := LeftCtx(RotRight(g), c.up.up);
    }

    /** A red left child of a right child: rotate it above its parent, which becomes the red node to mend. */
    method RotateInnerRight(start: Node, ghost t0: Tree, ghost c0: Ctx)
      returns (node: Node, ghost t: Tree, ghost c: Ctx)
      requires InSync() && Holds(t0, c0, sentinel, root, mem) && RedFocus(t0, c0) && start == t0.cell.node
      requires c0.InLeft? && c0.cell.color.Red? && c0.up.InRight?
      modifies this`root, this`mem, mem.Keys
      ensures InSync() && Holds(t, c, sentinel, root, mem) && RedFocus(t, c) && node == t.cell.node
      ensures c.InRight? && c.cell.color.Red? && c.up == c0.up && Whole(t, c) == Whole(t0, c0)
      ensures mem.Keys == old(mem.Keys) && mem[sentinel] == old(mem)[sentinel]
    {
      LinksAround(t0, c0, sentinel, root, mem);
      InnerRightRotation(t0, c0);
      FocusUp(t0, c0, sentinel, root, mem);
      node := start.parent;
      RotateRight(node, Fill(c0, t0), c0.up);
      ghost var r := RotRight(Fill(c0, t0));
      Focus(r, c0.up, sentinel, root, mem);
      t, c := r.right, RightCtx(r, c0.up);
    }

    /** A red right child of a right child: black parent, red grandparent, and a left rotation there. */
    method RotateOuterLeft(node: Node, ghost t: Tree, ghost c: Ctx) returns (ghost c': Ctx)
      requires InSync() && Holds(t, c, sentinel, root, mem) && RedFocus(t, c) && node == t.cell.node
      requires c.InRight? && c.cell.color.Red? && c.up.InRight? && !IsRedTree(c.up.left)
      modifies this`root, this`mem, mem.Keys
      ensures InSync() && Holds(t, c', sentinel, root, mem) && RedFocus(t, c')
      ensures !c'.Top? && c'.cell.color.Black? && Depth(c') < Depth(c) && Whole(t, c') == Whole(t, c)
      ensures mem.Keys == old(mem.Keys) && mem[sentinel] == old(mem)[sentinel]
    {
      OuterLeftRotation(t, c);
      var parent, grandpa := Ancestors(node, t, c);
      SetParentColor(parent, Black, t, c);
      ghost var p := Fill(PaintCtx(c, Black), t);
      FocusUp(t, PaintCtx(c, Black), sentinel, root, mem);
      SetParentColor(grandpa, Red, p, c.up);
      ghost var g := Fill(PaintCtx(c.up, Red), p);
      FocusUp(p, PaintCtx(c.up, Red), sentinel, root, mem);
      RotateLeft(grandpa, g, c.up.up);
      Focus(RotLeft(g), c.up.up, sentinel, root, mem);
      c' := RightCtx(RotLeft(g), c.up.up);
    }

    method BlackenRoot(ghost t: Tree, ghost c: Ctx) returns (ghost whole: Tree)
      requires InSync() && Holds(t, c, sentinel, root, mem) && RedFocus(t, c) && (!c.Top? ==> c.cell.color.Black?)
      modifies this`mem, mem.Keys
      ensures InSync() && Holds(whole, Top, sentinel, root, mem) && RedBlack(whole) && Whole(whole, Top) == Whole(t, c)
      ensures mem.Keys == old(mem.Keys) && mem[sentinel] == old(mem)[sentinel]
    {
      WholeTree(t, c, sentinel, root, mem);
      BlackRoot(t, c);
      LinksAround(Plug(c, t), Top, sentinel, root, mem);
      SetColor(root, Black, Plug(c, t), Top);
      WholePainted(Plug(c, t), Top, Black);
      whole := Paint(Plug(c, t), Black);
    }

    method InsertFix(start: Node, ghost t0: Tree, ghost c0: Ctx) returns (ghost whole: Tree)
      requires InSync() && SentinelOk() && Holds(t0, c0, sentinel, root, mem) && RedFocus(t0, c0)
      requires start == t0.cell.node
      modifies this`root, this`mem, mem.Keys
      ensures InSync() && Holds(whole, Top, sentinel, root, mem) && RedBlack(whole)
      ensures Whole(whole, Top) == Whole(t0, c0)
      ensures mem.Keys == old(mem.Keys) && mem[sentinel] == old(mem)[sentinel]
    {
      var node := start;
      ghost var t, c := t0, c0;
      while node != root && IsRed(Parent(node))
        invariant InSync() && Holds(t, c, sentinel, root, mem) && RedFocus(t, c) && node == t.cell.node
        invariant Whole(t, c) == Whole(t0, c0)
        invariant mem.Keys == old(mem.Keys) && mem[sentinel] == old(mem)[sentinel]
        decreases Depth(c)
      {
        Kin(node, t, c);
        RedParentHasParent(t, c);
        if IsRed(Uncle(node)) {
          node, t, c := PushRedUp(node, t, c);
        } else {
          if IsLeft(node.parent) {
            if IsRight(node) {
              node, t, c := RotateInnerLeft(node, t, c);
            }
            c := RotateOuterRight(node, t, c);
          } else {
            if IsLeft(node) {
              node, t, c := RotateInnerRight(node, t, c);
            }
            c := RotateOuterLeft(node, t, c);
          }
        }
      }
      Kin(node, t, c);
      whole := BlackenRoot(t, c);
    }

    // ---------- delete_fix ----------

    /** `x` is the focus, possibly the sentinel, and its parent link is set. */
    ghost predicate At(x: Node, t: Tree, c: Ctx)
      reads this, mem.Keys
    {
      && InSync() && SentinelOk() && Holds(t, c, sentinel, root, mem)
      && x == Ref(t, sentinel) && x in mem && mem[x].parent == CRef(c, sentinel)
    }

    /** What the accessors say about the focus, even when it is the sentinel. */
    lemma Self(x: Node, t: Tree, c: Ctx)
      requires At(x, t, c)
      ensures (x == root <==> c.Top?) && (IsBlack(x) <==> !IsRedTree(t)) && x.parent == CRef(c, sentinel)
    {
      LinksAround(t, c, sentinel, root, mem);
    }

    lemma Brothers(x: Node, t: Tree, c: Ctx)
      requires At(x, t, c) && !c.Top? && Sibling(c).Branch?
      ensures x.parent == c.cell.node && c.cell.node in mem && (IsBlack(x.parent) <==> c.cell.color.Black?)
      ensures (IsLeft(x) <==> c.InLeft?) && Brother(x) == Sibling(c).cell.node && Brother(x) in mem
      ensures var s := Sibling(c); var b := s.cell.node;
              && (IsRed(b) <==> s.cell.color.Red?)
              && b.left == Ref(s.left, sentinel) && b.right == Ref(s.right, sentinel)
    {
      LinksAround(t, c, sentinel, root, mem);
    }

    lemma Nephews(x: Node, t: Tree, c: Ctx)
      requires At(x, t, c) && !c.Top? && Sibling(c).Branch?
      ensures var s := Sibling(c); var b := s.cell.node;
              && b.left == Ref(s.left, sentinel) && b.right == Ref(s.right, sentinel)
              && b.left in mem && b.right in mem
              && (IsBlack(b.left) <==> !IsRedTree(s.left)) && (IsBlack(b.right) <==> !IsRedTree(s.right))
    {
      FocusSibling(t, c, sentinel, root, mem);
      var s, sc := Sibling(c), SiblingCtx(c, t);
      LinksAround(s, sc, sentinel, root, mem);
      Focus(s, sc, sentinel, root, mem);
      LinksAround(s.left, LeftCtx(s, sc), sentinel, root, mem);
      LinksAround(s.right, RightCtx(s, sc), sentinel, root, mem);
    }

    method SetLeftNephewColor(n: Node, color: Color, ghost t: Tree, ghost c: Ctx)
      requires InSync() && Holds(t, c, sentinel, root, mem) && !c.Top? && Sibling(c).Branch? && Sibling(c).left.Branch?
      requires n == Sibling(c).left.cell.node
      modifies n`color, this`mem
      ensures InSync()
      ensures Holds(t, WithSibling(c, Sibling(c).(left := Paint(Sibling(c).left, color))), sentinel, root, mem)
      ensures mem.Keys == old(mem.Keys) && mem[sentinel] == old(mem)[sentinel]
    {
      ghost var s, sc := Sibling(c), SiblingCtx(c, t);
      FocusSibling(t, c, sentinel, root, mem);
      Focus(s, sc, sentinel, root, mem);
      SetColor(n, color, s.left, LeftCtx(s, sc));
      ghost var s' := s.(left := Paint(s.left, color));
      Focus(s', sc, sentinel, root, mem);
      FocusSibling(t, WithSibling(c, s'), sentinel, root, mem);
    }

    /** The focus is a left child with a red brother. */
    method BlackenRightBrother(node: Node, ghost t: Tree, ghost c: Ctx) returns (ghost c': Ctx)
      requires At(node, t, c) && BlackDeficit(t, c) && !IsRedTree(t) && c.InLeft? && IsRedTree(c.right)
      modifies this`root, this`mem, mem.Keys
      ensures At(node, t, c') && BlackDeficit(t, c') && Whole(t, c') == Whole(t, c)
      ensures c'.InLeft? && c'.cell.color.Red? && c'.right.Branch? && c'.right.cell.color.Black?
      ensures Depth(c') == Depth(c) + 1
      ensures mem.Keys == old(mem.Keys)
    {
      Brothers(node, t, c);
      RedRightSiblingGone(t, c);
      var parent: Node := node.parent;
      SetSiblingColor(Brother(node), Black, t, c);
      ghost var c1 := WithSibling(c, Paint(c.right, Black));
      SetParentColor(parent, Red, t, c1);
      ghost var c2 := PaintCtx(c1, Red);
      FocusUp(t, c2, sentinel, root, mem);
      RotateLeft(parent, Fill(c2, t), c.up);
      ghost var r := RedRightSibling(t, c);
      Focus(r, c.up, sentinel, root, mem);
      Focus(r.left, LeftCtx(r, c.up), sentinel, root, mem);
      c' := LeftCtx(r.left, LeftCtx(r, c.up));
      LinksAround(t, c', sentinel, root, mem);
    }

    /** The focus is a left child; its black brother's left child is red and the right one is not. */
    method RaiseLeftNephew(node: Node, ghost t: Tree, ghost c: Ctx) returns (ghost c': Ctx)
      requires At(node, t, c) && BlackDeficit(t, c) && !IsRedTree(t) && c.InLeft? && c.right.Branch?
      requires c.right.cell.color.Black? && IsRedTree(c.right.left) && !IsRedTree(c.right.right)
      modifies this`root, this`mem, mem.Keys
      ensures At(node, t, c') && BlackDeficit(t, c') && Whole(t, c') == Whole(t, c)
      ensures c'.InLeft? && c'.cell == c.cell && c'.up == c.up && c'.right.Branch? && c'.right.cell.color.Black?
      ensures IsRedTree(c'.right.right)
      ensures mem.Keys == old(mem.Keys)
    {
      Brothers(node, t, c);
      Nephews(node, t, c);
      LeftNephewRaised(t, c);
      var brother: Node := Brother(node);
      ghost var s := c.right;
      ghost var s1 := s.(left := Paint(s.left, Black));
      SetLeftNephewColor(brother.left, Black, t, c);
      SetSiblingColor(brother, Red, t, WithSibling(c, s1));
      ghost var c2 := WithSibling(c, Paint(s1, Red));
      FocusSibling(t, c2, sentinel, root, mem);
      RotateRight(brother, Paint(s1, Red), SiblingCtx(c2, t));
      c' := WithSibling(c, RaisedLeftNephew(s));
      FocusSibling(t, c', sentinel, root, mem);
      LinksAround(t, c', sentinel, root, mem);
    }

    /** The brother takes the parent's color; the parent and the brother's right child become black. */
    method ColorForLeftRotation(node: Node, ghost t: Tree, ghost c: Ctx) returns (ghost c': Ctx)
      requires At(node, t, c) && c.InLeft? && c.right.Branch? && c.right.right.Branch?
      modifies this`mem, mem.Keys
      ensures InSync() && Holds(t, c', sentinel, root, mem) && c'.InLeft? && c'.up == c.up
      ensures c'.cell.node == c.cell.node
      ensures c'.right.Branch? && RotLeft(Fill(c', t)) == RedRightNephew(t, c)
      ensures mem.Keys == old(mem.Keys) && mem[sentinel] == old(mem)[sentinel]
    {
      Brothers(node, t, c);
      Nephews(node, t, c);
      var parent: Node, brother: Node := node.parent, Brother(node);
      var nephew: Node := brother.right;
      SetSiblingColor(brother, if IsBlack(parent) then Black else Red, t, c);
      ghost var s1 := Paint(c.right, c.cell.color);
      ghost var c1 := WithSibling(c, s1);
      SetParentColor(parent, Black, t, c1);
      SetRightNephewColor(nephew, Black, t, PaintCtx(c1, Black));
      c' := WithSibling(PaintCtx(c1, Black), s1.(right := Paint(s1.right, Black)));
    }

    /** The focus is a left child; its black brother's right child is red. */
    method EndAtRightNephew(node: Node, ghost t: Tree, ghost c: Ctx) returns (ghost whole: Tree)
      requires At(node, t, c) && BlackDeficit(t, c) && !IsRedTree(t) && c.InLeft? && c.right.Branch?
      requires c.right.cell.color.Black? && IsRedTree(c.right.right)
      modifies this`root, this`mem, mem.Keys
      ensures InSync() && SentinelOk() && Holds(whole, Top, sentinel, root, mem) && RedBlack(whole)
      ensures Whole(whole, Top) == Whole(t, c)
      ensures mem.Keys == old(mem.Keys)
    {
      Self(node, t, c);
      RedRightNephewEnds(t, c);
      var parent: Node := node.parent;
      ghost var c' := ColorForLeftRotation(node, t, c);
      FocusUp(t, c', sentinel, root, mem);
      RotateLeft(parent, Fill(c', t), c.up);
      ghost var r := RedRightNephew(t, c);
      WholeTree(r, c.up, sentinel, root, mem);
      whole := Plug(c.up, r);
    }

    method SetRightNephewColor(n: Node, color: Color, ghost t: Tree, ghost c: Ctx)
      requires InSync() && Holds(t, c, sentinel, root, mem) && !c.Top? && Sibling(c).Branch? && Sibling(c).right.Branch?
      requires n == Sibling(c).right.cell.node
      modifies n`color, this`mem
      ensures InSync()
      ensures Holds(t, WithSibling(c, Sibling(c).(right := Paint(Sibling(c).right, color))), sentinel, root, mem)
      ensures mem.Keys == old(mem.Keys) && mem[sentinel] == old(mem)[sentinel]
    {
      ghost var s, sc := Sibling(c), SiblingCtx(c, t);
      FocusSibling(t, c, sentinel, root, mem);
      Focus(s, sc, sentinel, root, mem);
      SetColor(n, color, s.right, RightCtx(s, sc));
      ghost var s' := s.(right := Paint(s.right, color));
      Focus(s', sc, sentinel, root, mem);
      FocusSibling(t, WithSibling(c, s'), sentinel, root, mem);
    }

    /** The focus is a right child with a red brother. */
    method BlackenLeftBrother(node: Node, ghost t: Tree, ghost c: Ctx) returns (ghost c': Ctx)
      requires At(node, t, c) && BlackDeficit(t, c) && !IsRedTree(t) && c.InRight? && IsRedTree(c.left)
      modifies this`root, this`mem, mem.Keys
      ensures At(node, t, c') && BlackDeficit(t, c') && Whole(t, c') == Whole(t, c)
      ensures c'.InRight? && c'.cell.color.Red? && c'.left.Branch? && c'.left.cell.color.Black?
      ensures Depth(c') == Depth(c) + 1
      ensures mem.Keys == old(mem.Keys)
    {
      Brothers(node, t, c);
      RedLeftSiblingGone(t, c);
      var parent: Node := node.parent;
      SetSiblingColor(Brother(node), Black, t, c);
      ghost var c1 := WithSibling(c, Paint(c.left, Black));
      SetParentColor(parent, Red, t, c1);
      ghost var c2 := PaintCtx(c1, Red);
      FocusUp(t, c2, sentinel, root, mem);
      RotateRight(parent, Fill(c2, t), c.up);
      ghost var r := RedLeftSibling(t, c);
      Focus(r, c.up, sentinel, root, mem);
      Focus(r.right, RightCtx(r, c.up), sentinel, root, mem);
      c' := RightCtx(r.right, RightCtx(r, c.up));
      LinksAround(t, c', sentinel, root, mem);
    }

    /** The focus is a right child; its black brother's right child is red and the left one is not. */
    method RaiseRightNephew(node: Node, ghost t: Tree, ghost c: Ctx) returns (ghost c': Ctx)
      requires At(node, t, c) && BlackDeficit(t, c) && !IsRedTree(t) && c.InRight? && c.left.Branch?
      requires c.left.cell.color.Black? && IsRedTree(c.left.right) && !IsRedTree(c.left.left)
      modifies this`root, this`mem, mem.Keys
      ensures At(node, t, c') && BlackDeficit(t, c') && Whole(t, c') == Whole(t, c)
      ensures c'.InRight? && c'.cell == c.cell && c'.up == c.up && c'.left.Branch? && c'.left.cell.color.Black?
      ensures IsRedTree(c'.left.left)
      ensures mem.Keys == old(mem.Keys)
    {
      Brothers(node, t, c);
      Nephews(node, t, c);
      RightNephewRaised(t, c);
      var brother: Node := Brother(node);
      ghost var s := c.left;
      ghost var s1 := s.(right := Paint(s.right, Black));
      SetRightNephewColor(brother.right, Black, t, c);
      SetSiblingColor(brother, Red, t, WithSibling(c, s1));
      ghost var c2 := WithSibling(c, Paint(s1, Red));
      FocusSibling(t, c2, sentinel, root, mem);
      RotateLeft(brother, Paint(s1, Red), SiblingCtx(c2, t));
      c' := WithSibling(c, RaisedRightNephew(s));
      FocusSibling(t, c', sentinel, root, mem);
      LinksAround(t, c', sentinel, root, mem);
    }

    /** The brother takes the parent's color; the parent and the brother's left child become black. */
    method ColorForRightRotation(node: Node, ghost t: Tree, ghost c: Ctx) returns (ghost c': Ctx)
      requires At(node, t, c) && c.InRight? && c.left.Branch? && c.left.left.Branch?
      modifies this`mem, mem.Keys
      ensures InSync() && Holds(t, c', sentinel, root, mem) && c'.InRight? && c'.up == c.up
      ensures c'.cell.node == c.cell.node
      ensures c'.left.Branch? && RotRight(Fill(c', t)) == RedLeftNephew(t, c)
      ensures mem.Keys == old(mem.Keys) && mem[sentinel] == old(mem)[sentinel]
    {
      Brothers(node, t, c);
      Nephews(node, t, c);
      var parent: Node, brother: Node := node.parent, Brother(node);
      var nephew: Node := brother.left;
      SetSiblingColor(brother, if IsBlack(parent) then Black else Red, t, c);
      ghost var s1 := Paint(c.left, c.cell.color);
      ghost var c1 := WithSibling(c, s1);
      SetParentColor(parent, Black, t, c1);
      SetLeftNephewColor(nephew, Black, t, PaintCtx(c1, Black));
      c' := WithSibling(PaintCtx(c1, Black), s1.(left := Paint(s1.left, Black)));
    }

    /** The focus is a right child; its black brother's left child is red. */
    method EndAtLeftNephew(node: Node, ghost t: Tree, ghost c: Ctx) returns (ghost whole: Tree)
      requires At(node, t, c) && BlackDeficit(t, c) && !IsRedTree(t) && c.InRight? && c.left.Branch?
      requires c.left.cell.color.Black? && IsRedTree(c.left.left)
      modifies this`root, this`mem, mem.Keys
      ensures InSync() && SentinelOk() && Holds(whole, Top, sentinel, root, mem) && RedBlack(whole)
      ensures Whole(whole, Top) == Whole(t, c)
      ensures mem.Keys == old(mem.Keys)
    {
      Self(node, t, c);
      RedLeftNephewEnds(t, c);
      var parent: Node := node.parent;
      ghost var c' := ColorForRightRotation(node, t, c);
      FocusUp(t, c', sentinel, root, mem);
      RotateRight(parent, Fill(c', t), c.up);
      ghost var r := RedLeftNephew(t, c);
      WholeTree(r, c.up, sentinel, root, mem);
      whole := Plug(c.up, r);
    }

    /** Black nephews: the brother becomes red, and the deficit moves to the parent. */
    method ReddenBrother(node: Node, ghost t: Tree, ghost c: Ctx) returns (ghost t': Tree, ghost c': Ctx)
      requires At(node, t, c) && BlackDeficit(t, c) && !IsRedTree(t) && !c.Top?
      requires var s := Sibling(c); s.Branch? && s.cell.color.Black? && !IsRedTree(s.left) && !IsRedTree(s.right)
      modifies this`mem, mem.Keys
      ensures node.parent == c.cell.node && At(c.cell.node, t', c') && BlackDeficit(t', c')
      ensures Whole(t', c') == Whole(t, c)
      ensures c' == c.up && (IsRedTree(t') <==> c.cell.color.Red?)
      ensures mem.Keys == old(mem.Keys)
    {
      Brothers(node, t, c);
      RedSiblingMovesDeficit(t, c);
      SetSiblingColor(Brother(node), Red, t, c);
      ghost var c1 := WithSibling(c, Paint(Sibling(c), Red));
      FocusUp(t, c1, sentinel, root, mem);
      t', c' := Fill(c1, t), c.up;
      LinksAround(t', c', sentinel, root, mem);
      LinksAround(t, c1, sentinel, root, mem);
    }

    /** One turn of the loop when the focus is a left child. */
    method DeleteFixLeft(start: Node, ghost t0: Tree, ghost c0: Ctx) returns (node: Node, ghost t: Tree, ghost c: Ctx)
      requires At(start, t0, c0) && BlackDeficit(t0, c0) && !IsRedTree(t0) && c0.InLeft?
      modifies this`root, this`mem, mem.Keys
      ensures At(node, t, c) && BlackDeficit(t, c) && Whole(t, c) == Whole(t0, c0)
      ensures Depth(c) < Depth(c0) || (Depth(c) == Depth(c0) && IsRedTree(t))
      ensures mem.Keys == old(mem.Keys)
    {
      node, t, c := start, t0, c0;
      DeficitHasSibling(t, c);
      Brothers(node, t, c);
      if IsRed(Brother(node)) {
        c := BlackenRightBrother(node, t, c);
        Brothers(node, t, c);
      }
      Nephews(node, t, c);
      if IsBlack(Brother(node).left) && IsBlack(Brother(node).right) {
        t, c := ReddenBrother(node, t, c);
        node := node.parent;
      } else {
        if IsBlack(Brother(node).right) {
          c := RaiseLeftNephew(node, t, c);
        }
        t := EndAtRightNephew(node, t, c);
        c := Top;
        node := root;
        LinksAround(t, c, sentinel, root, mem);
        WholeIsMended(t);
      }
    }

    /** One turn of the loop when the focus is a right child. */
    method DeleteFixRight(start: Node, ghost t0: Tree, ghost c0: Ctx) returns (node: Node, ghost t: Tree, ghost c: Ctx)
      requires At(start, t0, c0) && BlackDeficit(t0, c0) && !IsRedTree(t0) && c0.InRight?
      modifies this`root, this`mem, mem.Keys
      ensures At(node, t, c) && BlackDeficit(t, c) && Whole(t, c) == Whole(t0, c0)
      ensures Depth(c) < Depth(c0) || (Depth(c) == Depth(c0) && IsRedTree(t))
      ensures mem.Keys == old(mem.Keys)
    {
      node, t, c := start, t0, c0;
      DeficitHasSibling(t, c);
      Brothers(node, t, c);
      if IsRed(Brother(node)) {
        c := BlackenLeftBrother(node, t, c);
        Brothers(node, t, c);
      }
      Nephews(node, t, c);
      if IsBlack(Brother(node).right) && IsBlack(Brother(node).left) {
        t, c := ReddenBrother(node, t, c);
        node := node.parent;
      } else {
        if IsBlack(Brother(node).left) {
          c := RaiseRightNephew(node, t, c);
        }
        t := EndAtLeftNephew(node, t, c);
        c := Top;
        node := root;
        LinksAround(t, c, sentinel, root, mem);
        WholeIsMended(t);
      }
    }

    method DeleteFix(start: Node, ghost t0: Tree, ghost c0: Ctx) returns (ghost whole: Tree)
      requires At(start, t0, c0) && BlackDeficit(t0, c0)
      modifies this`root, this`mem, mem.Keys
      ensures InSync() && SentinelOk() && Holds(whole, Top, sentinel, root, mem) && RedBlack(whole)
      ensures Whole(whole, Top) == Whole(t0, c0) && mem.Keys == old(mem.Keys)
    {
      var node := start;
      ghost var t, c := t0, c0;
      while node != root && IsBlack(node)
        invariant At(node, t, c) && BlackDeficit(t, c) && Whole(t, c) == Whole(t0, c0) && mem.Keys == old(mem.Keys)
        decreases Depth(c), if IsRedTree(t) then 0 else 1
      {
        Self(node, t, c);
        DeficitHasSibling(t, c);
        Brothers(node, t, c);
        if IsLeft(node) {
          node, t, c := DeleteFixLeft(node, t, c);
        } else {
          node, t, c := DeleteFixRight(node, t, c);
        }
      }
      Self(node, t, c);
      whole := BlackenLast(node, t, c);
    }

    method BlackenLast(node: Node, ghost t: Tree, ghost c: Ctx) returns (ghost whole: Tree)
      requires At(node, t, c) && BlackDeficit(t, c) && (c.Top? || IsRedTree(t))
      modifies this`mem, node
      ensures InSync() && SentinelOk() && Holds(whole, Top, sentinel, root, mem) && RedBlack(whole)
      ensures Whole(whole, Top) == Whole(t, c) && mem.Keys == old(mem.Keys)
    {
      whole := if t.Branch? then Plug(c, Paint(t, Black)) else Plug(c, t);
      PaintNode(node, Black);
      LastBlackened(t, c, sentinel, root, old(mem), mem);
    }

    // ---------- find, min, max ----------

    ghost function Entries(): (r: seq<Entry>)
      reads this
    {
      InOrder(shape)
    }

    /** The key-to-data map the tree stands for. */
    ghost function Contents(): (r: map<Word, Word>)
      reads this
    {
      MapOf(Entries())
    }

    method Find(key: Word32) returns (r: Node?, ghost visited: nat)
      requires Valid()
      ensures r != null ==> Entry(r, key, r.data) in Entries() && r.key == key
      ensures r == null ==> !HasKey(Entries(), key)
      ensures visited == SearchDepth(shape, key) && AtMostTwoLogs(visited, Size(shape))
    {
      var node := root;
      ghost var t, c := shape, Top;
      visited := 0;
      LinksAround(t, c, sentinel, root, mem);
      while node != sentinel && key != node.key
        invariant Searching(t, c, key, Entries(), sentinel, root, mem) && node == Ref(t, sentinel)
        invariant visited + SearchDepth(t, key) == SearchDepth(shape, key)
        decreases t
      {
        Descend(t, c, key, Entries(), sentinel, root, mem);
        visited := visited + 1;
        if key < node.key {
          node := node.left;
          t, c := t.left, LeftCtx(t, c);
        } else {
          node := node.right;
          t, c := t.right, RightCtx(t, c);
        }
      }
      if t.Leaf? {
        NotFound(c, key, Entries());
      } else {
        Descend(t, c, key, Entries(), sentinel, root, mem);
        visited := visited + 1;
      }
      PathIsLogarithmic(visited, shape);
      r := if node == sentinel then null else node;
    }

    /** The end of the leftmost path below `start`, or below the root. */
    method Min(start: Node?, ghost t0: Tree, ghost c0: Ctx) returns (r: Node?, ghost s: Ctx, ghost t: Tree)
      requires InSync() && Holds(t0, c0, sentinel, root, mem)
      requires if start == null then c0.Top? else t0.Branch? && start == t0.cell.node
      ensures r == null <==> root == sentinel
      ensures r != null ==>
                && t.Branch? && t.left.Leaf? && r == t.cell.node && Plug(s, t) == t0 && Before(s) == []
                && Holds(t, Compose(s, c0), sentinel, root, mem)
                && InOrder(t0) != [] && InOrder(t0)[0] == Entry(r, r.key, r.data)
    {
      s, t := Top, t0;
      LinksAround(t, c0, sentinel, root, mem);
      if root == sentinel {
        return null, s, t;
      }
      var node: Node := if start != null then start else root;
      while node.left != sentinel
        invariant t.Branch? && node == t.cell.node && Plug(s, t) == t0 && Before(s) == []
        invariant Holds(t, Compose(s, c0), sentinel, root, mem)
        decreases t
      {
        LinksAround(t, Compose(s, c0), sentinel, root, mem);
        Focus(t, Compose(s, c0), sentinel, root, mem);
        node := node.left;
        t, s := t.left, LeftCtx(t, s);
      }
      LinksAround(t, Compose(s, c0), sentinel, root, mem);
      LeftEndIsFirst(s, t);
      r := node;
    }

    /** The end of the rightmost path below `start`, or below the root. */
    method Max(start: Node?, ghost t0: Tree, ghost c0: Ctx) returns (r: Node?, ghost s: Ctx, ghost t: Tree)
      requires InSync() && Holds(t0, c0, sentinel, root, mem)
      requires if start == null then c0.Top? else t0.Branch? && start == t0.cell.node
      ensures r == null <==> root == sentinel
      ensures r != null ==>
                && t.Branch? && t.right.Leaf? && r == t.cell.node && Plug(s, t) == t0 && After(s) == []
                && Holds(t, Compose(s, c0), sentinel, root, mem)
                && InOrder(t0) != [] && InOrder(t0)[|InOrder(t0)| - 1] == Entry(r, r.key, r.data)
    {
      s, t := Top, t0;
      LinksAround(t, c0, sentinel, root, mem);
      if root == sentinel {
        return null, s, t;
      }
      var node: Node := if start != null then start else root;
      while node.right != sentinel
        invariant t.Branch? && node == t.cell.node && Plug(s, t) == t0 && After(s) == []
        invariant Holds(t, Compose(s, c0), sentinel, root, mem)
        decreases t
      {
        LinksAround(t, Compose(s, c0), sentinel, root, mem);
        Focus(t, Compose(s, c0), sentinel, root, mem);
        node := node.right;
        t, s := t.right, RightCtx(t, s);
      }
      LinksAround(t, Compose(s, c0), sentinel, root, mem);
      RightEndIsLast(s, t);
      r := node;
    }

    // ---------- insert ----------

    /** The descent of an insertion: either the key is there, or `cur` has an empty place for it. */
    method FindSlot(key: Word) returns (cur: Node, found: bool, ghost c: Ctx)
      requires Valid() && root != sentinel
      ensures found ==> HasKey(Entries(), key)
      ensures !found ==>
                && Searching(Leaf, c, key, Entries(), sentinel, root, mem) && !c.Top?
                && cur == c.cell.node && cur in mem && cur.key != key && (c.InLeft? <==> key < cur.key)
    {
      cur := root;
      ghost var t := shape;
      c := Top;
      LinksAround(t, c, sentinel, root, mem);
      while true
        invariant Searching(t, c, key, Entries(), sentinel, root, mem) && t.Branch? && cur == t.cell.node
        decreases t
      {
        Descend(t, c, key, Entries(), sentinel, root, mem);
        if key == cur.key {
          return cur, true, c;
        }
        var next: Node := if key < cur.key then cur.left else cur.right;
        t, c := if key < cur.key then t.left else t.right, if key < cur.key then LeftCtx(t, c) else RightCtx(t, c);
        LinksAround(t, c, sentinel, root, mem);
        if next == sentinel {
          return cur, false, c;
        }
        cur := next;
      }
    }

    /** `cur` points to `node` in the empty place the search was looking for. */
    method LinkChild(node: Node, cur: Node)
      requires InSync() && node !in mem && cur in mem
      requires (if node.key < cur.key then cur.left else cur.right) == sentinel
      modifies this`mem, node`left, node`right, cur
      ensures InSync() && node.left == node.right == sentinel && node.parent == old(node.parent)
      ensures var k := old(mem)[cur];
              mem == old(mem)[cur := if node.key < k.key then k.(left := node) else k.(right := node)]
    {
      if node.key < cur.key {
        node.left := cur.left;
        node.right := sentinel;
        cur.left := node;
        mem := mem[cur := mem[cur].(left := node)];
      } else {
        node.right := cur.right;
        node.left := sentinel;
        cur.right := node;
        mem := mem[cur := mem[cur].(right := node)];
      }
    }

    method Adopt(node: Node, cur: Node)
      requires InSync() && node !in mem && node.left == node.right == sentinel
      modifies this`mem, node`parent, node`color
      ensures InSync() && mem == old(mem)[node := Links(sentinel, sentinel, cur, Red, node.key, node.data)]
    {
      node.parent := cur;
      node.color := Red;
      mem := mem[node := Links(sentinel, sentinel, cur, Red, node.key, node.data)];
    }

    /** `node` becomes the red child of `cur`. */
    method Attach(node: Node, cur: Node, ghost c: Ctx)
      requires InSync() && node !in mem && !c.Top? && cur == c.cell.node && cur in mem
      requires Holds(Leaf, c, sentinel, root, mem) && (c.InLeft? <==> node.key < cur.key)
      modifies this`mem, node, cur
      ensures InSync() && Holds(NewLeaf(node, node.key, node.data), c, sentinel, root, mem)
      ensures node.key == old(node.key) && node.data == old(node.data)
      ensures mem.Keys == old(mem.Keys) + {node} && mem[sentinel] == old(mem)[sentinel]
    {
      LinksAround(Leaf, c, sentinel, root, mem);
      CSegKeys(c, sentinel, sentinel, root, mem);
      ghost var m := mem;
      LinkChild(node, cur);
      Adopt(node, cur);
      NewLeafHolds(node, node.key, node.data, c, sentinel, root, m, mem);
    }

    /** A node whose key is not in the tree is not linked in it. */
    lemma NotLinked(n: Node)
      requires Valid() && n != sentinel && !HasKey(Entries(), n.key)
      ensures n !in mem
    {
      if n in Nodes(shape) { NodeHasEntry(shape, n, sentinel, sentinel, mem); }
    }

    lemma SlotFits(c: Ctx, n: Node)
      requires Valid() && Searching(Leaf, c, n.key, Entries(), sentinel, root, mem)
      ensures var t := NewLeaf(n, n.key, n.data);
              && RedFocus(t, c) && Sorted(Around(t, c)) && CNodes(c) == Nodes(shape)
              && Entries() == Before(c) + After(c) && Around(t, c) == Before(c) + [Entry(n, n.key, n.data)] + After(c)
    {
      WholeTree(Leaf, c, sentinel, root, mem);
      SameShape(Plug(c, Leaf), shape, sentinel, sentinel, mem);
      NewLeafIsRedFocus(n, n.key, n.data, c);
    }

    /** After linking a red leaf: restore the red-black property if its parent is red. */
    method Settle(node: Node, ghost t: Tree, ghost c: Ctx)
      requires InSync() && SentinelOk() && Holds(t, c, sentinel, root, mem) && RedFocus(t, c) && node == t.cell.node
      requires !c.Top?
      requires Sorted(Around(t, c)) && mem.Keys == Nodes(t) + CNodes(c) + {sentinel}
      modifies this, mem.Keys
      ensures Valid() && Entries() == Around(t, c)
    {
      Kin(node, t, c);
      if IsRed(node.parent) {
        shape := InsertFix(node, t, c);
        WholeTop(shape);
      } else {
        WholeTree(t, c, sentinel, root, mem);
        BlackRoot(t, c);
        shape := Plug(c, t);
      }
    }

    /** The nodes hold the keys and data the tree lists for them. */
    lemma EntryHeld(e: Entry)
      requires Valid() && e in Entries()
      ensures e.node in mem && e.node.key == e.key && e.node.data == e.data
    {
      EntriesLinked(shape, sentinel, sentinel, mem);
    }

    method InsertFirst(node: Node)
      requires Valid() && root == sentinel && node != sentinel
      modifies this, node
      ensures Valid() && old(shape) == Leaf && shape == Branch(Leaf, Cell(node, Black, node.key, node.data), Leaf)
      ensures node.key == old(node.key) && node.data == old(node.data)
    {
      LinksAround(shape, Top, sentinel, root, mem);
      node.color := Black;
      node.left := root;
      node.right := root;
      node.parent := root;
      root := node;
      mem := mem[node := Links(sentinel, sentinel, sentinel, Black, node.key, node.data)];
      shape := Branch(Leaf, Cell(node, Black, node.key, node.data), Leaf);
      assert InOrder(shape) == [Entry(node, node.key, node.data)];
      assert Nodes(shape) == {node} && old(mem).Keys == {sentinel};
      assert Seg(shape, sentinel, sentinel, mem) && Balanced(shape);
    }

    /** Link `node` in the empty place of `c` and settle. */
    method InsertBelow(node: Node, cur: Node, ghost c: Ctx)
      requires Valid() && node != sentinel && Searching(Leaf, c, node.key, Entries(), sentinel, root, mem)
      requires !c.Top? && cur == c.cell.node && cur in mem && (c.InLeft? <==> node.key < cur.key)
      modifies this, mem.Keys, node
      ensures Valid() && old(Entries()) == Before(c) + After(c)
      ensures Entries() == Before(c) + [Entry(node, old(node.key), old(node.data))] + After(c)
    {
      NotFound(c, node.key, Entries());
      NotLinked(node);
      SlotFits(c, node);
      Attach(node, cur, c);
      Settle(node, NewLeaf(node, node.key, node.data), c);
    }

    method Insert(node: Node?) returns (r: Node?, ghost at: nat)
      requires Valid() && node != sentinel
      modifies this, mem.Keys, node
      ensures Valid()
      ensures r == if node == null || node.key in old(Contents()) then null else node
      ensures r == null ==> unchanged(this) && forall n: Node | n in old(mem) || n == node :: unchanged(n)
      ensures r != null ==>
                && node.key == old(node.key) && node.data == old(node.data)
                && at <= old(|Entries()|)
                && Entries() == old(Entries())[..at] + [Entry(node, node.key, node.data)] + old(Entries())[at..]
                && Contents() == old(Contents())[node.key := node.data]
    {
      at := 0;
      if node == null {
        return null, at;
      }
      if root == sentinel {
        InsertFirst(node);
        MapOfInserted([], Entry(node, node.key, node.data), []);
        return node, at;
      }
      var cur, found;
      ghost var c;
      cur, found, c := FindSlot(node.key);
      MapOfKey(Entries(), node.key);
      if found {
        return null, at;
      }
      at := |Before(c)|;
      ghost var e := Entry(node, node.key, node.data);
      InsertBelow(node, cur, c);
      InsertedAt(Before(c), e, After(c));
      assert e in Before(c) + [e];
      EntryHeld(e);
      r := node;
    }

    // ---------- delete ----------

    /** Take `subst`, which has at most one child, out of the tree. */
    method Splice(subst: Node, ghost t: Tree, ghost c: Ctx) returns (tmp: Node)
      requires InSync() && SentinelOk() && Holds(t, c, sentinel, root, mem)
      requires t.Branch? && subst == t.cell.node && (t.left.Leaf? || t.right.Leaf?)
      modifies this`root, this`mem, mem.Keys
      ensures At(tmp, OnlyChild(t), c) && mem.Keys == old(mem.Keys)
      ensures subst.color == t.cell.color && subst.key == t.cell.key && subst.data == t.cell.data
    {
      SpliceLinks(t, c, sentinel, root, mem);
      tmp := if sentinel != subst.left then subst.left else subst.right;
      ghost var m := mem;
      var p: Node := subst.parent;
      SetParent(tmp, p);
      Relink(subst, p, tmp);
      SpliceHolds(t, c, sentinel, old(root), root, m, mem);
    }

    /** `p`, or the tree when there is no parent, points to `tmp` instead of `subst`. */
    method Relink(subst: Node, p: Node, tmp: Node)
      requires InSync() && p in mem && subst.parent == p
      modifies this`root, this`mem, p
      ensures InSync() && root == if p == sentinel then tmp else old(root)
      ensures mem == if p == sentinel then old(mem) else old(mem)[p := Redirect(old(mem)[p], subst, tmp)]
    {
      if sentinel == p {
        root := tmp;
      } else if IsLeft(subst) {
        p.left := tmp;
        mem := mem[p := mem[p].(left := tmp)];
      } else {
        p.right := tmp;
        mem := mem[p := mem[p].(right := tmp)];
      }
    }

    method CopyEntry(node: Node, key: Word, data: Word, ghost t: Tree, ghost c: Ctx)
      requires InSync() && Holds(t, c, sentinel, root, mem) && t.Branch? && node == t.cell.node
      modifies this`mem, node`key, node`data
      ensures InSync() && Holds(WithEntry(t, key, data), c, sentinel, root, mem)
      ensures mem == old(mem)[node := old(mem)[node].(key := key, data := data)]
    {
      LinksAround(t, c, sentinel, root, mem);
      node.key := key;
      node.data := data;
      mem := mem[node := mem[node].(key := key, data := data)];
      WithEntryHolds(t, key, data, c, sentinel, root, old(mem), mem);
    }

    /** Move an entry into `node`, with the focus in the hollow its successor left. */
    method MoveEntry(node: Node, tmp: Node, ghost t: Tree, ghost c: Ctx, ghost s: Ctx, ghost tm: Tree, key: Word,
                     data: Word)
      requires t.Branch? && node == t.cell.node && tm.Branch? && key == tm.cell.key && data == tm.cell.data
      requires At(tmp, tm.right, Compose(s, RightCtx(t, c)))
      modifies this`mem, node`key, node`data
      ensures At(tmp, tm.right, Hollow(s, t, tm, c)) && mem.Keys == old(mem.Keys)
    {
      ghost var u := Branch(t.left, t.cell, Plug(s, tm.right));
      Refocus(s, tm.right, RightCtx(t, c), sentinel, root, mem);
      Focus(u, c, sentinel, root, mem);
      CopyEntry(node, key, data, u, c);
      Focus(WithEntry(u, key, data), c, sentinel, root, mem);
      Refocus(s, tm.right, RightCtx(SuccessorCopied(t, tm), c), sentinel, root, mem);
    }

    /** A node with two children: unlink its successor, and move the successor's entry into the node. */
    method SpliceSuccessor(node: Node, ghost t: Tree, ghost c: Ctx)
      returns (subst: Node, tmp: Node, ghost tm: Tree, ghost s: Ctx)
      requires InSync() && SentinelOk() && Holds(t, c, sentinel, root, mem)
      requires t.Branch? && node == t.cell.node && t.left.Branch? && t.right.Branch?
      modifies this`root, this`mem, mem.Keys
      ensures tm.Branch? && subst == tm.cell.node && subst.color == tm.cell.color
      ensures tm.left.Leaf? && Plug(s, tm) == t.right && Before(s) == []
      ensures At(tmp, tm.right, Hollow(s, t, tm, c)) && mem.Keys == old(mem.Keys)
    {
      LinksAround(t, c, sentinel, root, mem);
      Focus(t, c, sentinel, root, mem);
      var r;
      r, s, tm := Min(node.right, t.right, RightCtx(t, c));
      subst := r;
      tmp := Splice(subst, tm, Compose(s, RightCtx(t, c)));
      MoveEntry(node, tmp, t, c, s, tm, subst.key, subst.data);
    }

    /** Rebalance if a black node was unlinked, and forget that node. */
    method Unlink(subst: Node, tmp: Node, ghost t: Tree, ghost c: Ctx)
      requires At(tmp, t, c) && Sorted(Around(t, c))
      requires subst in mem && subst != sentinel && mem.Keys - {subst} == Nodes(t) + CNodes(c) + {sentinel}
      requires if subst.color.Black? then BlackDeficit(t, c) else RedBlack(Plug(c, t))
      requires subst !in Nodes(t) && subst !in CNodes(c)
      modifies this, mem.Keys
      ensures Valid() && Entries() == Around(t, c) && mem.Keys == old(mem.Keys) - {subst}
    {
      if IsBlack(subst) {
        shape := DeleteFix(tmp, t, c);
        WholeTop(shape);
      } else {
        WholeTree(t, c, sentinel, root, mem);
        shape := Plug(c, t);
      }
      ForgetHolds(shape, Top, subst, sentinel, root, mem);
      mem := mem - {subst};
    }

    /** A node with at most one child is unlinked itself. */
    method UnlinkNode(node: Node, ghost t: Tree, ghost c: Ctx)
      requires Valid() && Holds(t, c, sentinel, root, mem) && Plug(c, t) == shape
      requires t.Branch? && node == t.cell.node && (t.left.Leaf? || t.right.Leaf?)
      modifies this, mem.Keys
      ensures Valid() && mem.Keys == old(mem.Keys) - {node}
      ensures var a, b := Before(c) + InOrder(t.left), InOrder(t.right) + After(c);
              old(Entries()) == a + [EntryOf(t.cell)] + b && Entries() == a + b
    {
      WholeTree(t, c, sentinel, root, mem);
      SpliceEntries(t, c);
      SpliceBalance(t, c);
      SortedConcat(Before(c) + InOrder(t.left), EntryOf(t.cell), InOrder(t.right) + After(c));
      SpliceNodes(t, c, sentinel, root, mem);
      var tmp := Splice(node, t, c);
      Unlink(node, tmp, OnlyChild(t), c);
    }

    method UnlinkSuccessor(node: Node, ghost t: Tree, ghost c: Ctx)
      returns (subst: Node, ghost f: Entry, ghost b: seq<Entry>)
      requires Valid() && Holds(t, c, sentinel, root, mem) && Plug(c, t) == shape
      requires t.Branch? && node == t.cell.node && t.left.Branch? && t.right.Branch?
      modifies this, mem.Keys
      ensures Valid() && f.node == subst && subst != node && subst in old(mem) && mem.Keys == old(mem.Keys) - {subst}
      ensures var a := Before(c) + InOrder(t.left);
              && old(Entries()) == a + [EntryOf(t.cell)] + ([f] + b)
              && Entries() == a + [Entry(node, f.key, f.data)] + b
    {
      WholeTree(t, c, sentinel, root, mem);
      var tmp;
      ghost var tm, s;
      subst, tmp, tm, s := SpliceSuccessor(node, t, c);
      SuccessorUnlinked(s, t, tm, c, sentinel, old(root), old(mem));
      f, b := EntryOf(tm.cell), InOrder(Plug(s, tm.right)) + After(c);
      Unlink(subst, tmp, tm.right, Hollow(s, t, tm, c));
    }

    method DeleteAt(node: Node, ghost t: Tree, ghost c: Ctx) returns (r: Node, ghost at: nat)
      requires Valid() && Holds(t, c, sentinel, root, mem) && Plug(c, t) == shape && t.Branch? && node == t.cell.node
      modifies this, mem.Keys
      ensures Valid() && r in old(mem) && mem.Keys == old(mem.Keys) - {r}
      ensures Deleted(node, r, at, old(Entries()), Entries()) && old(Entries())[at] == EntryOf(t.cell)
    {
      LinksAround(t, c, sentinel, root, mem);
      ghost var a := Before(c) + InOrder(t.left);
      at := |a|;
      if sentinel == node.left || sentinel == node.right {
        UnlinkNode(node, t, c);
        DeletedAt(a, EntryOf(t.cell), InOrder(t.right) + After(c));
        r := node;
      } else {
        ghost var f, b;
        r, f, b := UnlinkSuccessor(node, t, c);
        MovedEntries(a, EntryOf(t.cell), f, b);
      }
    }

    /**
     Delete the key and data of `node`. The node unlinked, and returned, is `node` itself or, when it has two
     children, its successor, whose entry moves into `node`. `at` is the position of `node` in key order.
     */
    method Delete(node: Node?) returns (r: Node?, ghost at: nat)
      requires Valid()
      requires node != null && root != sentinel ==> node in mem && node != sentinel
      modifies this, mem.Keys
      ensures Valid()
      ensures r == null <==> node == null || old(root) == sentinel
      ensures r == null ==> unchanged(this) && forall n: Node | n in old(mem) :: unchanged(n)
      ensures r != null ==>
                && r in old(mem) && mem.Keys == old(mem.Keys) - {r}
                && Deleted(node, r, at, old(Entries()), Entries())
                && old(Entries())[at] == Entry(node, old(node.key), old(node.data))
                && Contents() == old(Contents()) - {old(node.key)}
    {
      at := 0;
      if node == null || root == sentinel {
        return null, at;
      }
      ghost var (t, c) := Locate(shape, Top, node);
      WholeTree(t, c, sentinel, root, mem);
      LinksAround(t, c, sentinel, root, mem);
      r, at := DeleteAt(node, t, c);
    }
  }
}
