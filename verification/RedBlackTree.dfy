/**
 The red-black tree of pkg/redblacktree/rbd.go: nodes in the heap, linked both ways and
 rewritten in place. A method that works below the root takes, as ghost arguments, the
 subtree `t` it works on and the context `c` around it.
 */
module RedBlackTree {
  import opened RedBlackShape
  import opened RedBlackBalance
  import opened RedBlackMemory
  import opened Wrappers

  ghost function Above<V>(c: Context<V>): set<Node<V>> {
    if c.Top? then {} else {c.node}
  }

  function NodeColor<V>(n: Node?<V>): Color
    reads n
  {
    if n == null then Black else n.color
  }

  ghost function CellOf<V>(n: Node<V>): Cell<V>
    reads n
  {
    Cell(n.key, n.value, n.color, n.left, n.right, n.parent)
  }

  ghost function Snapshot<V>(nodes: set<Node<V>>): Memory<V>
    reads nodes
  {
    map n | n in nodes :: CellOf(n)
  }

  class Tree<V> {
    var root: Node?<V>
    var size: int
    ghost var shape: Shape<V>
    ghost var nodes: set<Node<V>>

    /** The nodes are linked as `shape` says, which need not be a balanced tree. */
    ghost predicate Linked()
      reads this`root, this`shape, this`nodes, nodes
    {
      nodes == Nodes(shape) && Laid(shape, root, Snapshot(nodes))
    }

    // ----- reading the heap at one place of the shape

    lemma Look(c: Context<V>, t: Shape<V>)
      requires Linked() && shape == Plug(c, t) && t.Branch?
      ensures
        && t.node in nodes
        && CellOf(t.node) == Cell(t.key, t.value, t.color, RootOf(t.left), RootOf(t.right), ParentOf(c))
      ensures c.Top? <==> root == t.node
      ensures !c.Top? ==>
        c.node in nodes && c.node != t.node && (c.node.left == t.node <==> c.InLeft?) &&
          (c.node.right == t.node <==> c.InRight?)
      ensures !c.Top? ==>
        CellOf(c.node) == Cell(c.key, c.value, c.color,
          if c.InLeft? then t.node else RootOf(c.left), if c.InLeft? then RootOf(c.right) else t.node, ParentOf(c.up))
    {
      Unfold(c, t, root, Snapshot(nodes));
      PlugNodes(c, t);
      DistinctPlug(c, t);
      assert Snapshot(nodes)[t.node] == CellOf(t.node);
      if !c.Top? {
        assert Snapshot(nodes)[c.node] == CellOf(c.node);
        RootInContext(c, t);
      }
    }

    lemma Colour(c: Context<V>, t: Shape<V>)
      requires Linked() && shape == Plug(c, t)
      ensures NodeColor(RootOf(t)) == ColorOf(t)
    {
      if t.Branch? {
        Look(c, t);
      }
    }

    lemma NoNodeTwice()
      requires Linked()
      ensures Distinct(shape)
    {
    }

    lemma RootLinked()
      requires Linked()
      ensures root == RootOf(shape)
    {
    }

    // ----- assignments to single fields

    method SetColor(node: Node<V>, color: Color)
      requires Linked() && node in nodes
      modifies this`shape, node`color
      ensures Linked() && shape == Paint(old(shape), node, color) && Entries(shape) == old(Entries(shape))
    {
      ghost var m := Snapshot(nodes);
      node.color := color;
      PaintRep(shape, null, node, color, m, Snapshot(nodes));
      shape := Paint(shape, node, color);
    }

    method ReplaceNode(node: Node<V>, child: Node?<V>, ghost c: Context<V>)
      requires node.parent == ParentOf(c) && (!c.Top? ==> c.node in nodes) && child in nodes + {null}
      requires c.InLeft? ==> c.node.left == node
      requires c.InRight? ==> c.node.right == node && c.node.left != node
      modifies this`root, nodes`left, nodes`right, nodes`parent
      ensures root == if c.Top? then child else old(root)
      ensures forall k :: k in nodes ==> k.left == (if c.InLeft? && k == c.node then child else old(k.left))
      ensures forall k :: k in nodes ==> k.right == (if c.InRight? && k == c.node then child else old(k.right))
      ensures forall k :: k in nodes ==> k.parent == (if k == child then ParentOf(c) else old(k.parent))
    {
      if node.parent == null {
        root := child;
      } else if node == node.parent.left {
        node.parent.left := child;
      } else {
        node.parent.right := child;
      }
      if child != null {
        child.parent := node.parent;
      }
    }

    // ----- rotations

    /** The links around a node that is about to be rotated with its child `y` and inner grandchild `b`. */
    ghost predicate Turnable(x: Node<V>, y: Node<V>, b: Node?<V>, c: Context<V>)
      reads this, x, Above(c)
    {
      && x in nodes && y in nodes && b in nodes + {null} && x != y && b != x && b != y
      && x.parent == ParentOf(c)
      && (!c.Top? ==> c.node in nodes && c.node != x && c.node != y && c.node != b)
      && (c.InLeft? ==> c.node.left == x) && (c.InRight? ==> c.node.right == x && c.node.left != x)
    }

    lemma TurnableLeft(c: Context<V>, t: Shape<V>)
      requires Linked() && shape == Plug(c, t) && t.Branch? && t.right.Branch?
      ensures Turnable(t.node, t.right.node, RootOf(t.right.left), c)
      ensures t.node.right == t.right.node && t.right.node.left == RootOf(t.right.left)
    {
      Look(c, t);
      Look(DownRight(c, t), t.right);
      PlugNodes(c, t);
      DistinctPlug(c, t);
    }

    lemma TurnableRight(c: Context<V>, t: Shape<V>)
      requires Linked() && shape == Plug(c, t) && t.Branch? && t.left.Branch?
      ensures Turnable(t.node, t.left.node, RootOf(t.left.right), c)
      ensures t.node.left == t.left.node && t.left.node.right == RootOf(t.left.right)
    {
      Look(c, t);
      Look(DownLeft(c, t), t.left);
      PlugNodes(c, t);
      DistinctPlug(c, t);
    }

    method RotateLeft(node: Node<V>, ghost c: Context<V>)
      requires node.right != null && Turnable(node, node.right, node.right.left, c)
      modifies this`root, nodes`left, nodes`right, nodes`parent
      ensures var y, b := old(node.right), old(node.right.left);
        && root == (if c.Top? then y else old(root))
        && (forall k :: k in nodes ==> k.left == if k == y then node else if c.InLeft? && k == c.node then y
             else old(k.left))
        && (forall k :: k in nodes ==> k.right == if k == node then b else if c.InRight? && k == c.node then y
             else old(k.right))
        && (forall k :: k in nodes ==>
              k.parent == if k == node then y else if k == y then ParentOf(c) else if k == b then node
                else old(k.parent))
    {
      var right := node.right;
      ReplaceNode(node, right, c);
      node.right := right.left;
      if right.left != null {
        right.left.parent := node;
      }
      right.left := node;
      node.parent := right;
    }

    method RotateRight(node: Node<V>, ghost c: Context<V>)
      requires node.left != null && Turnable(node, node.left, node.left.right, c)
      modifies this`root, nodes`left, nodes`right, nodes`parent
      ensures var y, b := old(node.left), old(node.left.right);
        && root == (if c.Top? then y else old(root))
        && (forall k :: k in nodes ==> k.left == if k == node then b else if c.InLeft? && k == c.node then y
             else old(k.left))
        && (forall k :: k in nodes ==> k.right == if k == y then node else if c.InRight? && k == c.node then y
             else old(k.right))
        && (forall k :: k in nodes ==>
              k.parent == if k == node then y else if k == y then ParentOf(c) else if k == b then node
                else old(k.parent))
    {
      var left := node.left;
      ReplaceNode(node, left, c);
      node.left := left.right;
      if left.right != null {
        left.right.parent := node;
      }
      left.right := node;
      node.parent := left;
    }

    twostate lemma LeftRotated(at: Spot<V>)
      requires old(Linked()) && old(shape) == Plug(at.c, at.t) && nodes == old(nodes)
      requires at.t.Branch? && at.t.right.Branch? && shape == Plug(at.c, RotatedLeft(at.t))
      requires var x, y, b := at.t.node, at.t.right.node, RootOf(at.t.right.left);
        && root == (if at.c.Top? then y else old(root))
        && (forall k :: k in nodes ==> k.left == if k == y then x else if at.c.InLeft? && k == at.c.node then y
             else old(k.left))
        && (forall k :: k in nodes ==> k.right == if k == x then b else if at.c.InRight? && k == at.c.node then y
             else old(k.right))
        && (forall k :: k in nodes ==>
              k.parent == if k == x then y else if k == y then ParentOf(at.c) else if k == b then x else old(k.parent))
      requires forall k :: k in nodes ==> k.key == old(k.key) && k.value == old(k.value) && k.color == old(k.color)
      ensures Linked()
    {
      var c, t := at.c, at.t;
      DistinctPlug(c, t);
      PlugNodes(c, t);
      RotateLeftLaid(c, t, old(root), root, old(Snapshot(nodes)), Snapshot(nodes));
    }

    twostate lemma RightRotated(at: Spot<V>)
      requires old(Linked()) && old(shape) == Plug(at.c, at.t) && nodes == old(nodes)
      requires at.t.Branch? && at.t.left.Branch? && shape == Plug(at.c, RotatedRight(at.t))
      requires var x, y, b := at.t.node, at.t.left.node, RootOf(at.t.left.right);
        && root == (if at.c.Top? then y else old(root))
        && (forall k :: k in nodes ==> k.left == if k == x then b else if at.c.InLeft? && k == at.c.node then y
             else old(k.left))
        && (forall k :: k in nodes ==> k.right == if k == y then x else if at.c.InRight? && k == at.c.node then y
             else old(k.right))
        && (forall k :: k in nodes ==>
              k.parent == if k == x then y else if k == y then ParentOf(at.c) else if k == b then x else old(k.parent))
      requires forall k :: k in nodes ==> k.key == old(k.key) && k.value == old(k.value) && k.color == old(k.color)
      ensures Linked()
    {
      var c, t := at.c, at.t;
      DistinctPlug(c, t);
      PlugNodes(c, t);
      RotateRightLaid(c, t, old(root), root, old(Snapshot(nodes)), Snapshot(nodes));
    }

    /** `RotateLeft`, and what it does to the shape. */
    method TurnLeft(node: Node<V>, ghost c: Context<V>, ghost t: Shape<V>)
      requires Linked() && shape == Plug(c, t)
      requires t.Branch? && t.right.Branch? && t.node == node
      modifies this`root, this`shape, nodes`left, nodes`right, nodes`parent
      ensures Linked() && shape == Plug(c, RotatedLeft(t)) && Entries(shape) == old(Entries(shape))
    {
      TurnableLeft(c, t);
      RotateLeft(node, c);
      shape := Plug(c, RotatedLeft(t));
      LeftRotated(Spot(c, t));
      TurnedLeftEntries(c, t);
    }

    method TurnRight(node: Node<V>, ghost c: Context<V>, ghost t: Shape<V>)
      requires Linked() && shape == Plug(c, t)
      requires t.Branch? && t.left.Branch? && t.node == node
      modifies this`root, this`shape, nodes`left, nodes`right, nodes`parent
      ensures Linked() && shape == Plug(c, RotatedRight(t)) && Entries(shape) == old(Entries(shape))
    {
      TurnableRight(c, t);
      RotateRight(node, c);
      shape := Plug(c, RotatedRight(t));
      RightRotated(Spot(c, t));
      TurnedRightEntries(c, t);
    }

    // ----- insertion fix-up

    static function Grandparent(n: Node?<V>): Node?<V>
      reads n, if n == null then null else n.parent
    {
      if n != null && n.parent != null then n.parent.parent else null
    }

    static function Sibling(n: Node?<V>): Node?<V>
      reads n, if n == null then null else n.parent
    {
      if n == null || n.parent == null then null
      else if n == n.parent.left then n.parent.right
      else n.parent.left
    }

    static function Uncle(n: Node?<V>): Node?<V>
      reads n, if n == null then null else n.parent, Grandparent(n)
    {
      if n == null || n.parent == null || n.parent.parent == null then null
      else Sibling(n.parent)
    }

    lemma LookSibling(c: Context<V>, t: Shape<V>)
      requires Linked() && shape == Plug(c, t) && t.Branch? && !c.Top?
      ensures Sibling(t.node) == RootOf(Beside(c)) && NodeColor(Sibling(t.node)) == ColorOf(Beside(c))
      ensures Beside(c).Branch? ==> Beside(c).node in nodes
    {
      Look(c, t);
      Colour(Across(c, t), Beside(c));
      if Beside(c).Branch? {
        Look(Across(c, t), Beside(c));
      }
    }

    lemma LookUncle(c: Context<V>, t: Shape<V>)
      requires Linked() && shape == Plug(c, t) && t.Branch? && !c.Top? && !c.up.Top?
      ensures t.node.parent == c.node && c.node.parent == c.up.node && {t.node, c.node, c.up.node} <= nodes
      ensures Uncle(t.node) == RootOf(Beside(c.up)) && (Beside(c.up).Branch? ==> Beside(c.up).node in nodes)
      ensures NodeColor(Uncle(t.node)) == ColorOf(Beside(c.up))
      ensures t.node == c.node.right <==> c.InRight?
      ensures t.node == c.node.left <==> c.InLeft?
      ensures c.node == c.up.node.left <==> c.up.InLeft?
      ensures c.node == c.up.node.right <==> c.up.InRight?
    {
      Look(c, t);
      Look(c.up, Close(c, t));
      LookSibling(c.up, Close(c, t));
    }

    method InsertCase1(node: Node<V>, ghost c: Context<V>, ghost t: Shape<V>, ghost h: nat)
      requires Linked() && shape == Plug(c, t) && t.Branch? && t.node == node
      requires t.color == Red && Balanced(t, h) && Fits(c, h, Black)
      modifies this`root, this`shape, nodes`left, nodes`right, nodes`parent, nodes`color
      ensures Linked() && RedBlack(shape) && Entries(shape) == old(Entries(shape))
      decreases Depth(c), 5
    {
      Look(c, t);
      if node.parent == null {
        SetColor(node, Black);
        PaintRoot(c, t, Black);
        assert Balanced(t.(color := Black), h + 1);
      } else {
        InsertCase2(node, c, t, h);
      }
    }

    method InsertCase2(node: Node<V>, ghost c: Context<V>, ghost t: Shape<V>, ghost h: nat)
      requires Linked() && shape == Plug(c, t) && t.Branch? && t.node == node && !c.Top?
      requires t.color == Red && Balanced(t, h) && Fits(c, h, Black)
      modifies this`root, this`shape, nodes`left, nodes`right, nodes`parent, nodes`color
      ensures Linked() && RedBlack(shape) && Entries(shape) == old(Entries(shape))
      decreases Depth(c), 4
    {
      Look(c, t);
      if NodeColor(node.parent) == Black {
        PlugRedBlack(c, t, h);
        return;
      }
      InsertCase3(node, c, t, h);
    }

    method PassRedUp(parent: Node<V>, uncle: Node<V>, grandparent: Node<V>, ghost c: Context<V>, ghost g: Shape<V>)
      requires Linked() && shape == Plug(c, g) && g.Branch? && g.left.Branch? && g.right.Branch?
      requires (parent == g.left.node && uncle == g.right.node) || (parent == g.right.node && uncle == g.left.node)
      requires grandparent == g.node && {parent, uncle, grandparent} <= nodes
      modifies this`shape, nodes`color
      ensures Linked() && shape == Plug(c, Recoloured(g)) && Entries(shape) == old(Entries(shape))
    {
      PaintFamily(c, g, parent, uncle);
      SetColor(parent, Black);
      SetColor(uncle, Black);
      SetColor(grandparent, Red);
    }

    method InsertCase3(node: Node<V>, ghost c: Context<V>, ghost t: Shape<V>, ghost h: nat)
      requires Linked() && shape == Plug(c, t) && t.Branch? && t.node == node && !c.Top?
      requires t.color == Red && Balanced(t, h) && Fits(c, h, Black) && c.color == Red
      modifies this`root, this`shape, nodes`left, nodes`right, nodes`parent, nodes`color
      ensures Linked() && RedBlack(shape) && Entries(shape) == old(Entries(shape))
      decreases Depth(c), 3
    {
      RedParentHasParent(c, h);
      LookUncle(c, t);
      var uncle := Uncle(node);
      if NodeColor(uncle) == Red {
        ghost var g := Close(c.up, Close(c, t));
        RecolouredBalanced(c, t, h);
        PassRedUp(node.parent, uncle, Grandparent(node), c.up.up, g);
        assert Depth(c) == 2 + Depth(c.up.up);
        InsertCase1(Grandparent(node), c.up.up, Recoloured(g), h + 1);
      } else {
        InsertCase4(node, c, t, h);
      }
    }

    method InsertCase4(node: Node<V>, ghost c: Context<V>, ghost t: Shape<V>, ghost h: nat)
      requires Linked() && shape == Plug(c, t) && t.Branch? && t.node == node && !c.Top? && !c.up.Top?
      requires t.color == Red && Balanced(t, h) && Fits(c, h, Black) && c.color == Red
      requires ColorOf(Beside(c.up)) == Black
      modifies this`root, this`shape, nodes`left, nodes`right, nodes`parent, nodes`color
      ensures Linked() && RedBlack(shape) && Entries(shape) == old(Entries(shape))
    {
      LookUncle(c, t);
      Insert4Fits(c, t, h);
      var grandparent := Grandparent(node);
      var parent := node.parent;
      if node == node.parent.right && node.parent == grandparent.left {
        TurnLeft(node.parent, c.up, Close(c, t));
        InsertCase5(parent, InLeft(t.node, t.color, t.key, t.value, t.right, c.up), RotatedLeft(Close(c, t)).left, h);
      } else if node == node.parent.left && node.parent == grandparent.right {
        TurnRight(node.parent, c.up, Close(c, t));
        InsertCase5(parent, InRight(t.node, t.color, t.left, t.key, t.value, c.up), RotatedRight(Close(c, t)).right, h);
      } else {
        InsertCase5(node, c, t, h);
      }
    }

    method InsertCase5(node: Node<V>, ghost c: Context<V>, ghost t: Shape<V>, ghost h: nat)
      requires Linked() && shape == Plug(c, t) && t.Branch? && t.node == node && !c.Top? && !c.up.Top?
      requires t.color == Red && Balanced(t, h) && Fits(c, h, Black) && c.color == Red
      requires ColorOf(Beside(c.up)) == Black && (c.InLeft? <==> c.up.InLeft?)
      modifies this`root, this`shape, nodes`left, nodes`right, nodes`parent, nodes`color
      ensures Linked() && RedBlack(shape) && Entries(shape) == old(Entries(shape))
    {
      LookUncle(c, t);
      Insert5Balanced(c, t, h);
      Insert5Paint(c, t);
      var grandparent := Grandparent(node);
      SetColor(node.parent, Black);
      SetColor(grandparent, Red);
      ghost var g := Close(c.up.(color := Red), Close(c.(color := Black), t));
      LookUncle(c.(color := Black, up := c.up.(color := Red)), t);
      if node == node.parent.left && node.parent == grandparent.left {
        TurnRight(grandparent, c.up.up, g);
      } else if node == node.parent.right && node.parent == grandparent.right {
        TurnLeft(grandparent, c.up.up, g);
      }
    }

    // ----- deletion fix-up: the hole at `node` is one black node short

    lemma LookNephews(c: Context<V>, t: Shape<V>)
      requires Linked() && shape == Plug(c, t) && t.Branch? && !c.Top? && Beside(c).Branch?
      ensures t.node.parent == c.node && c.node.color == c.color && c.node in nodes
      ensures c.node.left == t.node <==> c.InLeft?
      ensures c.node.right == t.node <==> c.InRight?
      ensures Sibling(t.node) == Beside(c).node && Beside(c).node in nodes && Beside(c).node.color == Beside(c).color
      ensures Beside(c).node.left == RootOf(Beside(c).left) && Beside(c).node.right == RootOf(Beside(c).right)
      ensures NodeColor(RootOf(Beside(c).left)) == ColorOf(Beside(c).left)
      ensures NodeColor(RootOf(Beside(c).right)) == ColorOf(Beside(c).right)
      ensures RootOf(Beside(c).left) in nodes + {null} && RootOf(Beside(c).right) in nodes + {null}
    {
      LookSibling(c, t);
      Look(c, t);
      var s, a := Beside(c), Across(c, t);
      Look(a, s);
      Colour(DownLeft(a, s), s.left);
      Colour(DownRight(a, s), s.right);
      PlugNodes(a, s);
    }

    method DeleteCase1(node: Node<V>, ghost c: Context<V>, ghost t: Shape<V>, ghost h: nat)
        returns (ghost c': Context<V>)
      requires Linked() && shape == Plug(c, t) && t.Branch? && t.node == node
      requires Fits(c, h + 1, Black)
      modifies this`root, this`shape, nodes`left, nodes`right, nodes`parent, nodes`color
      ensures Linked() && shape == Plug(c', t) && Settled(c, c', h)
      decreases Depth(c), 6
    {
      Look(c, t);
      if node.parent == null {
        return c;
      }
      c' := DeleteCase2(node, c, t, h);
    }

    method DeleteCase2(node: Node<V>, ghost c: Context<V>, ghost t: Shape<V>, ghost h: nat)
        returns (ghost c': Context<V>)
      requires Linked() && shape == Plug(c, t) && t.Branch? && t.node == node
      requires !c.Top? && Fits(c, h + 1, Black)
      modifies this`root, this`shape, nodes`left, nodes`right, nodes`parent, nodes`color
      ensures Linked() && shape == Plug(c', t) && Settled(c, c', h)
      decreases Depth(c), 5
    {
      ShortHasSibling(c, h);
      LookNephews(c, t);
      var sibling := Sibling(node);
      if NodeColor(sibling) == Red {
        Delete2Fits(c, h);
        RotateAbove(node, sibling, c, t);
        c' := DeleteCase3(node, Delete2(c), t, h);
      } else {
        c' := DeleteCase3(node, c, t, h);
      }
    }

    method RotateAbove(node: Node<V>, sibling: Node<V>, ghost c: Context<V>, ghost t: Shape<V>)
      requires Linked() && shape == Plug(c, t) && t.Branch? && t.node == node
      requires !c.Top? && Beside(c).Branch? && sibling == Beside(c).node
      modifies this`root, this`shape, nodes`left, nodes`right, nodes`parent, nodes`color
      ensures Linked() && shape == Plug(Delete2(c), t)
    {
      LookNephews(c, t);
      ghost var c1 := WithBeside(c.(color := Red), Beside(c).(color := Black));
      PaintParent(c, t, Red);
      SetColor(node.parent, Red);
      PaintBeside(c.(color := Red), t, Black);
      SetColor(sibling, Black);
      LoweredPlug(c1, t);
      if node == node.parent.left {
        TurnLeft(node.parent, c.up, Close(c1, t));
      } else {
        TurnRight(node.parent, c.up, Close(c1, t));
      }
    }

    /** Gives the node of a subtree another colour. */
    method PaintAt(node: Node<V>, color: Color, ghost c: Context<V>, ghost t: Shape<V>)
      requires Linked() && shape == Plug(c, t) && t.Branch? && t.node == node
      modifies this`shape, node`color
      ensures Linked() && shape == Plug(c, t.(color := color))
    {
      hide Linked;
      NoNodeTwice();
      Look(c, t);
      PaintRoot(c, t, color);
      SetColor(node, color);
    }

    /** Paints the sibling red, and so moves the shortage up to the parent. */
    method PaintSiblingRed(sibling: Node<V>, ghost c: Context<V>, ghost t: Shape<V>)
      requires Linked() && shape == Plug(c, t) && t.Branch? && !c.Top? && Beside(c).Branch? && sibling == Beside(c).node
      modifies this`shape, sibling`color
      ensures Linked() && shape == Plug(Delete3(c), t)
    {
      hide Linked;
      NoNodeTwice();
      LookNephews(c, t);
      PaintBeside(c, t, Red);
      SetColor(sibling, Red);
    }

    method DeleteCase3(node: Node<V>, ghost c: Context<V>, ghost t: Shape<V>, ghost h: nat)
        returns (ghost c': Context<V>)
      requires Linked() && shape == Plug(c, t) && t.Branch? && t.node == node
      requires !c.Top? && Fits(c, h + 1, Black) && ColorOf(Beside(c)) == Black
      modifies this`root, this`shape, nodes`left, nodes`right, nodes`parent, nodes`color
      ensures Linked() && shape == Plug(c', t) && Settled(c, c', h)
      decreases if c.color == Red then 0 else Depth(c), 4
    {
      hide Settled;
      hide Linked;
      ShortHasSibling(c, h);
      LookNephews(c, t);
      var sibling := Sibling(node);
      if NodeColor(node.parent) == Black && NodeColor(sibling) == Black &&
         NodeColor(sibling.left) == Black && NodeColor(sibling.right) == Black {
        PaintSiblingRed(sibling, c, t);
        Delete3Fits(c, h);
        ghost var d := Delete3(c);
        Look(d, t);
        ghost var up := DeleteCase1(node.parent, c.up, Close(d, t), h + 1);
        Delete3Settles(c, up, h);
        c' := d.(up := up);
      } else {
        c' := DeleteCase4(node, c, t, h);
      }
    }

    method DeleteCase4(node: Node<V>, ghost c: Context<V>, ghost t: Shape<V>, ghost h: nat)
        returns (ghost c': Context<V>)
      requires Linked() && shape == Plug(c, t) && t.Branch? && t.node == node
      requires !c.Top? && Fits(c, h + 1, Black) && ColorOf(Beside(c)) == Black
      requires Beside(c).Branch? && !(c.color == ColorOf(Near(c)) == ColorOf(Far(c)) == Black)
      modifies this`root, this`shape, nodes`left, nodes`right, nodes`parent, nodes`color
      ensures Linked() && shape == Plug(c', t) && Settled(c, c', h)
    {
      LookNephews(c, t);
      var sibling := Sibling(node);
      if NodeColor(node.parent) == Red && NodeColor(sibling) == Black &&
         NodeColor(sibling.left) == Black && NodeColor(sibling.right) == Black {
        PaintBeside(c, t, Red);
        SetColor(sibling, Red);
        PaintParent(WithBeside(c, Beside(c).(color := Red)), t, Black);
        SetColor(node.parent, Black);
        Delete4Settles(c, h);
        c' := Delete4(c);
      } else {
        c' := DeleteCase5(node, c, t, h);
      }
    }

    method DeleteCase5(node: Node<V>, ghost c: Context<V>, ghost t: Shape<V>, ghost h: nat)
        returns (ghost c': Context<V>)
      requires Linked() && shape == Plug(c, t) && t.Branch? && t.node == node
      requires !c.Top? && Fits(c, h + 1, Black) && ColorOf(Beside(c)) == Black
      requires Beside(c).Branch? && !(ColorOf(Near(c)) == ColorOf(Far(c)) == Black)
      modifies this`root, this`shape, nodes`left, nodes`right, nodes`parent, nodes`color
      ensures Linked() && shape == Plug(c', t) && Settled(c, c', h)
    {
      LookNephews(c, t);
      var sibling := Sibling(node);
      ghost var d := c;
      if node == node.parent.left && NodeColor(sibling) == Black &&
         NodeColor(sibling.left) == Red && NodeColor(sibling.right) == Black {
        RaiseLeftNephew(sibling, c, t);
        Delete5Fits(c, h);
        d := Delete5(c);
      } else if node == node.parent.right && NodeColor(sibling) == Black &&
                NodeColor(sibling.right) == Red && NodeColor(sibling.left) == Black {
        RaiseRightNephew(sibling, c, t);
        Delete5Fits(c, h);
        d := Delete5(c);
      }
      c' := DeleteCase6(node, d, t, h);
    }

    method RaiseLeftNephew(sibling: Node<V>, ghost c: Context<V>, ghost t: Shape<V>)
      requires Linked() && shape == Plug(c, t) && t.Branch?
      requires c.InLeft? && c.right.Branch? && c.right.left.Branch? && sibling == c.right.node
      modifies this`root, this`shape, nodes`left, nodes`right, nodes`parent, nodes`color
      ensures Linked() && shape == Plug(Delete5(c), t)
    {
      LookNephews(c, t);
      PaintBeside(c, t, Red);
      SetColor(sibling, Red);
      ghost var d := WithBeside(c, c.right.(color := Red));
      PaintLeftNephew(d, t, Black);
      SetColor(sibling.left, Black);
      ghost var e := WithBeside(d, d.right.(left := d.right.left.(color := Black)));
      TurnRight(sibling, Across(e, t), Beside(e));
      assert Plug(Across(e, t), RotatedRight(Beside(e))) == Plug(Delete5(c), t);
    }

    method RaiseRightNephew(sibling: Node<V>, ghost c: Context<V>, ghost t: Shape<V>)
      requires Linked() && shape == Plug(c, t) && t.Branch?
      requires c.InRight? && c.left.Branch? && c.left.right.Branch? && sibling == c.left.node
      modifies this`root, this`shape, nodes`left, nodes`right, nodes`parent, nodes`color
      ensures Linked() && shape == Plug(Delete5(c), t)
    {
      LookNephews(c, t);
      PaintBeside(c, t, Red);
      SetColor(sibling, Red);
      ghost var d := WithBeside(c, c.left.(color := Red));
      PaintRightNephew(d, t, Black);
      SetColor(sibling.right, Black);
      ghost var e := WithBeside(d, d.left.(right := d.left.right.(color := Black)));
      TurnLeft(sibling, Across(e, t), Beside(e));
      assert Plug(Across(e, t), RotatedLeft(Beside(e))) == Plug(Delete5(c), t);
    }

    method DeleteCase6(node: Node<V>, ghost c: Context<V>, ghost t: Shape<V>, ghost h: nat)
        returns (ghost c': Context<V>)
      requires Linked() && shape == Plug(c, t) && t.Branch? && t.node == node
      requires !c.Top? && Fits(c, h + 1, Black) && ColorOf(Beside(c)) == Black
      requires Beside(c).Branch? && ColorOf(Far(c)) == Red
      modifies this`root, this`shape, nodes`left, nodes`right, nodes`parent, nodes`color
      ensures Linked() && shape == Plug(c', t) && Settled(c, c', h)
    {
      LookNephews(c, t);
      Delete6Settles(c, h);
      c' := Delete6(c);
      var sibling := Sibling(node);
      PaintBeside(c, t, c.color);
      SetColor(sibling, NodeColor(node.parent));
      ghost var d := WithBeside(c, Beside(c).(color := c.color));
      PaintParent(d, t, Black);
      SetColor(node.parent, Black);
      LookNephews(d.(color := Black), t);
      RaiseSibling(node, sibling, d.(color := Black), t);
    }

    method RaiseSibling(node: Node<V>, sibling: Node<V>, ghost c: Context<V>, ghost t: Shape<V>)
      requires Linked() && shape == Plug(c, t) && t.Branch? && t.node == node && !c.Top?
      requires Beside(c).Branch? && sibling == Beside(c).node && ColorOf(Far(c)) == Red
      modifies this`root, this`shape, nodes`left, nodes`right, nodes`parent, nodes`color
      ensures Linked()
      ensures shape == Plug(Lowered(WithBeside(c,
        if c.InLeft? then Beside(c).(right := Far(c).(color := Black))
          else Beside(c).(left := Far(c).(color := Black)))), t)
    {
      LookNephews(c, t);
      if node == node.parent.left && NodeColor(sibling.right) == Red {
        PaintRightNephew(c, t, Black);
        SetColor(sibling.right, Black);
        ghost var d := WithBeside(c, Beside(c).(right := Far(c).(color := Black)));
        LoweredPlug(d, t);
        TurnLeft(node.parent, c.up, Close(d, t));
      } else if NodeColor(sibling.left) == Red {
        PaintLeftNephew(c, t, Black);
        SetColor(sibling.left, Black);
        ghost var d := WithBeside(c, Beside(c).(left := Far(c).(color := Black)));
        LoweredPlug(d, t);
        TurnRight(node.parent, c.up, Close(d, t));
      }
    }

    // ----- the operations

    /** A red-black tree of sorted entries, counted exactly. */
    ghost predicate Valid()
      reads this, nodes
    {
      Linked() && RedBlack(shape) && Sorted(Entries(shape)) && size == |Entries(shape)|
    }

    ghost function Model(): map<int, V>
      reads this`shape
    {
      MapOf(Entries(shape))
    }

    constructor ()
      ensures Valid() && fresh(nodes) && nodes == {} && Model() == map[]
    {
      root, size := null, 0;
      shape, nodes := Leaf, {};
      new;
      assert Balanced(shape, 0);
    }

    /** Finds the node of a key; `steps` is how many nodes it has looked at. */
    method Lookup(key: int) returns (node: Node?<V>, ghost c: Context<V>, ghost t: Shape<V>, ghost steps: nat)
      requires Valid()
      ensures steps <= Height(shape) && Pow2(steps / 2) <= size + 1
      ensures shape == Plug(c, t) && node == RootOf(t) && Brackets(c, key)
      ensures node != null ==> t.key == key && node in nodes
      ensures node != null <==> key in Model()
      ensures node != null ==> node.key == key && node.value == Model()[key]
    {
      node, c, t, steps := root, Top, shape, 0;
      while node != null
        invariant shape == Plug(c, t) && node == RootOf(t) && Brackets(c, key)
        invariant steps + Height(t) <= Height(shape)
        decreases t
      {
        steps := steps + 1;
        Look(c, t);
        if key == node.key {
          LookedUp(c, t, key);
          ShortWalk(shape, steps);
          return;
        }
        Descend(c, t, key);
        if key < node.key {
          node, c, t := node.left, DownLeft(c, t), t.left;
        } else {
          node, c, t := node.right, DownRight(c, t), t.right;
        }
      }
      LookedUp(c, t, key);
      ShortWalk(shape, steps);
    }

    twostate lemma EntryWritten(at: Spot<V>)
      requires
        && old(Linked()) && old(shape) == Plug(at.c, at.t) && at.t.Branch? && nodes == old(nodes) && root == old(root)
      requires shape == Plug(at.c, at.t.(key := at.t.node.key, value := at.t.node.value))
      requires forall k :: k in nodes ==>
        && k.left == old(k.left) && k.right == old(k.right) && k.parent == old(k.parent) && k.color == old(k.color)
        && (k != at.t.node ==> k.key == old(k.key) && k.value == old(k.value))
      ensures Linked()
    {
      var c, t, key, value := at.c, at.t, at.t.node.key, at.t.node.value;
      PlugNodes(c, t);
      PlugNodes(c, t.(key := key, value := value));
      var m, m' := old(Snapshot(nodes)), Snapshot(nodes);
      assert m' == m[t.node := m[t.node].(key := key, value := value)];
      WriteLaid(c, t, key, value, root, m, m');
    }

    method SetEntry(node: Node<V>, key: int, value: V, ghost c: Context<V>, ghost t: Shape<V>)
      requires Linked() && shape == Plug(c, t) && t.Branch? && node == t.node
      modifies this`shape, node`key, node`value
      ensures Linked() && shape == Plug(c, t.(key := key, value := value))
    {
      Look(c, t);
      node.key := key;
      node.value := value;
      shape := Plug(c, t.(key := key, value := value));
      EntryWritten(Spot(c, t));
    }

    /** A new red leaf has just been linked in below `c`. */
    twostate lemma Attached(new at: Spot<V>)
      requires old(Linked()) && old(shape) == Plug(at.c, Leaf) && at.t.Branch?
      requires var n := at.t.node;
        && at.t == Branch(n, Red, Leaf, n.key, n.value, Leaf) && shape == Plug(at.c, at.t)
        && n !in old(nodes) && nodes == old(nodes) + {n}
        && CellOf(n) == Cell(n.key, n.value, Red, null, null, ParentOf(at.c))
        && root == (if at.c.Top? then n else old(root))
      requires forall k :: k in old(nodes) ==>
        && k.left == (if at.c.InLeft? && k == at.c.node then at.t.node else old(k.left))
        && k.right == (if at.c.InRight? && k == at.c.node then at.t.node else old(k.right))
        && k.parent == old(k.parent) && k.key == old(k.key) && k.value == old(k.value) && k.color == old(k.color)
      ensures Linked()
    {
      var c, n := at.c, at.t.node;
      PlugNodes(c, Leaf);
      PlugNodes(c, Branch(n, Red, Leaf, n.key, n.value, Leaf));
      AttachLaid(c, n, n.key, n.value, old(root), root, old(Snapshot(nodes)), Snapshot(nodes));
    }

    method AttachRoot(key: int, value: V) returns (inserted: Node<V>)
      requires Linked() && shape == Leaf
      modifies this`root, this`shape, this`nodes
      ensures Linked() && shape == Branch(inserted, Red, Leaf, key, value, Leaf)
      ensures fresh(inserted) && nodes == old(nodes) + {inserted}
    {
      inserted := new Node(key, value, Red, null);
      root := inserted;
      shape, nodes := Branch(inserted, Red, Leaf, key, value, Leaf), nodes + {inserted};
      Attached(Spot(Top, shape));
    }

    method AttachLeft(node: Node<V>, key: int, value: V, ghost c: Context<V>, ghost t: Shape<V>)
        returns (inserted: Node<V>)
      requires Linked() && shape == Plug(c, t) && t.Branch? && t.node == node && t.left.Leaf?
      modifies this`shape, this`nodes, node`left
      ensures Linked() && shape == Plug(DownLeft(c, t), Branch(inserted, Red, Leaf, key, value, Leaf))
      ensures fresh(inserted) && nodes == old(nodes) + {inserted}
    {
      Look(c, t);
      inserted := new Node(key, value, Red, null);
      node.left := inserted;
      inserted.parent := node;
      shape, nodes := Plug(DownLeft(c, t), Branch(inserted, Red, Leaf, key, value, Leaf)), nodes + {inserted};
      Attached(Spot(DownLeft(c, t), Branch(inserted, Red, Leaf, key, value, Leaf)));
    }

    method AttachRight(node: Node<V>, key: int, value: V, ghost c: Context<V>, ghost t: Shape<V>)
        returns (inserted: Node<V>)
      requires Linked() && shape == Plug(c, t) && t.Branch? && t.node == node && t.right.Leaf?
      modifies this`shape, this`nodes, node`right
      ensures Linked() && shape == Plug(DownRight(c, t), Branch(inserted, Red, Leaf, key, value, Leaf))
      ensures fresh(inserted) && nodes == old(nodes) + {inserted}
    {
      Look(c, t);
      inserted := new Node(key, value, Red, null);
      node.right := inserted;
      inserted.parent := node;
      shape, nodes := Plug(DownRight(c, t), Branch(inserted, Red, Leaf, key, value, Leaf)), nodes + {inserted};
      Attached(Spot(DownRight(c, t), Branch(inserted, Red, Leaf, key, value, Leaf)));
    }

    /** A new value for a key that is there. */
    method Overwrite(node: Node<V>, key: int, value: V, ghost c: Context<V>, ghost t: Shape<V>)
      requires Valid() && shape == Plug(c, t) && t.Branch? && node == t.node && key == t.key
      modifies this`shape, node`key, node`value
      ensures Valid() && Model() == old(Model())[key := value]
    {
      hide Linked;
      OverwrittenRedBlack(c, t, key, value);
      OverwrittenEntries(c, t, value);
      SetEntry(node, key, value, c, t);
    }

    /**
     Descends to the node of `key`, or to the one below which it belongs; `steps` is how many nodes it
     has looked at.
     */
    method Approach(key: int, start: Node<V>)
        returns (node: Node<V>, ghost c: Context<V>, ghost t: Shape<V>, ghost steps: nat)
      requires Valid() && start == root
      ensures shape == Plug(c, t) && t.Branch? && node == t.node && node in nodes && Brackets(c, key)
      ensures node.key == t.key && node.left == RootOf(t.left) && node.right == RootOf(t.right)
      ensures key != t.key ==> if key < t.key then t.left.Leaf? else t.right.Leaf?
      ensures steps <= Height(shape) && Pow2(steps / 2) <= size + 1
    {
      RootLinked();
      hide Linked;
      node, c, t, steps := start, Top, shape, 1;
      Look(c, t);
      while key != node.key && (if key < node.key then node.left else node.right) != null
        invariant shape == Plug(c, t) && t.Branch? && node == t.node && node in nodes && Brackets(c, key)
        invariant node.key == t.key && node.left == RootOf(t.left) && node.right == RootOf(t.right)
        invariant steps - 1 + Height(t) <= Height(shape)
        decreases t
      {
        Descend(c, t, key);
        if key < node.key {
          node, c, t := node.left, DownLeft(c, t), t.left;
        } else {
          node, c, t := node.right, DownRight(c, t), t.right;
        }
        steps := steps + 1;
        Look(c, t);
      }
      ShortWalk(shape, steps);
    }

    /** Overwrites the entry of `key`, or attaches a red leaf where it belongs, not yet balanced. */
    method Place(key: int, value: V) returns (inserted: Node?<V>, ghost c: Context<V>, ghost steps: nat)
      requires Valid()
      modifies this`root, this`shape, this`nodes, nodes`key, nodes`value, nodes`left, nodes`right
      ensures Linked() && fresh(nodes - old(nodes))
      ensures inserted == null ==> Valid() && nodes == old(nodes) && Model() == old(Model())[key := value]
      ensures inserted != null ==>
        && shape == Plug(c, Branch(inserted, Red, Leaf, key, value, Leaf))
        && old(shape) == Plug(c, Leaf) && Brackets(c, key)
      ensures steps <= old(Height(shape)) && Pow2(steps / 2) <= old(size) + 1
    {
      if root == null {
        inserted := AttachRoot(key, value);
        return inserted, Top, 0;
      }
      var node;
      ghost var t;
      node, c, t, steps := Approach(key, root);
      hide Height;
      hide Pow2;
      if key == node.key {
        Overwrite(node, key, value, c, t);
        return null, c, steps;
      }
      Descend(c, t, key);
      if key < node.key {
        inserted := AttachLeft(node, key, value, c, t);
        c := DownLeft(c, t);
      } else {
        inserted := AttachRight(node, key, value, c, t);
        c := DownRight(c, t);
      }
    }

    method Put(key: int, value: V)
      requires Valid()
      modifies this, nodes
      ensures Valid() && fresh(nodes - old(nodes))
      ensures Model() == old(Model())[key := value]
    {
      var inserted, c, _ := Place(key, value);
      if inserted == null {
        return;
      }
      ghost var es := Entries(shape);
      assert Sorted(es) && |es| == size + 1 && MapOf(es) == old(Model())[key := value] by {
        AttachedEntries(c, inserted, key, value);
      }
      AttachedRedBlack(c);
      InsertCase1(inserted, c, Branch(inserted, Red, Leaf, key, value, Leaf), 0);
      assert Entries(shape) == es;
      size := size + 1;
    }

    method MaximumNode(start: Node<V>, ghost c: Context<V>, ghost t: Shape<V>) returns (node: Node<V>)
      requires Linked() && shape == Plug(c, t) && t.Branch? && start == t.node
      ensures node == MaxSub(t).node && node.key == MaxSub(t).key && node.value == MaxSub(t).value
    {
      node := start;
      ghost var d, u := c, t;
      Look(d, u);
      while node.right != null
        invariant shape == Plug(d, u) && u.Branch? && node == u.node && MaxSub(u) == MaxSub(t)
        invariant CellOf(node) == Cell(u.key, u.value, u.color, RootOf(u.left), RootOf(u.right), ParentOf(d))
        decreases u
      {
        node := node.right;
        d, u := DownRight(d, u), u.right;
        Look(d, u);
      }
    }

    /** Only `child` has been linked in where `node` was. */
    twostate lemma Detached(at: Spot<V>)
      requires old(Linked()) && old(shape) == Plug(at.c, at.t) && at.t.Branch? && (at.t.left.Leaf? || at.t.right.Leaf?)
      requires nodes == old(nodes) - {at.t.node} && shape == Plug(at.c, LoneSub(at.t))
      requires root == if at.c.Top? then RootOf(LoneSub(at.t)) else old(root)
      requires forall k :: k in nodes ==>
        && k.left == (if at.c.InLeft? && k == at.c.node then RootOf(LoneSub(at.t)) else old(k.left))
        && k.right == (if at.c.InRight? && k == at.c.node then RootOf(LoneSub(at.t)) else old(k.right))
        && k.parent == (if k == RootOf(LoneSub(at.t)) then ParentOf(at.c) else old(k.parent))
        && k.key == old(k.key) && k.value == old(k.value) && k.color == old(k.color)
      ensures Linked()
    {
      var c, t, x := at.c, at.t, LoneSub(at.t);
      assert CtxNodes(c) <= nodes && Nodes(x) <= nodes && CtxNodes(c) !! Nodes(x) by {
        PlugNodes(c, t);
        DistinctPlug(c, t);
      }
      DetachLaid(c, t, x, old(root), root, old(Snapshot(nodes)), Snapshot(nodes));
    }

    lemma LookChild(c: Context<V>, t: Shape<V>, x: Shape<V>)
      requires Linked() && shape == Plug(c, t) && t.Branch? && (x == t.left || x == t.right)
      ensures RootOf(x) in nodes + {null} && RootOf(x) != t.node && (x.Branch? ==> RootOf(x) != ParentOf(c))
    {
      PlugNodes(c, t);
      DistinctPlug(c, t);
    }

    method Detach(node: Node<V>, child: Node?<V>, ghost c: Context<V>, ghost t: Shape<V>, ghost x: Shape<V>)
      requires Linked() && shape == Plug(c, t) && t.Branch? && t.node == node && child == RootOf(x)
      requires (t.left.Leaf? && x == t.right) || (t.right.Leaf? && x == t.left)
      modifies this`root, this`shape, this`nodes, nodes`left, nodes`right, nodes`parent
      ensures Linked() && shape == Plug(c, x) && nodes == old(nodes) - {node}
      ensures node.parent == ParentOf(c)
    {
      Look(c, t);
      LookChild(c, t, x);
      ReplaceNode(node, child, c);
      shape, nodes := Plug(c, x), nodes - {node};
      Detached(Spot(c, t));
    }

    /** Before a black node goes, the tree is repaired as if the node had taken its child's colour. */
    method Lighten(node: Node<V>, child: Node?<V>, ghost c: Context<V>, ghost t: Shape<V>, ghost x: Shape<V>)
        returns (ghost c': Context<V>)
      requires Linked() && RedBlack(shape) && shape == Plug(c, t) && t.Branch? && t.node == node
      requires (t.left.Leaf? && x == t.right) || (t.right.Leaf? && x == t.left)
      requires NodeColor(child) == ColorOf(x) && t.color == Black
      modifies this`root, this`shape, nodes`left, nodes`right, nodes`parent, nodes`color
      ensures Linked() && shape == Plug(c', t.(color := ColorOf(x))) && Settled(c, c', 0)
    {
      hide Settled;
      hide Linked;
      hide RedBlack;
      Look(c, t);
      LoneChild(c, t, x);
      PaintAt(node, NodeColor(child), c, t);
      c' := DeleteCase1(node, c, t.(color := ColorOf(x)), 0);
    }

    /** Takes out a node with at most one child. */
    method Unlink(node: Node<V>, ghost c: Context<V>, ghost t: Shape<V>)
      requires Linked() && RedBlack(shape) && shape == Plug(c, t) && t.Branch? && t.node == node
      requires t.left.Leaf? || t.right.Leaf?
      modifies this`root, this`shape, this`nodes, nodes`left, nodes`right, nodes`parent, nodes`color
      ensures Linked() && RedBlack(shape) && nodes == old(nodes) - {node}
      ensures Entries(shape) == Rest(c, t)
    {
      Look(c, t);
      Colour(DownLeft(c, t), t.left);
      Colour(DownRight(c, t), t.right);
      var child := if node.right == null then node.left else node.right;
      ghost var x := if t.right.Leaf? then t.left else t.right;
      LoneChild(c, t, x);
      ghost var c', t' := c, t;
      if node.color == Black {
        c' := Lighten(node, child, c, t, x);
        t' := t.(color := ColorOf(x));
      }
      Detach(node, child, c', t', x);
      RestOfLone(c, c', t, x);
      FinishUnlink(node, child, c', x);
    }

    method FinishUnlink(node: Node<V>, child: Node?<V>, ghost c: Context<V>, ghost x: Shape<V>)
      requires Linked() && shape == Plug(c, x) && child == RootOf(x) && Balanced(x, 0)
      requires node.parent == ParentOf(c) && (c.Top? || Fits(c, 0, Red) || (Fits(c, 0, Black) && x.Leaf?))
      modifies this`shape, nodes`color
      ensures Linked() && RedBlack(shape) && Entries(shape) == old(Entries(shape))
    {
      if node.parent == null && child != null {
        Look(c, x);
        PaintRoot(c, x, Black);
        SetColor(child, Black);
        assert Balanced(shape, 1);
      } else if c.Top? {
        assert Balanced(shape, 0);
      } else {
        if Fits(c, 0, Red) { FitsBlack(c, 0); }
        PlugRedBlack(c, x, 0);
      }
    }

    /** A node with two children takes over its predecessor's entry, and the predecessor goes instead. */
    method TakePredecessor(node: Node<V>, ghost c: Context<V>, ghost t: Shape<V>)
        returns (pred: Node<V>, ghost c': Context<V>, ghost t': Shape<V>)
      requires Linked() && RedBlack(shape) && shape == Plug(c, t) && t.Branch? && t.node == node
      requires node.left != null && t.left.Branch?
      modifies this`shape, node`key, node`value
      ensures Linked() && RedBlack(shape) && shape == Plug(c', t') && t'.Branch? && t'.node == pred && t'.right.Leaf?
      ensures Rest(c', t') == Rest(c, t)
    {
      Look(c, t);
      ghost var p := MaxSub(t.left);
      ghost var u := t.(key := p.key, value := p.value);
      pred := MaximumNode(node.left, DownLeft(c, t), t.left);
      OverwrittenRedBlack(c, t, p.key, p.value);
      SetEntry(node, pred.key, pred.value, c, t);
      RestOfPredecessor(c, t);
      c', t' := MaxCtx(DownLeft(c, u), t.left), p;
    }

    method RemoveNode(node: Node<V>, ghost c: Context<V>, ghost t: Shape<V>)
      requires Linked() && RedBlack(shape) && shape == Plug(c, t) && t.Branch? && t.node == node
      modifies this`root, this`shape, this`nodes, nodes
      ensures Linked() && RedBlack(shape) && nodes <= old(nodes) && Entries(shape) == Rest(c, t)
    {
      Look(c, t);
      if node.left != null && node.right != null {
        var pred, d, p := TakePredecessor(node, c, t);
        Unlink(pred, d, p);
      } else {
        Unlink(node, c, t);
      }
    }

    method Remove(key: int)
      requires Valid()
      modifies this, nodes
      ensures Valid() && nodes <= old(nodes)
      ensures Model() == old(Model()) - {key}
    {
      var node, c, t, _ := Lookup(key);
      if node == null {
        return;
      }
      RestRemoves(c, t);
      RemoveNode(node, c, t);
      size := size - 1;
    }

    // ----- queries

    method Get(key: int) returns (value: Option<V>)
      requires Valid()
      ensures value == if key in Model() then Some(Model()[key]) else None
    {
      var node, c, t, _ := Lookup(key);
      if node != null {
        return Some(node.value);
      }
      return None;
    }

    method Empty() returns (empty: bool)
      requires Valid()
      ensures empty <==> Model() == map[]
    {
      MapOfSize(Entries(shape));
      return size == 0;
    }

    /** The left-most node, which holds the first entry. */
    method Left() returns (node: Node?<V>, ghost c: Context<V>, ghost t: Shape<V>, ghost steps: nat)
      requires Valid()
      ensures steps <= Height(shape) && Pow2(steps / 2) <= size + 1
      ensures shape == Plug(c, t) && node == RootOf(t) && (node == null <==> Entries(shape) == [])
      ensures node != null ==> t.left.Leaf? && Before(c) == [] && node in nodes
      ensures node != null ==> Entry(node.key, node.value) == Entries(shape)[0]
      ensures node == null <==> Model() == map[]
      ensures node != null ==> node.key in Model() && Model()[node.key] == node.value && forall k :: k in Model() ==>
        node.key <= k
    {
      RootLinked();
      hide Linked;
      hide RedBlack;
      SortedEnds(Entries(shape));
      node, c, t, steps := root, Top, shape, 0;
      if node == null {
        return;
      }
      Look(c, t);
      steps := 1;
      while node.left != null
        invariant shape == Plug(c, t) && t.Branch? && node == t.node && Before(c) == []
        invariant
          && node in nodes
          && CellOf(node) == Cell(t.key, t.value, t.color, RootOf(t.left), RootOf(t.right), ParentOf(c))
        invariant steps - 1 + Height(t) <= Height(shape)
        decreases t
      {
        node, c, t, steps := node.left, DownLeft(c, t), t.left, steps + 1;
        Look(c, t);
      }
      PlugEntries(c, t);
      ShortWalk(shape, steps);
    }

    /** The right-most node, which holds the last entry. */
    method Right() returns (node: Node?<V>, ghost c: Context<V>, ghost t: Shape<V>, ghost steps: nat)
      requires Valid()
      ensures steps <= Height(shape) && Pow2(steps / 2) <= size + 1
      ensures shape == Plug(c, t) && node == RootOf(t) && (node == null <==> Entries(shape) == [])
      ensures node != null ==> t.right.Leaf? && After(c) == [] && node in nodes
      ensures node != null ==> Entry(node.key, node.value) == Entries(shape)[|Entries(shape)| - 1]
      ensures node == null <==> Model() == map[]
      ensures node != null ==> node.key in Model() && Model()[node.key] == node.value && forall k :: k in Model() ==>
        k <= node.key
    {
      RootLinked();
      hide Linked;
      hide RedBlack;
      SortedEnds(Entries(shape));
      node, c, t, steps := root, Top, shape, 0;
      if node == null {
        return;
      }
      Look(c, t);
      steps := 1;
      while node.right != null
        invariant shape == Plug(c, t) && t.Branch? && node == t.node && After(c) == []
        invariant
          && node in nodes
          && CellOf(node) == Cell(t.key, t.value, t.color, RootOf(t.left), RootOf(t.right), ParentOf(c))
        invariant steps - 1 + Height(t) <= Height(shape)
        decreases t
      {
        node, c, t, steps := node.right, DownRight(c, t), t.right, steps + 1;
        Look(c, t);
      }
      PlugEntries(c, t);
      ShortWalk(shape, steps);
    }
  }
}
