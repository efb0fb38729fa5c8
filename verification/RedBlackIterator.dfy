/**
 The cursor of pkg/redblacktree/iterator.go. Its position is an index into the tree's
 entries: -1 before the first one, the number of entries after the last one.
 */
module RedBlackIterator {
  import opened RedBlackBalance
  import opened RedBlackShape
  import opened RedBlackTree

  datatype Position = Begin | Between | End

  class Iterator<V> {
    const tree: Tree<V>
    var node: Node?<V>
    var position: Position
    ghost var c: Context<V>
    ghost var t: Shape<V>

    ghost predicate Valid()
      reads this`node, this`position, this`c, this`t, tree, tree.nodes
    {
      tree.Valid() &&
      if position == Between then t.Branch? && node == t.node && tree.shape == Plug(c, t) else node == null
    }

    /** Which entry the cursor stands at. */
    ghost function Index(): int
      reads this`position, this`c, this`t, tree`shape
    {
      match position
      case Begin => -1
      case End => |Entries(tree.shape)|
      case Between => |Before(c)| + if t.Leaf? then 0 else |Entries(t.left)|
    }

    constructor (tree: Tree<V>)
      requires tree.Valid()
      ensures Valid() && this.tree == tree && Index() == -1
    {
      this.tree := tree;
      node, position := null, Begin;
      c, t := Top, Leaf;
    }

    method ToBegin()
      requires Valid()
      modifies this
      ensures Valid() && Index() == -1
    {
      node, position := null, Begin;
    }

    method ToEnd()
      requires Valid()
      modifies this
      ensures Valid() && Index() == |Entries(tree.shape)|
    {
      node, position := null, End;
    }

    /** The entry at the cursor. */
    lemma AtIndex()
      requires Valid() && position == Between
      ensures 0 <= Index() < |Entries(tree.shape)|
      ensures Entry(node.key, node.value) == Entries(tree.shape)[Index()]
    {
      tree.Look(c, t);
      PlugAround(c, t);
    }

    /** Puts the cursor at a node. */
    method Stop(n: Node<V>, ghost d: Context<V>, ghost u: Shape<V>)
      requires Valid() && position == Between && u.Branch? && n == u.node && tree.shape == Plug(d, u)
      modifies this`node, this`c, this`t
      ensures Valid() && 0 <= Index() < |Entries(tree.shape)|
      ensures Index() == |Before(d)| + |Entries(u.left)|
    {
      node, c, t := n, d, u;
      AtIndex();
    }

    /** The next entry is the left-most one of the right subtree. */
    method FirstOnRight() returns (more: bool)
      requires Valid() && position == Between && t.right.Branch?
      modifies this`node, this`c, this`t
      ensures Valid() && more && Index() == old(Index()) + 1 && Index() < |Entries(tree.shape)|
    {
      hide Tree.Linked;
      hide RedBlack;
      tree.Look(c, t);
      var n := node.right;
      ghost var d, u := DownRight(c, t), t.right;
      tree.Look(d, u);
      while n.left != null
        invariant tree.shape == Plug(d, u) && u.Branch? && n == u.node && n.left == RootOf(u.left)
        invariant Before(d) == Before(DownRight(c, t))
        decreases u
        modifies {}
      {
        n, d, u := n.left, DownLeft(d, u), u.left;
        tree.Look(d, u);
      }
      Stop(n, d, u);
      return true;
    }

    /** The next entry is the nearest ancestor that has the cursor on its left, if any. */
    method FirstAbove() returns (more: bool)
      requires Valid() && position == Between && t.right.Leaf?
      modifies this
      ensures Valid() && more == (Index() < |Entries(tree.shape)|) && more == (position == Between)
      ensures Index() == old(Index()) + 1
    {
      hide Tree.Linked;
      hide RedBlack;
      tree.Look(c, t);
      var n := node;
      ghost var d, u := c, t;
      more := false;
      while !more && n.parent != null
        invariant tree.shape == Plug(d, u) && u.Branch? && n == u.node && n.parent == ParentOf(d)
        invariant !more ==> |Before(d)| + |Entries(u)| == |Before(c)| + |Entries(t)|
        invariant more ==> |Before(d)| + |Entries(u.left)| == |Before(c)| + |Entries(t)|
        decreases d
        modifies {}
      {
        var m := n;
        tree.Look(d, u);
        n, d, u := n.parent, d.up, Close(d, u);
        tree.Look(d, u);
        more := m == n.left;
      }
      if more {
        Stop(n, d, u);
      } else {
        PlugEntries(d, u);
        node, position := null, End;
      }
    }

    method LastOnLeft() returns (more: bool)
      requires Valid() && position == Between && t.left.Branch?
      modifies this`node, this`c, this`t
      ensures Valid() && more && Index() == old(Index()) - 1 && 0 <= Index()
    {
      hide Tree.Linked;
      hide RedBlack;
      tree.Look(c, t);
      var n := node.left;
      ghost var d, u := DownLeft(c, t), t.left;
      tree.Look(d, u);
      while n.right != null
        invariant tree.shape == Plug(d, u) && u.Branch? && n == u.node && n.right == RootOf(u.right)
        invariant |Before(d)| + |Entries(u)| == |Before(c)| + |Entries(t.left)|
        decreases u
        modifies {}
      {
        n, d, u := n.right, DownRight(d, u), u.right;
        tree.Look(d, u);
      }
      Stop(n, d, u);
      return true;
    }

    method LastAbove() returns (more: bool)
      requires Valid() && position == Between && t.left.Leaf?
      modifies this
      ensures Valid() && more == (0 <= Index()) && more == (position == Between)
      ensures Index() == old(Index()) - 1
    {
      hide Tree.Linked;
      hide RedBlack;
      tree.Look(c, t);
      var n := node;
      ghost var d, u := c, t;
      more := false;
      while !more && n.parent != null
        invariant tree.shape == Plug(d, u) && u.Branch? && n == u.node && n.parent == ParentOf(d)
        invariant !more ==> |Before(d)| == |Before(c)|
        invariant more ==> |Before(d)| + |Entries(u.left)| == |Before(c)| - 1
        decreases d
        modifies {}
      {
        var m := n;
        tree.Look(d, u);
        n, d, u := n.parent, d.up, Close(d, u);
        tree.Look(d, u);
        more := m == n.right;
      }
      if more {
        Stop(n, d, u);
      } else {
        node, position := null, Begin;
      }
    }

    /** One step forward, stopping at the end. */
    method Next() returns (more: bool)
      requires Valid()
      modifies this
      ensures Valid() && more == (Index() < |Entries(tree.shape)|) && more == (position == Between)
      ensures Index() == if old(Index()) < |Entries(tree.shape)| then old(Index()) + 1 else old(Index())
    {
      hide Tree.Linked;
      hide RedBlack;
      hide Plug;
      hide Entries;
      if position == End {
        node := null;
        return false;
      }
      if position == Begin {
        ghost var steps;
        node, c, t, steps := tree.Left();
        position := if node == null then End else Between;
        if node != null { AtIndex(); }
        return node != null;
      }
      tree.Look(c, t);
      if node.right != null {
        more := FirstOnRight();
        return;
      }
      more := FirstAbove();
    }

    /** One step back, stopping before the first entry. */
    method Prev() returns (more: bool)
      requires Valid()
      modifies this
      ensures Valid() && more == (0 <= Index()) && more == (position == Between)
      ensures Index() == if 0 <= old(Index()) then old(Index()) - 1 else old(Index())
    {
      hide Tree.Linked;
      hide RedBlack;
      hide Plug;
      hide Entries;
      if position == Begin {
        node := null;
        return false;
      }
      if position == End {
        ghost var steps;
        node, c, t, steps := tree.Right();
        position := if node == null then Begin else Between;
        if node != null {
          PlugAround(c, t);
          AtIndex();
        }
        return node != null;
      }
      tree.Look(c, t);
      if node.left != null {
        more := LastOnLeft();
        return;
      }
      more := LastAbove();
    }

    function Key(): (key: int)
      requires Valid() && position == Between
      reads this, tree, tree.nodes, node
      ensures 0 <= Index() < |Entries(tree.shape)| && key == Entries(tree.shape)[Index()].key
    {
      AtIndex();
      node.key
    }

    function Value(): (value: V)
      requires Valid() && position == Between
      reads this, tree, tree.nodes, node
      ensures 0 <= Index() < |Entries(tree.shape)| && value == Entries(tree.shape)[Index()].value
    {
      AtIndex();
      node.value
    }
  }

  /** Reads the key at the cursor and moves on. */
  method TakeKey<V>(it: Iterator<V>) returns (key: int, more: bool)
    requires it.Valid() && it.position == Between
    modifies it
    ensures 0 <= old(it.Index()) < |Entries(it.tree.shape)| && key == Entries(it.tree.shape)[old(it.Index())].key
    ensures it.Valid() && it.Index() == old(it.Index()) + 1
    ensures more == (it.Index() < |Entries(it.tree.shape)|) && more == (it.position == Between)
  {
    key := it.Key();
    more := it.Next();
  }

  lemma SizeOf<V>(tree: Tree<V>)
    requires tree.Valid()
    ensures tree.size == |Entries(tree.shape)|
  {
  }

  /** All keys in order; the array of `size` cells is filled exactly. */
  method Keys<V>(tree: Tree<V>) returns (keys: array<int>)
    requires tree.Valid()
    ensures keys.Length == |Entries(tree.shape)|
    ensures forall i :: 0 <= i < keys.Length ==> keys[i] == Entries(tree.shape)[i].key
  {
    hide Tree.Valid;
    hide Iterator.Valid;
    hide Iterator.Index;
    hide Entries;
    ghost var es := Entries(tree.shape);
    SizeOf(tree);
    var it := new Iterator(tree);
    var more := it.Next();
    keys := new int[tree.size];
    var i := 0;
    while more
      invariant fresh(it) && it.tree == tree && it.Valid() && it.Index() == i
      invariant
        && more == (i < |es|) && more == (it.position == Between) && i <= keys.Length == |es|
        && Entries(tree.shape) == es
      invariant forall j :: 0 <= j < i ==> keys[j] == es[j].key
      decreases |es| - i
      modifies keys, it
    {
      var key;
      key, more := TakeKey(it);
      keys[i], i := key, i + 1;
    }
  }
}
