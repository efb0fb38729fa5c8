/**
 How a shape is laid out in linked nodes. A `Memory` is a snapshot of the nodes' fields;
 each lemma says what a few assignments to fields do to the shape that is laid out.
 */
module RedBlackMemory {
  import opened RedBlackShape

  /** What the fields of one node say. */
  datatype Cell<V> = Cell(key: int, value: V, color: Color, left: Node?<V>, right: Node?<V>, parent: Node?<V>)

  type Memory<V> = map<Node<V>, Cell<V>>

  /** In memory `m`, the subtree whose parent is `p` is laid out exactly as `t`. */
  ghost predicate Rep<V>(t: Shape<V>, p: Node?<V>, m: Memory<V>) {
    t.Branch? ==>
      t.node in m && m[t.node] == Cell(t.key, t.value, t.color, RootOf(t.left), RootOf(t.right), p) &&
      Rep(t.left, t.node, m) && Rep(t.right, t.node, m)
  }

  /** The nodes above and beside the hole, which holds `hole`, are laid out exactly as `c`. */
  ghost predicate RepCtx<V>(c: Context<V>, hole: Node?<V>, root: Node?<V>, m: Memory<V>)
    decreases c
  {
    if c.Top? then root == hole else
      c.node in m &&
      m[c.node] == Cell(c.key, c.value, c.color,
                        if c.InLeft? then hole else RootOf(c.left), if c.InLeft? then RootOf(c.right) else hole,
                        ParentOf(c.up)) &&
      Rep(Beside(c), c.node, m) && RepCtx(c.up, c.node, root, m)
  }

  /** The whole tree is laid out as `s`. */
  ghost predicate Laid<V>(s: Shape<V>, root: Node?<V>, m: Memory<V>) {
    Distinct(s) && root == RootOf(s) && Rep(s, null, m)
  }

  // ----- frames

  lemma {:induction false} RepFrame<V>(t: Shape<V>, p: Node?<V>, m: Memory<V>, m': Memory<V>)
    requires Rep(t, p, m)
    requires forall k :: k in Nodes(t) && k in m ==> k in m' && m'[k] == m[k]
    ensures Rep(t, p, m')
  {
    if t.Branch? {
      RepFrame(t.left, t.node, m, m');
      RepFrame(t.right, t.node, m, m');
    }
  }

  lemma {:induction false} RepCtxFrame<V>(c: Context<V>, hole: Node?<V>, root: Node?<V>, m: Memory<V>, m': Memory<V>)
    requires RepCtx(c, hole, root, m)
    requires forall k :: k in CtxNodes(c) && k in m ==> k in m' && m'[k] == m[k]
    ensures RepCtx(c, hole, root, m')
    decreases c
  {
    if !c.Top? {
      RepFrame(Beside(c), c.node, m, m');
      RepCtxFrame(c.up, c.node, root, m, m');
    }
  }

  // ----- looking at one place in the tree

  lemma {:induction false} Unfold<V>(c: Context<V>, t: Shape<V>, root: Node?<V>, m: Memory<V>)
    requires Rep(Plug(c, t), null, m) && root == RootOf(Plug(c, t))
    ensures Rep(t, ParentOf(c), m) && RepCtx(c, RootOf(t), root, m)
    decreases c
  {
    if !c.Top? {
      Unfold(c.up, Close(c, t), root, m);
      assert Rep(t, c.node, m);
    }
  }

  lemma {:induction false} Refold<V>(c: Context<V>, t: Shape<V>, root: Node?<V>, m: Memory<V>)
    requires Rep(t, ParentOf(c), m) && RepCtx(c, RootOf(t), root, m)
    ensures Rep(Plug(c, t), null, m) && root == RootOf(Plug(c, t))
    decreases c
  {
    if !c.Top? {
      Refold(c.up, Close(c, t), root, m);
    }
  }

  // ----- putting something else into a hole

  /** The parent's link, or the root, now leads to `child`; nothing else in the context changed. */
  ghost predicate Rehung<V>(c: Context<V>, child: Node?<V>, root: Node?<V>, root': Node?<V>, m: Memory<V>,
          m': Memory<V>) {
    && (forall k :: k in CtxNodes(c) && k in m ==>
          k in m' && m'[k] ==
            (if k != ParentOf(c) then m[k] else if c.InLeft? then m[k].(left := child) else m[k].(right := child)))
    && root' == if c.Top? then child else root
  }

  lemma RehangCtx<V>(c: Context<V>, hole: Node?<V>, child: Node?<V>, root: Node?<V>, root': Node?<V>, m: Memory<V>,
          m': Memory<V>)
    requires DistinctCtx(c) && RepCtx(c, hole, root, m)
    requires Rehung(c, child, root, root', m, m')
    ensures RepCtx(c, child, root', m')
  {
    if !c.Top? {
      RepFrame(Beside(c), c.node, m, m');
      RepCtxFrame(c.up, c.node, root, m, m');
    }
  }

  lemma Rehang<V>(t: Shape<V>, p: Node?<V>, p': Node?<V>, m: Memory<V>, m': Memory<V>)
    requires Distinct(t) && Rep(t, p, m)
    requires forall k :: k in Nodes(t) && k in m ==>
      k in m' && m'[k] == if k == RootOf(t) then m[k].(parent := p') else m[k]
    ensures Rep(t, p', m')
  {
    if t.Branch? {
      RepFrame(t.left, t.node, m, m');
      RepFrame(t.right, t.node, m, m');
    }
  }

  // ----- recolouring

  lemma {:induction false} PaintRep<V>(t: Shape<V>, p: Node?<V>, n: Node<V>, col: Color, m: Memory<V>, m': Memory<V>)
    requires Rep(t, p, m)
    requires n in m && m' == m[n := m[n].(color := col)]
    ensures Rep(Paint(t, n, col), p, m')
  {
    if t.Branch? {
      PaintRep(t.left, t.node, n, col, m, m');
      PaintRep(t.right, t.node, n, col, m, m');
    }
  }

  // ----- rotations

  lemma RotateLeftRep<V>(t: Shape<V>, p: Node?<V>, m: Memory<V>, m': Memory<V>)
    requires t.Branch? && t.right.Branch? && Distinct(t) && Rep(t, p, m)
    requires Nodes(t) <= m'.Keys
    requires m'[t.node] == m[t.node].(right := RootOf(t.right.left), parent := t.right.node)
    requires t.right.node in m && m'[t.right.node] == m[t.right.node].(left := t.node, parent := p)
    requires forall k :: k in Nodes(t) && k in m && k != t.node && k != t.right.node ==>
      m'[k] == if k == RootOf(t.right.left) then m[k].(parent := t.node) else m[k]
    ensures Rep(RotatedLeft(t), p, m')
  {
    var x, y, a, b, d := t.node, t.right.node, t.left, t.right.left, t.right.right;
    assert Rep(t.right, x, m);
    assert Nodes(t.right) == {y} + Nodes(b) + Nodes(d);
    assert Rep(a, x, m') by { RepFrame(a, x, m, m'); }
    assert Rep(d, y, m') by { RepFrame(d, y, m, m'); }
    assert Rep(b, x, m') by { Rehang(b, y, x, m, m'); }
  }

  lemma RotateRightRep<V>(t: Shape<V>, p: Node?<V>, m: Memory<V>, m': Memory<V>)
    requires t.Branch? && t.left.Branch? && Distinct(t) && Rep(t, p, m)
    requires Nodes(t) <= m'.Keys
    requires m'[t.node] == m[t.node].(left := RootOf(t.left.right), parent := t.left.node)
    requires t.left.node in m && m'[t.left.node] == m[t.left.node].(right := t.node, parent := p)
    requires forall k :: k in Nodes(t) && k in m && k != t.node && k != t.left.node ==>
      m'[k] == if k == RootOf(t.left.right) then m[k].(parent := t.node) else m[k]
    ensures Rep(RotatedRight(t), p, m')
  {
    var x, y, a, b, d := t.node, t.left.node, t.left.left, t.left.right, t.right;
    assert Rep(t.left, x, m);
    assert Nodes(t.left) == {y} + Nodes(a) + Nodes(b);
    assert Rep(a, y, m') by { RepFrame(a, y, m, m'); }
    assert Rep(d, x, m') by { RepFrame(d, x, m, m'); }
    assert Rep(b, x, m') by { Rehang(b, y, x, m, m'); }
  }

  /** Replacing the subtree in the hole by another one laid out there. */
  lemma ReplaceLaid<V>(c: Context<V>, t: Shape<V>, t': Shape<V>, root: Node?<V>, root': Node?<V>, m: Memory<V>,
          m': Memory<V>)
    requires Laid(Plug(c, t), root, m)
    requires Rehung(c, RootOf(t'), root, root', m, m')
    requires Distinct(t') && Nodes(t') !! CtxNodes(c) && Rep(t', ParentOf(c), m')
    ensures Laid(Plug(c, t'), root', m')
  {
    DistinctPlug(c, t);
    DistinctPlug(c, t');
    Unfold(c, t, root, m);
    RehangCtx(c, RootOf(t), RootOf(t'), root, root', m, m');
    Refold(c, t', root', m');
  }

  lemma RotateLeftLaid<V>(c: Context<V>, t: Shape<V>, root: Node?<V>, root': Node?<V>, m: Memory<V>, m': Memory<V>)
    requires t.Branch? && t.right.Branch? && Laid(Plug(c, t), root, m)
    requires Nodes(t.right) <= Nodes(t) && Nodes(t) + CtxNodes(c) <= m'.Keys
    requires Rehung(c, t.right.node, root, root', m, m')
    requires t.node in m && m'[t.node] == m[t.node].(right := RootOf(t.right.left), parent := t.right.node)
    requires t.right.node in m && m'[t.right.node] == m[t.right.node].(left := t.node, parent := ParentOf(c))
    requires forall k :: k in Nodes(t) && k in m && k != t.node && k != t.right.node ==>
      m'[k] == if k == RootOf(t.right.left) then m[k].(parent := t.node) else m[k]
    ensures Laid(Plug(c, RotatedLeft(t)), root', m')
    ensures Nodes(Plug(c, RotatedLeft(t))) == Nodes(Plug(c, t))
  {
    Unfold(c, t, root, m);
    DistinctPlug(c, t);
    RotateLeftRep(t, ParentOf(c), m, m');
    RotatedNodes(t);
    PlugNodes(c, t);
    PlugNodes(c, RotatedLeft(t));
    ReplaceLaid(c, t, RotatedLeft(t), root, root', m, m');
  }

  lemma RotateRightLaid<V>(c: Context<V>, t: Shape<V>, root: Node?<V>, root': Node?<V>, m: Memory<V>, m': Memory<V>)
    requires t.Branch? && t.left.Branch? && Laid(Plug(c, t), root, m)
    requires Nodes(t.left) <= Nodes(t) && Nodes(t) + CtxNodes(c) <= m'.Keys
    requires Rehung(c, t.left.node, root, root', m, m')
    requires t.node in m && m'[t.node] == m[t.node].(left := RootOf(t.left.right), parent := t.left.node)
    requires t.left.node in m && m'[t.left.node] == m[t.left.node].(right := t.node, parent := ParentOf(c))
    requires forall k :: k in Nodes(t) && k in m && k != t.node && k != t.left.node ==>
      m'[k] == if k == RootOf(t.left.right) then m[k].(parent := t.node) else m[k]
    ensures Laid(Plug(c, RotatedRight(t)), root', m')
    ensures Nodes(Plug(c, RotatedRight(t))) == Nodes(Plug(c, t))
  {
    Unfold(c, t, root, m);
    DistinctPlug(c, t);
    RotateRightRep(t, ParentOf(c), m, m');
    RotatedNodes(t);
    PlugNodes(c, t);
    PlugNodes(c, RotatedRight(t));
    ReplaceLaid(c, t, RotatedRight(t), root, root', m, m');
  }

  // ----- writing an entry, attaching a new node and detaching an old one

  lemma WriteLaid<V>(c: Context<V>, t: Shape<V>, key: int, value: V, root: Node?<V>, m: Memory<V>, m': Memory<V>)
    requires t.Branch? && Laid(Plug(c, t), root, m)
    requires t.node in m && m' == m[t.node := m[t.node].(key := key, value := value)]
    ensures Laid(Plug(c, t.(key := key, value := value)), root, m')
  {
    var t' := t.(key := key, value := value);
    DistinctPlug(c, t);
    DistinctPlug(c, t');
    Unfold(c, t, root, m);
    RepFrame(t.left, t.node, m, m');
    RepFrame(t.right, t.node, m, m');
    RepCtxFrame(c, t.node, root, m, m');
    Refold(c, t', root, m');
  }

  lemma AttachLaid<V>(c: Context<V>, n: Node<V>, key: int, value: V, root: Node?<V>, root': Node?<V>, m: Memory<V>,
          m': Memory<V>)
    requires Laid(Plug(c, Leaf), root, m) && n !in CtxNodes(c)
    requires Rehung(c, n, root, root', m, m')
    requires n in m' && m'[n] == Cell(key, value, Red, null, null, ParentOf(c))
    ensures Laid(Plug(c, Branch(n, Red, Leaf, key, value, Leaf)), root', m')
  {
    var t := Branch(n, Red, Leaf, key, value, Leaf);
    assert Nodes(t) == {n};
    ReplaceLaid(c, Leaf, t, root, root', m, m');
  }

  lemma DetachLaid<V>(c: Context<V>, t: Shape<V>, x: Shape<V>, root: Node?<V>, root': Node?<V>, m: Memory<V>,
          m': Memory<V>)
    requires t.Branch? && Laid(Plug(c, t), root, m)
    requires (t.left.Leaf? && x == t.right) || (t.right.Leaf? && x == t.left)
    requires Rehung(c, RootOf(x), root, root', m, m')
    requires forall k :: k in Nodes(x) && k in m ==>
      k in m' && m'[k] == if k == RootOf(x) then m[k].(parent := ParentOf(c)) else m[k]
    ensures Laid(Plug(c, x), root', m')
    ensures Nodes(Plug(c, x)) == Nodes(Plug(c, t)) - {t.node}
  {
    DistinctPlug(c, t);
    PlugNodes(c, t);
    PlugNodes(c, x);
    Unfold(c, t, root, m);
    assert Rep(x, t.node, m);
    Rehang(x, t.node, ParentOf(c), m, m');
    ReplaceLaid(c, t, x, root, root', m, m');
  }
}
