/**
 Colours and black-heights: what makes a shape a red-black tree, and how the case analyses
 of insertion and removal in rbd.go restore it.
 */
module RedBlackBalance {
  import opened RedBlackShape

  // ----- colours and black-heights

  ghost function ColorOf<V>(t: Shape<V>): Color {
    if t.Leaf? then Black else t.color
  }

  /** No red node has a red child, and every path down to a leaf passes `h` black nodes. */
  ghost predicate Balanced<V>(t: Shape<V>, h: nat) {
    match t
    case Leaf => h == 0
    case Branch(_, Red, l, _, _, r) =>
      ColorOf(l) == Black && ColorOf(r) == Black && Balanced(l, h) && Balanced(r, h)
    case Branch(_, Black, l, _, _, r) =>
      h > 0 && Balanced(l, h - 1) && Balanced(r, h - 1)
  }

  /** The hole of `c` can take a tree of black-height `h` whose root has colour `col`. */
  ghost predicate Fits<V>(c: Context<V>, h: nat, col: Color)
    decreases c
  {
    match c
    case Top => col == Black
    case InLeft(_, Black, _, _, r, up) => Balanced(r, h) && Fits(up, h + 1, Black)
    case InRight(_, Black, l, _, _, up) => Balanced(l, h) && Fits(up, h + 1, Black)
    case InLeft(_, Red, _, _, r, up) =>
      col == Black && ColorOf(r) == Black && Balanced(r, h) && Fits(up, h, Red)
    case InRight(_, Red, l, _, _, up) =>
      col == Black && ColorOf(l) == Black && Balanced(l, h) && Fits(up, h, Red)
  }

  ghost predicate RedBlack<V>(t: Shape<V>) {
    ColorOf(t) == Black && exists h: nat :: Balanced(t, h)
  }

  /** A place that takes a red root takes a black one. */
  lemma FitsBlack<V>(c: Context<V>, h: nat)
    requires Fits(c, h, Red)
    ensures Fits(c, h, Black)
  {
  }

  lemma {:induction false} PlugRedBlack<V>(c: Context<V>, t: Shape<V>, h: nat)
    requires Balanced(t, h) && Fits(c, h, ColorOf(t))
    ensures RedBlack(Plug(c, t))
    decreases c
  {
    if !c.Top? {
      PlugRedBlack(c.up, Close(c, t), if c.color == Black then h + 1 else h);
    }
  }

  /** Every subtree of a red-black tree is balanced, and its context fits it exactly. */
  lemma {:induction false} Unplug<V>(c: Context<V>, t: Shape<V>) returns (h: nat)
    requires RedBlack(Plug(c, t))
    ensures Balanced(t, h) && Fits(c, h, ColorOf(t))
    decreases c
  {
    if c.Top? {
      h :| Balanced(t, h);
    } else {
      h := Unplug(c.up, Close(c, t));
      if c.color == Black {
        h := h - 1;
      }
    }
  }

  /** Writing an entry over another one keeps the tree red-black. */
  lemma OverwrittenRedBlack<V>(c: Context<V>, t: Shape<V>, key: int, value: V)
    requires t.Branch? && RedBlack(Plug(c, t))
    ensures RedBlack(Plug(c, t.(key := key, value := value)))
  {
    var h := Unplug(c, t);
    PlugRedBlack(c, t.(key := key, value := value), h);
  }

  /** A hole where a leaf was takes a black tree of height 0, so a red leaf may violate at most its parent's colour. */
  lemma AttachedRedBlack<V>(c: Context<V>)
    requires RedBlack(Plug(c, Leaf))
    ensures Fits(c, 0, Black)
  {
    var h := Unplug(c, Leaf);
  }

  // ----- the insertion fix-up: a red tree whose place would take a black one

  /** A red parent of a red node has a black parent of its own. */
  lemma RedParentHasParent<V>(c: Context<V>, h: nat)
    requires !c.Top? && c.color == Red && Fits(c, h, Black)
    ensures !c.up.Top? && c.up.color == Black
    ensures Balanced(Beside(c), h) && ColorOf(Beside(c)) == Black
    ensures Balanced(Beside(c.up), h) && Fits(c.up.up, h + 1, Black)
  {
  }

  /** Case 3: parent and uncle turn black, and the grandparent takes over the red. */
  ghost function Recoloured<V>(g: Shape<V>): Shape<V>
    requires g.Branch? && g.left.Branch? && g.right.Branch?
  {
    g.(color := Red, left := g.left.(color := Black), right := g.right.(color := Black))
  }

  lemma PaintFamily<V>(c: Context<V>, g: Shape<V>, p: Node<V>, u: Node<V>)
    requires g.Branch? && g.left.Branch? && g.right.Branch? && Distinct(Plug(c, g))
    requires (p == g.left.node && u == g.right.node) || (p == g.right.node && u == g.left.node)
    ensures Paint(Paint(Paint(Plug(c, g), p, Black), u, Black), g.node, Red) == Plug(c, Recoloured(g))
    ensures Entries(Recoloured(g)) == Entries(g)
  {
    DistinctPlug(c, g);
    PaintPlug(c, g, p, Black);
    PaintPlug(c, Paint(g, p, Black), u, Black);
    PaintPlug(c, Paint(Paint(g, p, Black), u, Black), g.node, Red);
  }

  lemma RecolouredBalanced<V>(c: Context<V>, t: Shape<V>, h: nat)
    requires !c.Top? && c.color == Red && Fits(c, h, Black) && Balanced(t, h)
    requires !c.up.Top? && ColorOf(Beside(c.up)) == Red
    ensures Close(c.up, Close(c, t)).left.Branch? && Close(c.up, Close(c, t)).right.Branch?
    ensures Balanced(Recoloured(Close(c.up, Close(c, t))), h + 1)
  {
    var p, u := Close(c, t), Beside(c.up);
    assert Balanced(p.(color := Black), h + 1);
    assert Balanced(u.(color := Black), h + 1);
  }

  /** Case 4: an inner red grandchild is rotated outwards; the old parent is the new red node. */
  lemma Insert4Fits<V>(c: Context<V>, t: Shape<V>, h: nat)
    requires !c.Top? && c.color == Red && Fits(c, h, Black)
    requires t.Branch? && t.color == Red && Balanced(t, h)
    ensures c.InRight? ==>
      var u, c' := RotatedLeft(Close(c, t)), InLeft(t.node, t.color, t.key, t.value, t.right, c.up);
      Plug(c', u.left) == Plug(c.up, u) && Balanced(u.left, h) && u.left.color == Red && Fits(c', h, Black)
    ensures c.InLeft? ==>
      var u, c' := RotatedRight(Close(c, t)), InRight(t.node, t.color, t.left, t.key, t.value, c.up);
      Plug(c', u.right) == Plug(c.up, u) && Balanced(u.right, h) && u.right.color == Red && Fits(c', h, Black)
  {
  }

  /** Case 5: an outer red grandchild; the parent is rotated above the grandparent and the two swap colours. */
  ghost function Insert5Shape<V>(c: Context<V>, t: Shape<V>): Shape<V>
    requires !c.Top? && !c.up.Top?
    requires c.InLeft? <==> c.up.InLeft?
  {
    var g := Close(c.up.(color := Red), Close(c.(color := Black), t));
    if c.InLeft? then RotatedRight(g) else RotatedLeft(g)
  }

  lemma Insert5Paint<V>(c: Context<V>, t: Shape<V>)
    requires !c.Top? && !c.up.Top? && (c.InLeft? <==> c.up.InLeft?) && Distinct(Plug(c, t))
    ensures var c' := c.(color := Black, up := c.up.(color := Red));
      Paint(Paint(Plug(c, t), c.node, Black), c.up.node, Red) == Plug(c', t) &&
      Plug(c', t) == Plug(c.up.up, Close(c'.up, Close(c', t)))
  {
    PaintParent(c, t, Black);
    var c1 := c.(color := Black);
    PaintParent(c.up, Close(c1, t), Red);
  }

  lemma Insert5Balanced<V>(c: Context<V>, t: Shape<V>, h: nat)
    requires !c.Top? && c.color == Red && Fits(c, h, Black) && Balanced(t, h)
    requires !c.up.Top? && (c.InLeft? <==> c.up.InLeft?) && ColorOf(Beside(c.up)) == Black
    ensures RedBlack(Plug(c.up.up, Insert5Shape(c, t)))
  {
    RedParentHasParent(c, h);
    var g := Close(c.up.(color := Red), Beside(c));
    assert Balanced(if c.InLeft? then Insert5Shape(c, t).right else Insert5Shape(c, t).left, h);
    assert Balanced(Insert5Shape(c, t), h + 1);
    PlugRedBlack(c.up.up, Insert5Shape(c, t), h + 1);
  }

  // ----- the deletion fix-up, seen from the hole that is one black node short

  /** The context after rotating the hole's parent towards the hole. */
  ghost function Lowered<V>(c: Context<V>): Context<V>
    requires !c.Top? && Beside(c).Branch?
  {
    var s := Beside(c);
    if c.InLeft? then
      InLeft(c.node, c.color, c.key, c.value, s.left, InLeft(s.node, s.color, s.key, s.value, s.right, c.up))
    else
      InRight(c.node, c.color, s.right, c.key, c.value, InRight(s.node, s.color, s.left, s.key, s.value, c.up))
  }

  lemma LoweredPlug<V>(c: Context<V>, t: Shape<V>)
    requires !c.Top? && Beside(c).Branch?
    ensures Plug(Lowered(c), t) ==
            Plug(c.up, if c.InLeft? then RotatedLeft(Close(c, t)) else RotatedRight(Close(c, t)))
  {
    var d := Lowered(c);
    assert Plug(d, t) == Plug(d.up, Close(d, t)) == Plug(d.up.up, Close(d.up, Close(d, t)));
  }

  lemma LoweredEntries<V>(c: Context<V>)
    requires !c.Top? && Beside(c).Branch?
    ensures Before(Lowered(c)) == Before(c) && After(Lowered(c)) == After(c)
  {
    var s, d := Beside(c), Lowered(c);
    if c.InLeft? {
      var x, a, y, b, r :=
        [Entry(c.key, c.value)], Entries(s.left), [Entry(s.key, s.value)], Entries(s.right), After(c.up);
      assert After(d) == x + a + (y + b + r);
      assert After(c) == x + (a + y + b) + r;
    } else {
      var r, a, y, b, x :=
        Before(c.up), Entries(s.left), [Entry(s.key, s.value)], Entries(s.right), [Entry(c.key, c.value)];
      assert Before(d) == (r + a + y) + b + x;
      assert Before(c) == r + (a + y + b) + x;
    }
  }

  /** `c'` holds the same entries as `c`, and its hole takes any tree one black node lower. */
  ghost predicate Settled<V>(c: Context<V>, c': Context<V>, h: nat) {
    && Before(c') == Before(c) && After(c') == After(c)
    && (if c.Top? then c'.Top? else !c'.Top? && Fits(c', h, Red))
  }

  /** Case 2: a red sibling is rotated above the parent, which turns red. */
  ghost function Delete2<V>(c: Context<V>): Context<V>
    requires !c.Top? && Beside(c).Branch?
  {
    Lowered(WithBeside(c.(color := Red), Beside(c).(color := Black)))
  }

  /** Case 3: everything around is black; the sibling turns red. */
  ghost function Delete3<V>(c: Context<V>): Context<V>
    requires !c.Top? && Beside(c).Branch?
  {
    WithBeside(c, Beside(c).(color := Red))
  }

  /** Case 4: only the parent is red; parent and sibling swap colours. */
  ghost function Delete4<V>(c: Context<V>): Context<V>
    requires !c.Top? && Beside(c).Branch?
  {
    WithBeside(c.(color := Black), Beside(c).(color := Red))
  }

  /** The sibling's child on the hole's side, and the one away from it. */
  ghost function Near<V>(c: Context<V>): Shape<V>
    requires !c.Top? && Beside(c).Branch?
  {
    if c.InLeft? then Beside(c).left else Beside(c).right
  }

  ghost function Far<V>(c: Context<V>): Shape<V>
    requires !c.Top? && Beside(c).Branch?
  {
    if c.InLeft? then Beside(c).right else Beside(c).left
  }

  /** Case 5: a red near nephew is rotated above the sibling. */
  ghost function Delete5<V>(c: Context<V>): Context<V>
    requires !c.Top? && Beside(c).Branch? && Near(c).Branch?
  {
    var s := Beside(c).(color := Red);
    if c.InLeft? then WithBeside(c, RotatedRight(s.(left := s.left.(color := Black))))
    else WithBeside(c, RotatedLeft(s.(right := s.right.(color := Black))))
  }

  /** Case 6: the sibling is rotated above the parent and takes its colour; the red far nephew turns black. */
  ghost function Delete6<V>(c: Context<V>): Context<V>
    requires !c.Top? && Beside(c).Branch? && Far(c).Branch?
  {
    var s := Beside(c).(color := c.color);
    match c
    case InLeft(n, _, k, v, r, up) =>
      Lowered(WithBeside(InLeft(n, Black, k, v, r, up), s.(right := s.right.(color := Black))))
    case InRight(n, _, l, k, v, up) =>
      Lowered(WithBeside(InRight(n, Black, l, k, v, up), s.(left := s.left.(color := Black))))
  }

  /** The sibling of a hole that is one short is never missing. */
  lemma ShortHasSibling<V>(c: Context<V>, h: nat)
    requires !c.Top? && Fits(c, h + 1, Black)
    ensures Beside(c).Branch?
  {
  }

  lemma Delete2Fits<V>(c: Context<V>, h: nat)
    requires !c.Top? && Fits(c, h + 1, Black) && ColorOf(Beside(c)) == Red
    ensures var d := Delete2(c);
      !d.Top? && d.color == Red && Fits(d, h + 1, Black) && Before(d) == Before(c) && After(d) == After(c)
  {
    var c1 := WithBeside(c.(color := Red), Beside(c).(color := Black));
    LoweredEntries(c1);
    assert Entries(Beside(c1)) == Entries(Beside(c));
  }

  /** After case 3 the hole is right, and the parent's own place is one short. */
  lemma Delete3Fits<V>(c: Context<V>, h: nat)
    requires !c.Top? && Fits(c, h + 1, Black) && c.color == Black
    requires ColorOf(Beside(c)) == ColorOf(Near(c)) == ColorOf(Far(c)) == Black
    ensures Fits(c.up, h + 2, Black) && Balanced(Beside(Delete3(c)), h)
  {
  }

  /** Once the parent's place is settled, the hole is. */
  lemma Delete3Settles<V>(c: Context<V>, up: Context<V>, h: nat)
    requires !c.Top? && Beside(c).Branch? && c.color == Black && Balanced(Beside(Delete3(c)), h)
    requires Settled(c.up, up, h + 1)
    ensures Settled(c, Delete3(c).(up := up), h)
  {
    if !up.Top? {
      FitsBlack(up, h + 1);
    }
    assert Entries(Beside(Delete3(c))) == Entries(Beside(c));
  }

  lemma Delete4Settles<V>(c: Context<V>, h: nat)
    requires !c.Top? && Fits(c, h + 1, Black) && c.color == Red
    requires ColorOf(Beside(c)) == ColorOf(Near(c)) == ColorOf(Far(c)) == Black
    ensures Settled(c, Delete4(c), h)
  {
    FitsBlack(c.up, h + 1);
    assert Entries(Beside(Delete4(c))) == Entries(Beside(c));
  }

  lemma Delete5Fits<V>(c: Context<V>, h: nat)
    requires !c.Top? && Fits(c, h + 1, Black)
    requires ColorOf(Beside(c)) == Black && ColorOf(Near(c)) == Red && ColorOf(Far(c)) == Black
    ensures var d := Delete5(c);
      Fits(d, h + 1, Black) && Before(d) == Before(c) && After(d) == After(c) &&
      Beside(d).Branch? && ColorOf(Beside(d)) == Black && ColorOf(Far(d)) == Red
  {
    var s := Beside(c).(color := Red);
    if c.InLeft? {
      var s' := s.(left := s.left.(color := Black));
      RotatedRightEntries(s');
      assert Entries(s'.left) == Entries(s.left) && Entries(s') == Entries(Beside(c));
      assert Balanced(s.left, h) && Balanced(s.right, h);
      assert Balanced(RotatedRight(s').right, h);
    } else {
      var s' := s.(right := s.right.(color := Black));
      RotatedLeftEntries(s');
      assert Entries(s'.right) == Entries(s.right) && Entries(s') == Entries(Beside(c));
      assert Balanced(s.left, h) && Balanced(s.right, h);
      assert Balanced(RotatedLeft(s').left, h);
    }
  }

  lemma Delete6Entries<V>(c: Context<V>)
    requires !c.Top? && Beside(c).Branch? && Far(c).Branch?
    ensures Before(Delete6(c)) == Before(c) && After(Delete6(c)) == After(c)
  {
    var s := Beside(c).(color := c.color);
    var s' := if c.InLeft? then s.(right := s.right.(color := Black)) else s.(left := s.left.(color := Black));
    var c1 := WithBeside(c.(color := Black), s');
    LoweredEntries(c1);
    assert Entries(s'.left) == Entries(s.left) && Entries(s'.right) == Entries(s.right);
    assert Entries(Beside(c1)) == Entries(Beside(c));
  }

  lemma Delete6Settles<V>(c: Context<V>, h: nat)
    requires !c.Top? && Fits(c, h + 1, Black) && ColorOf(Beside(c)) == Black && ColorOf(Far(c)) == Red
    ensures Settled(c, Delete6(c), h)
  {
    Delete6Entries(c);
    assert Balanced(Near(c), h) && Balanced(Far(c), h);
    assert Balanced(Far(c).(color := Black), h + 1);
    assert Fits(Delete6(c).up, h + 1, Black);
  }

  /** A node with a missing child has at most a single red child, and then is black itself. */
  lemma LoneChild<V>(c: Context<V>, t: Shape<V>, x: Shape<V>)
    requires t.Branch? && RedBlack(Plug(c, t))
    requires (t.left.Leaf? && x == t.right) || (t.right.Leaf? && x == t.left)
    ensures Balanced(x, 0)
    ensures t.color == Red ==> x.Leaf? && Fits(c, 0, Black)
    ensures t.color == Black ==> Fits(c, 1, Black)
  {
    var h := Unplug(c, t);
    assert Balanced(t.left, if t.color == Black then h - 1 else h);
    assert Balanced(t.right, if t.color == Black then h - 1 else h);
    if t.color == Red {
      FitsBlack(c, h);
    }
  }

  // ----- heights

  ghost function Height<V>(t: Shape<V>): nat {
    if t.Leaf? then 0 else
      1 + if Height(t.left) > Height(t.right) then Height(t.left) else Height(t.right)
  }

  ghost function Pow2(n: nat): nat {
    if n == 0 then 1 else 2 * Pow2(n - 1)
  }

  lemma {:induction false} BalancedHeight<V>(t: Shape<V>, h: nat)
    requires Balanced(t, h)
    ensures Pow2(h) <= |Entries(t)| + 1
    ensures Height(t) <= if ColorOf(t) == Black then 2 * h else 2 * h + 1
  {
    if t.Branch? {
      var h' := if t.color == Black then h - 1 else h;
      BalancedHeight(t.left, h');
      BalancedHeight(t.right, h');
    }
  }

  lemma Pow2Monotone(m: nat, n: nat)
    requires m <= n
    ensures Pow2(m) <= Pow2(n)
  {
  }

  /** A red-black tree of n entries has height h with 2^(h/2) <= n + 1. */
  lemma RedBlackHeight<V>(t: Shape<V>)
    requires RedBlack(t)
    ensures Pow2(Height(t) / 2) <= |Entries(t)| + 1
  {
    var h: nat :| Balanced(t, h);
    BalancedHeight(t, h);
    Pow2Monotone(Height(t) / 2, h);
  }

  /** A walk down the tree that visits no more nodes than it is high is logarithmic. */
  lemma ShortWalk<V>(t: Shape<V>, steps: nat)
    requires RedBlack(t) && steps <= Height(t)
    ensures Pow2(steps / 2) <= |Entries(t)| + 1
  {
    RedBlackHeight(t);
    Pow2Monotone(steps / 2, Height(t) / 2);
  }
}
