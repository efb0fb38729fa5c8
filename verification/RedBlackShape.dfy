/**
 The value view of a red-black tree: what its nodes say, without the heap.

 A `Shape` is a tree of node references together with the contents of each node.
 A `Context` is the path from a subtree up to the root, so that `Plug` gives back the
 whole tree. The algorithms of rbd.go walk up and down such paths, and every property of
 theirs that does not mention pointers is proved here.
 */
module RedBlackShape {

  datatype Color = Red | Black

  /** A node of the tree; the fields are those of the source's Node. */
  class Node<V> {
    var key: int
    var value: V
    var color: Color
    var left: Node?<V>
    var right: Node?<V>
    var parent: Node?<V>

    constructor (key: int, value: V, color: Color, parent: Node?<V>)
      ensures this.key == key && this.value == value && this.color == color
      ensures left == null && right == null && this.parent == parent
    {
      this.key, this.value, this.color := key, value, color;
      left, right, this.parent := null, null, parent;
    }
  }

  datatype Entry<V> = Entry(key: int, value: V)

  datatype Shape<V> =
    | Leaf
    | Branch(node: Node<V>, color: Color, left: Shape<V>, key: int, value: V, right: Shape<V>)

  datatype Context<V> =
    | Top
    | InLeft(node: Node<V>, color: Color, key: int, value: V, right: Shape<V>, up: Context<V>)
    | InRight(node: Node<V>, color: Color, left: Shape<V>, key: int, value: V, up: Context<V>)

  /** A place in a tree: a subtree and what is around it. */
  datatype Spot<V> = Spot(c: Context<V>, t: Shape<V>)

  /** The only subtree of a node that has at most one. */
  ghost function LoneSub<V>(t: Shape<V>): Shape<V>
    requires t.Branch?
  {
    if t.left.Leaf? then t.right else t.left
  }

  // ----- nodes, entries and paths

  ghost function RootOf<V>(t: Shape<V>): Node?<V> {
    if t.Leaf? then null else t.node
  }

  ghost function ParentOf<V>(c: Context<V>): Node?<V> {
    if c.Top? then null else c.node
  }

  ghost function Nodes<V>(t: Shape<V>): set<Node<V>> {
    match t
    case Leaf => {}
    case Branch(n, _, l, _, _, r) => {n} + Nodes(l) + Nodes(r)
  }

  ghost function CtxNodes<V>(c: Context<V>): set<Node<V>> {
    match c
    case Top => {}
    case InLeft(n, _, _, _, r, up) => {n} + Nodes(r) + CtxNodes(up)
    case InRight(n, _, l, _, _, up) => {n} + Nodes(l) + CtxNodes(up)
  }

  /** The entries of a tree from left to right. */
  ghost function Entries<V>(t: Shape<V>): seq<Entry<V>> {
    match t
    case Leaf => []
    case Branch(_, _, l, k, v, r) => Entries(l) + [Entry(k, v)] + Entries(r)
  }

  /** The entries left of the hole. */
  ghost function Before<V>(c: Context<V>): seq<Entry<V>> {
    match c
    case Top => []
    case InLeft(_, _, _, _, _, up) => Before(up)
    case InRight(_, _, l, k, v, up) => Before(up) + Entries(l) + [Entry(k, v)]
  }

  /** The entries right of the hole. */
  ghost function After<V>(c: Context<V>): seq<Entry<V>> {
    match c
    case Top => []
    case InLeft(_, _, k, v, r, up) => [Entry(k, v)] + Entries(r) + After(up)
    case InRight(_, _, _, _, _, up) => After(up)
  }

  /** The subtree on the other side of the hole's parent. */
  ghost function Beside<V>(c: Context<V>): Shape<V>
    requires !c.Top?
  {
    if c.InLeft? then c.right else c.left
  }

  /** The tree with one more level filled in around `t`. */
  ghost function Close<V>(c: Context<V>, t: Shape<V>): Shape<V>
    requires !c.Top?
  {
    match c
    case InLeft(n, col, k, v, r, _) => Branch(n, col, t, k, v, r)
    case InRight(n, col, l, k, v, _) => Branch(n, col, l, k, v, t)
  }

  ghost function Plug<V>(c: Context<V>, t: Shape<V>): Shape<V>
    decreases c
  {
    if c.Top? then t else Plug(c.up, Close(c, t))
  }

  /** How many levels lie above the hole. */
  ghost function Depth<V>(c: Context<V>): nat {
    if c.Top? then 0 else 1 + Depth(c.up)
  }

  lemma {:induction false} PlugEntries<V>(c: Context<V>, t: Shape<V>)
    ensures Entries(Plug(c, t)) == Before(c) + Entries(t) + After(c)
    decreases c
  {
    if !c.Top? {
      PlugEntries(c.up, Close(c, t));
    }
  }

  lemma {:induction false} PlugNodes<V>(c: Context<V>, t: Shape<V>)
    ensures Nodes(Plug(c, t)) == Nodes(t) + CtxNodes(c)
    decreases c
  {
    if !c.Top? {
      PlugNodes(c.up, Close(c, t));
    }
  }

  /** The root of the whole tree lies in the context of any proper subtree. */
  lemma {:induction false} RootInContext<V>(c: Context<V>, t: Shape<V>)
    requires !c.Top?
    ensures RootOf(Plug(c, t)) in CtxNodes(c)
    decreases c
  {
    if !c.up.Top? {
      RootInContext(c.up, Close(c, t));
    }
  }

  // ----- ordered entries and the map they stand for

  ghost predicate Sorted<V>(es: seq<Entry<V>>) {
    forall i, j :: 0 <= i < j < |es| ==> es[i].key < es[j].key
  }

  ghost predicate AllBelow<V>(es: seq<Entry<V>>, key: int) {
    forall i :: 0 <= i < |es| ==> es[i].key < key
  }

  ghost predicate AllAbove<V>(es: seq<Entry<V>>, key: int) {
    forall i :: 0 <= i < |es| ==> key < es[i].key
  }

  /** The map from keys to values; a later entry wins, though sorted entries never clash. */
  ghost function MapOf<V>(es: seq<Entry<V>>): map<int, V> {
    if es == [] then map[] else MapOf(es[..|es| - 1])[es[|es| - 1].key := es[|es| - 1].value]
  }

  lemma {:induction false} MapOfAppend<V>(a: seq<Entry<V>>, b: seq<Entry<V>>)
    ensures MapOf(a + b) == MapOf(a) + MapOf(b)
  {
    if b == [] {
      assert a + b == a;
    } else {
      var b' := b[..|b| - 1];
      assert (a + b)[..|a + b| - 1] == a + b';
      MapOfAppend(a, b');
    }
  }

  lemma {:induction false} MapOfKeys<V>(es: seq<Entry<V>>)
    ensures forall k :: k in MapOf(es) <==> exists i :: 0 <= i < |es| && es[i].key == k
  {
    if es != [] {
      var es' := es[..|es| - 1];
      MapOfKeys(es');
      forall k | k in MapOf(es)
        ensures exists i :: 0 <= i < |es| && es[i].key == k
      {
        if k == es[|es| - 1].key {
        } else {
          assert k in MapOf(es');
          var i :| 0 <= i < |es'| && es'[i].key == k;
          assert es[i].key == k;
        }
      }
      forall i | 0 <= i < |es|
        ensures es[i].key in MapOf(es)
      {
        if i < |es'| {
          assert es'[i].key in MapOf(es');
        }
      }
    }
  }

  /** Looking a key up in sorted entries gives the value stored beside it. */
  lemma {:induction false} MapOfAt<V>(es: seq<Entry<V>>, i: nat)
    requires Sorted(es) && i < |es|
    ensures es[i].key in MapOf(es) && MapOf(es)[es[i].key] == es[i].value
  {
    var es' := es[..|es| - 1];
    if i < |es'| {
      MapOfAt(es', i);
    }
  }

  lemma {:induction false} MapOfSize<V>(es: seq<Entry<V>>)
    requires Sorted(es)
    ensures |MapOf(es)| == |es|
  {
    if es != [] {
      var es' := es[..|es| - 1];
      MapOfSize(es');
      MapOfKeys(es');
      assert es[|es| - 1].key !in MapOf(es');
    }
  }

  lemma Around<V>(a: seq<Entry<V>>, e: Entry<V>, b: seq<Entry<V>>)
    requires Sorted(a + [e] + b)
    ensures AllBelow(a, e.key) && AllAbove(b, e.key)
  {
    var es := a + [e] + b;
    assert es[|a|] == e;
    forall i | 0 <= i < |a| ensures a[i].key < e.key { assert es[i].key < es[|a|].key; }
    forall i | 0 <= i < |b| ensures e.key < b[i].key { assert es[|a|].key < es[|a| + 1 + i].key; }
  }

  lemma SortedPut<V>(a: seq<Entry<V>>, key: int, value: V, mid: seq<Entry<V>>, b: seq<Entry<V>>)
    requires Sorted(a + mid + b)
    requires AllBelow(a, key) && AllAbove(b, key)
    ensures Sorted(a + [Entry(key, value)] + b)
  {
    var es, es' := a + mid + b, a + [Entry(key, value)] + b;
    forall i, j | 0 <= i < j < |es'|
      ensures es'[i].key < es'[j].key
    {
      var i' := if i < |a| then i else i - 1 + |mid|;
      var j' := if j < |a| then j else j - 1 + |mid|;
      if i != |a| && j != |a| {
        assert es[i'].key < es[j'].key;
        assert es'[i] == es[i'] && es'[j] == es[j'];
      }
    }
  }

  /** The first and the last of sorted entries have the least and the greatest key of the map. */
  lemma SortedEnds<V>(es: seq<Entry<V>>)
    requires Sorted(es)
    ensures es == [] <==> MapOf(es) == map[]
    ensures es != [] ==> var a, b := es[0], es[|es| - 1];
      && a.key in MapOf(es) && MapOf(es)[a.key] == a.value && b.key in MapOf(es) && MapOf(es)[b.key] == b.value
      && forall k :: k in MapOf(es) ==> a.key <= k <= b.key
  {
    MapOfSize(es);
    MapOfKeys(es);
    if es != [] {
      MapOfAt(es, 0);
      MapOfAt(es, |es| - 1);
    }
  }

  /** Writing one entry at its place in sorted entries updates the map there and nowhere else. */
  lemma {:induction false} MapOfPut<V>(a: seq<Entry<V>>, key: int, value: V, mid: seq<Entry<V>>, b: seq<Entry<V>>)
    requires AllAbove(b, key)
    requires mid == [] || (|mid| == 1 && mid[0].key == key)
    ensures MapOf(a + [Entry(key, value)] + b) == MapOf(a + mid + b)[key := value]
  {
    MapOfAppend(a + mid, b);
    MapOfAppend(a + [Entry(key, value)], b);
    MapOfAppend(a, [Entry(key, value)]);
    MapOfSingle(key, value);
    assert key !in MapOf(b) by { MapOfKeys(b); }
    assert MapOf(a + mid) == MapOf(a) + MapOf(mid) by { MapOfAppend(a, mid); }
    if mid != [] {
      assert mid == [Entry(key, mid[0].value)];
      MapOfSingle(key, mid[0].value);
    }
  }

  lemma MapOfSingle<V>(key: int, value: V)
    ensures MapOf([Entry(key, value)]) == map[key := value]
  {
    assert [Entry(key, value)][..0] == [];
    assert MapOf<V>([]) == map[];
  }

  /** Dropping one entry from sorted entries drops its key from the map and keeps the rest. */
  lemma {:induction false} MapOfRemove<V>(a: seq<Entry<V>>, e: Entry<V>, b: seq<Entry<V>>)
    requires Sorted(a + [e] + b)
    ensures Sorted(a + b)
    ensures MapOf(a + b) == MapOf(a + [e] + b) - {e.key}
  {
    var es, es' := a + [e] + b, a + b;
    forall i, j | 0 <= i < j < |es'|
      ensures es'[i].key < es'[j].key
    {
      assert es[if i < |a| then i else i + 1].key < es[if j < |a| then j else j + 1].key;
    }
    assert es[|a|] == e;
    forall i | 0 <= i < |a| ensures a[i].key != e.key { assert es[i].key < es[|a|].key; }
    forall i | 0 <= i < |b| ensures b[i].key != e.key { assert es[|a|].key < es[|a| + 1 + i].key; }
    MapOfKeys(a);
    MapOfKeys(b);
    MapOfAppend(a + [e], b);
    MapOfAppend(a, [e]);
    MapOfAppend(a, b);
    MapOfSingle(e.key, e.value);
    assert [Entry(e.key, e.value)] == [e];
  }

  // ----- distinct nodes

  /** No node occurs twice. */
  ghost predicate Distinct<V>(t: Shape<V>) {
    t.Branch? ==>
      t.node !in Nodes(t.left) && t.node !in Nodes(t.right) && Nodes(t.left) !! Nodes(t.right) &&
      Distinct(t.left) && Distinct(t.right)
  }

  ghost predicate DistinctCtx<V>(c: Context<V>) {
    !c.Top? ==>
      c.node !in Nodes(Beside(c)) && c.node !in CtxNodes(c.up) && Nodes(Beside(c)) !! CtxNodes(c.up) &&
      Distinct(Beside(c)) && DistinctCtx(c.up)
  }

  lemma {:induction false} DistinctPlug<V>(c: Context<V>, t: Shape<V>)
    ensures Distinct(Plug(c, t)) <==> Distinct(t) && DistinctCtx(c) && Nodes(t) !! CtxNodes(c)
    decreases c
  {
    if !c.Top? {
      DistinctPlug(c.up, Close(c, t));
      if c.InLeft? {
        assert Nodes(Close(c, t)) == {c.node} + Nodes(t) + Nodes(c.right);
      } else {
        assert Nodes(Close(c, t)) == {c.node} + Nodes(c.left) + Nodes(t);
      }
    }
  }

  // ----- recolouring one node

  ghost function Paint<V>(t: Shape<V>, n: Node<V>, col: Color): (t': Shape<V>)
    ensures n !in Nodes(t) ==> t' == t
    ensures RootOf(t') == RootOf(t) && Nodes(t') == Nodes(t) && Entries(t') == Entries(t)
    ensures Distinct(t) ==> Distinct(t')
  {
    match t
    case Leaf => Leaf
    case Branch(nd, c, l, k, v, r) =>
      Branch(nd, if nd == n then col else c, Paint(l, n, col), k, v, Paint(r, n, col))
  }

  ghost function PaintCtx<V>(c: Context<V>, n: Node<V>, col: Color): (c': Context<V>)
    ensures n !in CtxNodes(c) ==> c' == c
  {
    match c
    case Top => Top
    case InLeft(nd, pc, k, v, r, up) =>
      InLeft(nd, if nd == n then col else pc, k, v, Paint(r, n, col), PaintCtx(up, n, col))
    case InRight(nd, pc, l, k, v, up) =>
      InRight(nd, if nd == n then col else pc, Paint(l, n, col), k, v, PaintCtx(up, n, col))
  }

  lemma {:induction false} PaintPlug<V>(c: Context<V>, t: Shape<V>, n: Node<V>, col: Color)
    ensures Paint(Plug(c, t), n, col) == Plug(PaintCtx(c, n, col), Paint(t, n, col))
    decreases c
  {
    if !c.Top? {
      PaintPlug(c.up, Close(c, t), n, col);
    }
  }

  // ----- rotations

  ghost function RotatedLeft<V>(t: Shape<V>): Shape<V>
    requires t.Branch? && t.right.Branch?
  {
    var r := t.right;
    r.(left := t.(right := r.left))
  }

  ghost function RotatedRight<V>(t: Shape<V>): Shape<V>
    requires t.Branch? && t.left.Branch?
  {
    var l := t.left;
    l.(right := t.(left := l.right))
  }

  lemma Regroup<T>(a: seq<T>, x: seq<T>, b: seq<T>, y: seq<T>, c: seq<T>)
    ensures a + x + (b + y + c) == (a + x + b) + y + c
  {
  }

  lemma RotatedLeftEntries<V>(t: Shape<V>)
    requires t.Branch? && t.right.Branch?
    ensures Entries(RotatedLeft(t)) == Entries(t)
  {
    var r := t.right;
    Regroup(Entries(t.left), [Entry(t.key, t.value)], Entries(r.left), [Entry(r.key, r.value)], Entries(r.right));
  }

  lemma RotatedRightEntries<V>(t: Shape<V>)
    requires t.Branch? && t.left.Branch?
    ensures Entries(RotatedRight(t)) == Entries(t)
  {
    var l := t.left;
    Regroup(Entries(l.left), [Entry(l.key, l.value)], Entries(l.right), [Entry(t.key, t.value)], Entries(t.right));
  }

  lemma TurnedLeftEntries<V>(c: Context<V>, t: Shape<V>)
    requires t.Branch? && t.right.Branch?
    ensures Entries(Plug(c, RotatedLeft(t))) == Entries(Plug(c, t))
  {
    RotatedLeftEntries(t);
    PlugEntries(c, t);
    PlugEntries(c, RotatedLeft(t));
  }

  lemma TurnedRightEntries<V>(c: Context<V>, t: Shape<V>)
    requires t.Branch? && t.left.Branch?
    ensures Entries(Plug(c, RotatedRight(t))) == Entries(Plug(c, t))
  {
    RotatedRightEntries(t);
    PlugEntries(c, t);
    PlugEntries(c, RotatedRight(t));
  }

  lemma RotatedNodes<V>(t: Shape<V>)
    requires t.Branch? && Distinct(t)
    ensures t.right.Branch? ==> Nodes(RotatedLeft(t)) == Nodes(t) && Distinct(RotatedLeft(t))
    ensures t.left.Branch? ==> Nodes(RotatedRight(t)) == Nodes(t) && Distinct(RotatedRight(t))
  {
  }

  // ----- recolouring near the hole

  ghost function WithBeside<V>(c: Context<V>, s: Shape<V>): Context<V>
    requires !c.Top?
  {
    if c.InLeft? then c.(right := s) else c.(left := s)
  }

  /** The place of the sibling of the hole that holds `t`. */
  ghost function Across<V>(c: Context<V>, t: Shape<V>): Context<V>
    requires !c.Top?
  {
    if c.InLeft? then InRight(c.node, c.color, t, c.key, c.value, c.up)
    else InLeft(c.node, c.color, c.key, c.value, t, c.up)
  }

  lemma PaintRoot<V>(c: Context<V>, t: Shape<V>, col: Color)
    requires t.Branch? && Distinct(Plug(c, t))
    ensures Paint(Plug(c, t), t.node, col) == Plug(c, t.(color := col))
  {
    DistinctPlug(c, t);
    PaintPlug(c, t, t.node, col);
  }

  lemma PaintParent<V>(c: Context<V>, t: Shape<V>, col: Color)
    requires !c.Top? && Distinct(Plug(c, t))
    ensures Paint(Plug(c, t), c.node, col) == Plug(c.(color := col), t)
  {
    PaintRoot(c.up, Close(c, t), col);
  }

  lemma PaintBeside<V>(c: Context<V>, t: Shape<V>, col: Color)
    requires !c.Top? && Beside(c).Branch? && Distinct(Plug(c, t))
    ensures Paint(Plug(c, t), Beside(c).node, col) == Plug(WithBeside(c, Beside(c).(color := col)), t)
  {
    PaintRoot(Across(c, t), Beside(c), col);
  }

  lemma PaintLeftNephew<V>(c: Context<V>, t: Shape<V>, col: Color)
    requires !c.Top? && Beside(c).Branch? && Beside(c).left.Branch? && Distinct(Plug(c, t))
    ensures Paint(Plug(c, t), Beside(c).left.node, col) ==
            Plug(WithBeside(c, Beside(c).(left := Beside(c).left.(color := col))), t)
  {
    var s := Beside(c);
    PaintRoot(InLeft(s.node, s.color, s.key, s.value, s.right, Across(c, t)), s.left, col);
  }

  lemma PaintRightNephew<V>(c: Context<V>, t: Shape<V>, col: Color)
    requires !c.Top? && Beside(c).Branch? && Beside(c).right.Branch? && Distinct(Plug(c, t))
    ensures Paint(Plug(c, t), Beside(c).right.node, col) ==
            Plug(WithBeside(c, Beside(c).(right := Beside(c).right.(color := col))), t)
  {
    var s := Beside(c);
    PaintRoot(InRight(s.node, s.color, s.left, s.key, s.value, Across(c, t)), s.right, col);
  }

  // ----- walking down

  ghost function DownLeft<V>(c: Context<V>, t: Shape<V>): Context<V>
    requires t.Branch?
  {
    InLeft(t.node, t.color, t.key, t.value, t.right, c)
  }

  ghost function DownRight<V>(c: Context<V>, t: Shape<V>): Context<V>
    requires t.Branch?
  {
    InRight(t.node, t.color, t.left, t.key, t.value, c)
  }

  /** The hole of `c` is where `key` belongs. */
  ghost predicate Brackets<V>(c: Context<V>, key: int) {
    AllBelow(Before(c), key) && AllAbove(After(c), key)
  }

  lemma PlugAround<V>(c: Context<V>, t: Shape<V>)
    requires t.Branch?
    ensures Entries(Plug(c, t)) ==
            (Before(c) + Entries(t.left)) + [Entry(t.key, t.value)] + (Entries(t.right) + After(c))
  {
    PlugEntries(c, t);
  }

  /** Going left below a larger key, or right above a smaller one, keeps the hole where `key` belongs. */
  lemma Descend<V>(c: Context<V>, t: Shape<V>, key: int)
    requires t.Branch? && Sorted(Entries(Plug(c, t))) && Brackets(c, key)
    ensures key < t.key ==> Brackets(DownLeft(c, t), key)
    ensures t.key < key ==> Brackets(DownRight(c, t), key)
  {
    PlugAround(c, t);
    Around(Before(c) + Entries(t.left), Entry(t.key, t.value), Entries(t.right) + After(c));
    forall i | 0 <= i < |Entries(t.left)| ensures Entries(t.left)[i].key < t.key {
      assert (Before(c) + Entries(t.left))[|Before(c)| + i].key < t.key;
    }
    forall i | 0 <= i < |Entries(t.right)| ensures t.key < Entries(t.right)[i].key {
      assert t.key < (Entries(t.right) + After(c))[i].key;
    }
  }

  /** A search that ends at a subtree finds the key there or nowhere. */
  lemma LookedUp<V>(c: Context<V>, t: Shape<V>, key: int)
    requires Sorted(Entries(Plug(c, t))) && Brackets(c, key)
    requires t.Leaf? || t.key == key
    ensures t.Branch? <==> key in MapOf(Entries(Plug(c, t)))
    ensures t.Branch? ==> MapOf(Entries(Plug(c, t)))[key] == t.value
  {
    var es := Entries(Plug(c, t));
    PlugEntries(c, t);
    if t.Leaf? {
      MapOfKeys(es);
    } else {
      var i := |Before(c)| + |Entries(t.left)|;
      assert es[i] == Entry(t.key, t.value);
      MapOfAt(es, i);
    }
  }

  lemma OverwrittenEntries<V>(c: Context<V>, t: Shape<V>, value: V)
    requires t.Branch? && Sorted(Entries(Plug(c, t)))
    ensures var es, es' := Entries(Plug(c, t)), Entries(Plug(c, t.(value := value)));
      Sorted(es') && |es'| == |es| && MapOf(es') == MapOf(es)[t.key := value]
  {
    var a, e, b := Before(c) + Entries(t.left), Entry(t.key, t.value), Entries(t.right) + After(c);
    PlugAround(c, t);
    PlugAround(c, t.(value := value));
    Around(a, e, b);
    SortedPut(a, t.key, value, [e], b);
    MapOfPut(a, t.key, value, [e], b);
  }

  lemma AttachedEntries<V>(c: Context<V>, n: Node<V>, key: int, value: V)
    requires Sorted(Entries(Plug(c, Leaf))) && Brackets(c, key)
    ensures var es, es' := Entries(Plug(c, Leaf)), Entries(Plug(c, Branch(n, Red, Leaf, key, value, Leaf)));
      Sorted(es') && |es'| == |es| + 1 && MapOf(es') == MapOf(es)[key := value]
  {
    PlugEntries<V>(c, Leaf);
    assert Before(c) + [] + After(c) == Entries(Plug(c, Leaf));
    SortedPut(Before(c), key, value, [], After(c));
    MapOfPut(Before(c), key, value, [], After(c));
    PlugEntries(c, Branch(n, Red, Leaf, key, value, Leaf));
    assert Entries(Branch(n, Red, Leaf, key, value, Leaf)) == [Entry(key, value)];
  }

  /** The rightmost subtree of `t`, and its context. */
  ghost function MaxSub<V>(t: Shape<V>): (r: Shape<V>)
    requires t.Branch?
    ensures r.Branch? && r.right.Leaf?
  {
    if t.right.Leaf? then t else MaxSub(t.right)
  }

  ghost function MaxCtx<V>(c: Context<V>, t: Shape<V>): Context<V>
    requires t.Branch?
    decreases t
  {
    if t.right.Leaf? then c else MaxCtx(DownRight(c, t), t.right)
  }

  lemma {:induction false} MaxPath<V>(c: Context<V>, t: Shape<V>)
    requires t.Branch?
    ensures Plug(MaxCtx(c, t), MaxSub(t)) == Plug(c, t)
    ensures After(MaxCtx(c, t)) == After(c)
    ensures Before(MaxCtx(c, t)) + Entries(MaxSub(t)) == Before(c) + Entries(t)
    decreases t
  {
    if t.right.Branch? {
      MaxPath(DownRight(c, t), t.right);
    }
  }

  /** The entries of the whole tree, save the one at the root of `t`. */
  ghost function Rest<V>(c: Context<V>, t: Shape<V>): seq<Entry<V>>
    requires t.Branch?
  {
    (Before(c) + Entries(t.left)) + (Entries(t.right) + After(c))
  }

  /** Leaving out the entry at the root of `t` removes its key. */
  lemma RestRemoves<V>(c: Context<V>, t: Shape<V>)
    requires t.Branch? && Sorted(Entries(Plug(c, t)))
    ensures var es, es' := Entries(Plug(c, t)), Rest(c, t);
      Sorted(es') && |es'| == |es| - 1 && MapOf(es') == MapOf(es) - {t.key}
  {
    PlugAround(c, t);
    MapOfRemove(Before(c) + Entries(t.left), Entry(t.key, t.value), Entries(t.right) + After(c));
  }

  /** A node with at most one child is left out by putting that child in its place. */
  lemma RestOfLone<V>(c: Context<V>, c': Context<V>, t: Shape<V>, x: Shape<V>)
    requires t.Branch? && ((t.left.Leaf? && x == t.right) || (t.right.Leaf? && x == t.left))
    requires Before(c') == Before(c) && After(c') == After(c)
    ensures Entries(Plug(c', x)) == Rest(c, t)
  {
    PlugEntries(c', x);
    Squeeze(Before(c), Entries(x), After(c));
  }

  lemma Squeeze<T>(a: seq<T>, b: seq<T>, z: seq<T>)
    ensures (a + []) + (b + z) == a + b + z
    ensures (a + b) + ([] + z) == a + b + z
  {
  }

  /** Once the root of `t` repeats its predecessor's entry, the predecessor can go in its place. */
  lemma RestOfPredecessor<V>(c: Context<V>, t: Shape<V>)
    requires t.Branch? && t.left.Branch?
    ensures var p := MaxSub(t.left);
      var u := t.(key := p.key, value := p.value);
      var d := MaxCtx(DownLeft(c, u), t.left);
      Plug(d, p) == Plug(c, u) && Rest(d, p) == Rest(c, t)
  {
    var p := MaxSub(t.left);
    var e := [Entry(p.key, p.value)];
    var u := t.(key := p.key, value := p.value);
    var d := MaxCtx(DownLeft(c, u), t.left);
    MaxPath(DownLeft(c, u), t.left);
    assert Entries(p) == Entries(p.left) + e;
    Shuffle(Before(d), Entries(p.left), e, Before(c) + Entries(t.left), Entries(t.right) + After(c), After(d));
  }

  lemma Shuffle<T>(a: seq<T>, b: seq<T>, e: seq<T>, l: seq<T>, r: seq<T>, z: seq<T>)
    requires a + (b + e) == l && z == e + r
    ensures (a + b) + ([] + z) == l + r
  {
    assert (a + b) + (e + r) == (a + (b + e)) + r;
  }
}
