/** Reading depth snapshots off the order book, by walking its trees with a cursor. */
module OrderDepth {
  import opened MarketDepth
  import opened MatchingModel
  import opened MatchingRuns
  import opened OrderBooks
  import opened OrderQueue
  import opened RedBlackIterator
  import opened RedBlackShape
  import opened RedBlackTree

  /** The tree entries in the order in which a side is read: best price first. */
  ghost function Reading(es: seq<Entry<PriceLevel>>, side: Side): (r: seq<Entry<PriceLevel>>)
    ensures |r| == |es| && forall i :: 0 <= i < |es| ==> r[i] == if side == Sell then es[i] else es[|es| - 1 - i]
  {
    seq(|es|, i requires 0 <= i < |es| => if side == Sell then es[i] else es[|es| - 1 - i])
  }

  ghost function LevelsOf(r: seq<Entry<PriceLevel>>): (ls: seq<DepthLevel>)
    reads set i | 0 <= i < |r| :: r[i].value
    ensures |ls| == |r| && forall i :: 0 <= i < |r| ==> ls[i] == DepthLevel(r[i].value.price, r[i].value.volume)
  {
    if r == [] then [] else LevelsOf(r[..|r| - 1]) + [DepthLevel(r[|r| - 1].value.price, r[|r| - 1].value.volume)]
  }

  lemma {:induction false} VolumeOfVals(q: seq<Order>, p: int)
    ensures LevelVolume(q, p) == VolumeAt(Vals(q), p)
  {
    if q != [] {
      VolumeOfVals(q[1..], p);
    }
  }

  lemma WiredSorted(m: map<int, PriceLevel>, levels: set<PriceLevel>, q: seq<Order>, side: Side)
    requires Wired(m, levels, q, side, {})
    ensures SortedByPrice(side, Vals(q))
    ensures forall p :: p in m <==> HasPrice(Vals(q), p)
  {
    forall i, j | 0 <= i < j < |q| ensures !BetterPrice(side, Vals(q)[j].price, Vals(q)[i].price) {
      assert Precedes(side, q[i], q[j]);
    }
    forall p | p in m ensures HasPrice(Vals(q), p) {
      AtPriceMember(q, p);
      var i :| 0 <= i < |q| && q[i] == AtPrice(q, p)[0];
      assert Vals(q)[i].price == p;
    }
    forall p | HasPrice(Vals(q), p) ensures p in m {
      var i :| 0 <= i < |q| && Vals(q)[i].price == p;
      assert Queued(m, side, q[i]);
    }
  }

  lemma TreeEntries(tree: Tree<PriceLevel>)
    requires tree.Valid()
    ensures Sorted(Entries(tree.shape)) && MapOf(Entries(tree.shape)) == tree.Model()
  {
  }

  /** One level as read: its price, its orders and its volume. */
  lemma LevelRead(es: seq<Entry<PriceLevel>>, levels: set<PriceLevel>, q: seq<Order>, side: Side, i: nat)
    requires Sorted(es) && Wired(MapOf(es), levels, q, side, {}) && i < |es|
    ensures var e := Reading(es, side)[i];
      && e.value in levels && e.value.orders != [] && e.value.price == e.key
      && HasPrice(Vals(q), e.key) && e.value.volume == VolumeAt(Vals(q), e.key)
  {
    hide Wired;
    hide Vals;
    hide HasPrice;
    hide VolumeAt;
    hide MapOf;
    MapOfAt(es, if side == Sell then i else |es| - 1 - i);
    LevelAtPrice(MapOf(es), levels, q, side, Reading(es, side)[i].key);
  }

  lemma LevelAtPrice(m: map<int, PriceLevel>, levels: set<PriceLevel>, q: seq<Order>, side: Side, p: int)
    requires Wired(m, levels, q, side, {}) && p in m
    ensures m[p] in levels && m[p].orders != [] && m[p].price == p
    ensures HasPrice(Vals(q), p) && m[p].volume == VolumeAt(Vals(q), p)
  {
    hide HasPrice;
    hide VolumeAt;
    hide Vals;
    WiredSorted(m, levels, q, side);
    VolumeOfVals(q, p);
  }

  /** The levels in the tree are the resting orders grouped by price. */
  lemma LevelsGroup(es: seq<Entry<PriceLevel>>, levels: set<PriceLevel>, q: seq<Order>, side: Side)
    requires Sorted(es) && Wired(MapOf(es), levels, q, side, {})
    ensures LevelsOf(Reading(es, side)) == Grouped(Vals(q))
    ensures forall i :: 0 <= i < |es| ==> Reading(es, side)[i].value.orders != []
  {
    hide Wired;
    hide Vals;
    hide Sorted;
    var ls := LevelsOf(Reading(es, side));
    forall i | 0 <= i < |es|
      ensures Reading(es, side)[i].value.orders != [] && HasPrice(Vals(q), ls[i].price)
      ensures ls[i].volume == VolumeAt(Vals(q), ls[i].price)
    {
      LevelRead(es, levels, q, side, i);
    }
    LevelsCover(es, levels, q, side);
    LevelsBestFirst(es, levels, q, side);
    WiredSorted(MapOf(es), levels, q, side);
    GroupedGroups(side, Vals(q));
    GroupsOnce(side, Vals(q), ls, Grouped(Vals(q)));
  }

  lemma LevelsBestFirst(es: seq<Entry<PriceLevel>>, levels: set<PriceLevel>, q: seq<Order>, side: Side)
    requires Sorted(es) && Wired(MapOf(es), levels, q, side, {})
    ensures BestFirst(side, LevelsOf(Reading(es, side)))
  {
    hide Wired;
    var r := Reading(es, side);
    forall i, j | 0 <= i < j < |r| ensures BetterPrice(side, LevelsOf(r)[i].price, LevelsOf(r)[j].price) {
      LevelRead(es, levels, q, side, i);
      LevelRead(es, levels, q, side, j);
    }
  }

  lemma LevelsCover(es: seq<Entry<PriceLevel>>, levels: set<PriceLevel>, q: seq<Order>, side: Side)
    requires Sorted(es) && Wired(MapOf(es), levels, q, side, {})
    ensures var ls := LevelsOf(Reading(es, side)); forall p :: HasPrice(Vals(q), p) ==> HasLevel(ls, p)
  {
    hide Wired;
    hide MapOf;
    var ls := LevelsOf(Reading(es, side));
    forall p | HasPrice(Vals(q), p) ensures HasLevel(ls, p) {
      var i := LevelAt(es, levels, q, side, p);
      assert ls[i].price == p;
    }
  }

  lemma LevelAt(es: seq<Entry<PriceLevel>>, levels: set<PriceLevel>, q: seq<Order>, side: Side, p: int) returns (i: nat)
    requires Sorted(es) && Wired(MapOf(es), levels, q, side, {}) && HasPrice(Vals(q), p)
    ensures i < |LevelsOf(Reading(es, side))| && LevelsOf(Reading(es, side))[i].price == p
  {
    hide Wired;
    hide Vals;
    hide HasPrice;
    hide MapOf;
    hide Sorted;
    var k := KeyAt(es, levels, q, side, p);
    i := if side == Sell then k else |es| - 1 - k;
    LevelRead(es, levels, q, side, i);
  }

  lemma KeyAt(es: seq<Entry<PriceLevel>>, levels: set<PriceLevel>, q: seq<Order>, side: Side, p: int) returns (k: nat)
    requires Wired(MapOf(es), levels, q, side, {}) && HasPrice(Vals(q), p)
    ensures k < |es| && es[k].key == p
  {
    hide Wired;
    hide Vals;
    hide HasPrice;
    hide MapOf;
    hide Sorted;
    WiredSorted(MapOf(es), levels, q, side);
    MapOfKeys(es);
    k :| 0 <= k < |es| && es[k].key == p;
  }

  /** One step in the reading direction of a side. */
  method Advance(it: Iterator<PriceLevel>, ascending: bool) returns (more: bool)
    requires it.Valid()
    modifies it
    ensures it.Valid() && more == (it.position == Between) && more == (0 <= it.Index() < |Entries(it.tree.shape)|)
    ensures ascending && old(it.Index()) < |Entries(it.tree.shape)| ==> it.Index() == old(it.Index()) + 1
    ensures !ascending && 0 <= old(it.Index()) ==> it.Index() == old(it.Index()) - 1
  {
    if it.position == Between { it.AtIndex(); }
    if ascending {
      more := it.Next();
    } else {
      more := it.Prev();
    }
    if it.position == Between { it.AtIndex(); }
  }

  /** How many entries have been read when the cursor stands at `index`, itself not counted. */
  function Read(ascending: bool, index: int, n: nat): int {
    if ascending then index else n - 1 - index
  }

  /** A cursor that has nothing behind it yet, and its first step. */
  method FirstLevel(tree: Tree<PriceLevel>, ascending: bool) returns (it: Iterator<PriceLevel>, more: bool)
    requires tree.Valid()
    ensures fresh(it) && it.tree == tree && it.Valid() && Read(ascending, it.Index(), |Entries(tree.shape)|) == 0
    ensures more == (it.position == Between) && more == (0 < |Entries(tree.shape)|)
  {
    hide Tree.Valid;
    hide Iterator.Valid;
    hide Iterator.Index;
    it := new Iterator(tree);
    if ascending {
      it.ToBegin();
    } else {
      it.ToEnd();
    }
    more := Advance(it, ascending);
  }

  /** The level at the cursor, which then moves on. */
  method NextLevel(it: Iterator<PriceLevel>, ascending: bool, ghost k: nat) returns (level: PriceLevel, more: bool)
    requires it.Valid() && it.position == Between && Read(ascending, it.Index(), |Entries(it.tree.shape)|) == k
    modifies it
    ensures
      && k < |Entries(it.tree.shape)|
      && level == Reading(Entries(it.tree.shape), if ascending then Sell else Buy)[k].value
    ensures it.Valid() && Read(ascending, it.Index(), |Entries(it.tree.shape)|) == k + 1
    ensures more == (it.position == Between) && more == (k + 1 < |Entries(it.tree.shape)|)
  {
    hide Tree.Valid;
    hide Iterator.Valid;
    hide Iterator.Index;
    level := it.Value();
    more := Advance(it, ascending);
  }

  /** Walks a side's tree into aggregated levels, at most `maxLevels` of them if that is positive. */
  method CollectLevels(tree: Tree<PriceLevel>, ascending: bool, maxLevels: int, ghost levels: set<PriceLevel>,
          ghost q: seq<Order>)
      returns (out: seq<DepthLevel>)
    requires tree.Valid() && Wired(tree.Model(), levels, q, if ascending then Sell else Buy, {})
    ensures out == Cut(Grouped(Vals(q)), maxLevels)
  {
    hide Tree.Valid;
    hide Wired;
    hide Iterator.Valid;
    hide Read;
    hide Grouped;
    hide Vals;
    hide MapOf;
    hide Sorted;
    hide Entries;
    hide LevelsOf;
    hide Reading;
    hide LevelOk;
    ghost var r := Reading(Entries(tree.shape), if ascending then Sell else Buy);
    ghost var ls := Grouped(Vals(q));
    TreeEntries(tree);
    LevelsGroup(Entries(tree.shape), levels, q, if ascending then Sell else Buy);
    assert LevelsOf(r) == ls;
    var it, more := FirstLevel(tree, ascending);
    out := [];
    while more
      invariant fresh(it) && it.tree == tree && it.Valid() && more == (it.position == Between)
      invariant Read(ascending, it.Index(), |Entries(tree.shape)|) == |out| <= |ls| && more == (|out| < |ls|)
      invariant out == ls[..|out|] && (0 < maxLevels ==> |out| < maxLevels)
      decreases |ls| - |out|
      modifies it
    {
      var level;
      level, more := NextLevel(it, ascending, |out|);
      assert level == r[|out|].value && ls[|out|] == DepthLevel(level.price, level.volume) && level.orders != [];
      if !level.Empty() {
        out := out + [DepthLevel(level.price, level.volume)];
        if maxLevels > 0 && |out| == maxLevels {
          return;
        }
      }
    }
  }

  /** Up to `maxLevels` levels of either side: exactly the snapshot of the simple matcher's book. */
  method TakeSnapshot(book: OrderBook, maxLevels: int) returns (d: Depth)
    requires book.Valid()
    ensures d == MarketDepth.Snapshot(book.View(), maxLevels)
  {
    hide Tree.Valid;
    hide Wired;
    hide Indexed;
    hide BookOk;
    hide Grouped;
    hide Cut;
    var bids := CollectLevels(book.bids, false, maxLevels, book.bidLevels, book.bidQueue);
    var asks := CollectLevels(book.asks, true, maxLevels, book.askLevels, book.askQueue);
    d := Depth(book.version, bids, asks);
  }
}
