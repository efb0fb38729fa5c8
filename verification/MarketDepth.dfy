/** The aggregated view of a book: what rests at each price, best price first. */
module MarketDepth {
  import opened MatchingModel
  import opened MatchingFills
  import opened MatchingRuns

  datatype DepthLevel = DepthLevel(price: int, volume: int)

  datatype Depth = Depth(version: nat, bids: seq<DepthLevel>, asks: seq<DepthLevel>)

  /** The sum of what the orders at one price still want. */
  function VolumeAt(q: seq<Ord>, p: int): int {
    if q == [] then 0 else (if q[0].price == p then q[0].Remaining() else 0) + VolumeAt(q[1..], p)
  }

  ghost predicate HasPrice(q: seq<Ord>, p: int) {
    exists i :: 0 <= i < |q| && q[i].price == p
  }

  ghost predicate HasLevel(ls: seq<DepthLevel>, p: int) {
    exists i :: 0 <= i < |ls| && ls[i].price == p
  }

  ghost predicate BestFirst(side: Side, ls: seq<DepthLevel>) {
    forall i, j :: 0 <= i < j < |ls| ==> BetterPrice(side, ls[i].price, ls[j].price)
  }

  /**
   The levels are the resting orders grouped by price: best first, one level for each price at
   which something rests and none besides, with the sum of what rests there.
   */
  ghost predicate Groups(side: Side, q: seq<Ord>, ls: seq<DepthLevel>) {
    && BestFirst(side, ls)
    && (forall i :: 0 <= i < |ls| ==> HasPrice(q, ls[i].price) && ls[i].volume == VolumeAt(q, ls[i].price))
    && (forall p :: HasPrice(q, p) ==> HasLevel(ls, p))
  }

  /** A queue has one grouping only. */
  lemma {:induction false} GroupsOnce(side: Side, q: seq<Ord>, a: seq<DepthLevel>, b: seq<DepthLevel>)
    requires Groups(side, q, a) && Groups(side, q, b)
    ensures a == b
  {
    if |a| <= |b| {
      SamePrefix(side, q, a, b, |a|);
      NothingBeyond(side, q, b, a);
    } else {
      SamePrefix(side, q, b, a, |b|);
      NothingBeyond(side, q, a, b);
    }
  }

  lemma {:induction false} SamePrefix(side: Side, q: seq<Ord>, a: seq<DepthLevel>, b: seq<DepthLevel>, n: nat)
    requires Groups(side, q, a) && Groups(side, q, b) && n <= |a| && n <= |b|
    ensures a[..n] == b[..n]
    decreases n
  {
    if n > 0 {
      SamePrefix(side, q, a, b, n - 1);
      NotBetter(side, q, a, b, n - 1);
      NotBetter(side, q, b, a, n - 1);
      assert a[n - 1] == b[n - 1];
      assert a[..n] == a[..n - 1] + [a[n - 1]] && b[..n] == b[..n - 1] + [b[n - 1]];
    }
  }

  /** After equal prefixes the next level of one grouping is not better than that of the other. */
  lemma NotBetter(side: Side, q: seq<Ord>, a: seq<DepthLevel>, b: seq<DepthLevel>, n: nat)
    requires Groups(side, q, a) && Groups(side, q, b) && n < |a| && n < |b| && a[..n] == b[..n]
    ensures !BetterPrice(side, a[n].price, b[n].price)
  {
    assert HasPrice(q, a[n].price) && HasLevel(b, a[n].price);
    var j :| 0 <= j < |b| && b[j].price == a[n].price;
    forall i | 0 <= i < n ensures b[i].price != a[n].price {
      assert b[..n][i] == a[..n][i] && BetterPrice(side, a[i].price, a[n].price);
    }
    if j > n {
      assert BetterPrice(side, b[n].price, b[j].price);
    }
  }

  /** A grouping that begins like another one has nothing beyond it. */
  lemma NothingBeyond(side: Side, q: seq<Ord>, long: seq<DepthLevel>, short: seq<DepthLevel>)
    requires Groups(side, q, long) && Groups(side, q, short) && |short| <= |long| && short == long[..|short|]
    ensures short == long
  {
    var n := |short|;
    if long != [] {
      var i := |long| - 1;
      assert HasPrice(q, long[i].price) && HasLevel(short, long[i].price);
      forall x | 0 <= x < i ensures long[x].price != long[i].price {
        assert BetterPrice(side, long[x].price, long[i].price);
      }
      var j :| 0 <= j < n && short[j].price == long[i].price;
      assert long[..n][j] == long[j];
    }
  }

  // ----- grouping a sorted queue

  /** The orders that are not at price `p`. */
  function Off(q: seq<Ord>, p: int): (r: seq<Ord>)
    ensures |r| <= |q|
  {
    if q == [] then [] else (if q[0].price == p then [] else [q[0]]) + Off(q[1..], p)
  }

  function Grouped(q: seq<Ord>): seq<DepthLevel>
    decreases |q|
  {
    if q == [] then []
    else [DepthLevel(q[0].price, VolumeAt(q, q[0].price))] + Grouped(Off(q[1..], q[0].price))
  }

  lemma {:induction false} OffMembers(q: seq<Ord>, p: int)
    ensures forall x :: HasPrice(Off(q, p), x) <==> HasPrice(q, x) && x != p
    ensures forall x :: x != p ==> VolumeAt(Off(q, p), x) == VolumeAt(q, x)
    ensures forall o :: o in Off(q, p) ==> o in q && o.price != p
  {
    if q != [] {
      var rest, r := Off(q[1..], p), Off(q, p);
      OffMembers(q[1..], p);
      assert if q[0].price == p then r == rest else r[0] == q[0] && r[1..] == rest;
      forall x ensures HasPrice(r, x) <==> HasPrice(q, x) && x != p {
        HasPriceCons(q, x);
        if q[0].price != p { HasPriceCons(r, x); }
      }
    }
  }

  lemma HasPriceCons(q: seq<Ord>, x: int)
    requires q != []
    ensures HasPrice(q, x) <==> q[0].price == x || HasPrice(q[1..], x)
  {
    if HasPrice(q[1..], x) {
      var i :| 0 <= i < |q[1..]| && q[1..][i].price == x;
      assert q[i + 1].price == x;
    }
    if HasPrice(q, x) && q[0].price != x {
      var i :| 0 <= i < |q| && q[i].price == x;
      assert q[1..][i - 1].price == x;
    }
  }

  ghost predicate SortedByPrice(side: Side, q: seq<Ord>) {
    forall i, j :: 0 <= i < j < |q| ==> !BetterPrice(side, q[j].price, q[i].price)
  }

  lemma {:induction false} OffSorted(side: Side, q: seq<Ord>, p: int)
    requires SortedByPrice(side, q)
    ensures SortedByPrice(side, Off(q, p))
  {
    if q != [] {
      OffSorted(side, q[1..], p);
      OffMembers(q[1..], p);
      var r := Off(q, p);
      forall i, j | 0 <= i < j < |r| ensures !BetterPrice(side, r[j].price, r[i].price) {
        if q[0].price != p && i == 0 {
          assert r[j] in Off(q[1..], p);
          var k :| 0 <= k < |q[1..]| && q[1..][k] == r[j];
          assert q[k + 1] == r[j];
        }
      }
    }
  }

  /** The groups of what is off the best price come after it, and are groups of the whole queue. */
  lemma GroupsOff(side: Side, q: seq<Ord>, off: seq<Ord>, g: seq<DepthLevel>)
    requires q != [] && SortedByPrice(side, q) && off == Off(q[1..], q[0].price) && Groups(side, off, g)
    ensures forall i :: 0 <= i < |g| ==>
      BetterPrice(side, q[0].price, g[i].price) && HasPrice(q, g[i].price) && g[i].volume == VolumeAt(q, g[i].price)
    ensures forall x :: HasPrice(q, x) && x != q[0].price ==> HasLevel(g, x)
  {
    OffMembers(q[1..], q[0].price);
    forall i | 0 <= i < |g|
      ensures
        && BetterPrice(side, q[0].price, g[i].price) && HasPrice(q, g[i].price)
        && g[i].volume == VolumeAt(q, g[i].price)
    {
      HasPriceCons(q, g[i].price);
      assert HasPrice(off, g[i].price);
      var k :| 0 <= k < |q| && q[k].price == g[i].price;
      assert k > 0 ==> !BetterPrice(side, q[k].price, q[0].price);
    }
    forall x | HasPrice(q, x) && x != q[0].price ensures HasLevel(g, x) {
      HasPriceCons(q, x);
      assert HasPrice(off, x);
    }
  }

  /** Grouping a queue front to back gives the groups of the queue. */
  lemma {:induction false} GroupedGroups(side: Side, q: seq<Ord>)
    requires SortedByPrice(side, q)
    ensures Groups(side, q, Grouped(q))
    decreases |q|
  {
    if q != [] {
      var off := Off(q[1..], q[0].price);
      var ls, g := Grouped(q), Grouped(off);
      OffSorted(side, q[1..], q[0].price);
      GroupedGroups(side, off);
      GroupsOff(side, q, off, g);
      assert HasPrice(q, q[0].price);
      forall x | HasPrice(q, x) ensures HasLevel(ls, x) {
        if x == q[0].price {
          assert ls[0].price == x;
        } else {
          assert HasLevel(g, x);
          var i :| 0 <= i < |g| && g[i].price == x;
          assert ls[i + 1].price == x;
        }
      }
    }
  }

  lemma {:induction false} VolumePositive(q: seq<Ord>, p: int)
    requires Unfilled(q)
    ensures VolumeAt(q, p) >= 0 && (HasPrice(q, p) ==> VolumeAt(q, p) > 0)
  {
    if q != [] {
      HasPriceCons(q, p);
      VolumePositive(q[1..], p);
    }
  }

  // ----- snapshots

  /** The first `max` levels, or all of them if `max` is not positive. */
  function Cut(ls: seq<DepthLevel>, max: int): seq<DepthLevel> {
    if 0 < max < |ls| then ls[..max] else ls
  }

  function Snapshot(b: Book, max: int): Depth {
    Depth(b.version, Cut(Grouped(b.bids), max), Cut(Grouped(b.asks), max))
  }

  /** A snapshot of a well-formed book is strictly monotone, has positive volumes and is uncrossed. */
  lemma SnapshotShape(b: Book, max: int)
    requires BookOk(b)
    ensures var d := Snapshot(b, max);
      && BestFirst(Buy, d.bids) && BestFirst(Sell, d.asks)
      && (forall i :: 0 <= i < |d.bids| ==> d.bids[i].volume > 0)
      && (forall i :: 0 <= i < |d.asks| ==> d.asks[i].volume > 0)
      && (forall i, j :: 0 <= i < |d.bids| && 0 <= j < |d.asks| ==> d.bids[i].price < d.asks[j].price)
  {
    LevelsShape(Buy, b.bids, b.seqNo);
    LevelsShape(Sell, b.asks, b.seqNo);
    Uncrossed(b);
    var bids, asks := Grouped(b.bids), Grouped(b.asks);
    forall i, j | 0 <= i < |bids| && 0 <= j < |asks| ensures bids[i].price < asks[j].price {
      var x :| 0 <= x < |b.bids| && b.bids[x].price == bids[i].price;
      var y :| 0 <= y < |b.asks| && b.asks[y].price == asks[j].price;
    }
  }

  lemma LevelsShape(side: Side, q: seq<Ord>, seqNo: nat)
    requires QueueOk(side, q, seqNo)
    ensures Groups(side, q, Grouped(q)) && forall i :: 0 <= i < |Grouped(q)| ==> Grouped(q)[i].volume > 0
  {
    assert SortedByPrice(side, q) by {
      forall i, j | 0 <= i < j < |q| ensures !BetterPrice(side, q[j].price, q[i].price) {
        assert Ahead(side, q[i], q[j]);
      }
    }
    GroupedGroups(side, q);
    forall i | 0 <= i < |q| ensures q[i].Remaining() > 0 { assert MayRest(side, q[i], seqNo); }
    forall i | 0 <= i < |Grouped(q)| ensures Grouped(q)[i].volume > 0 { VolumePositive(q, Grouped(q)[i].price); }
  }

  /** What one side of a snapshot shows of a grouping: all of it, or the best `max` levels, if that is positive. */
  ghost predicate Displays(side: Side, g: seq<DepthLevel>, max: int, shown: seq<DepthLevel>) {
    && (max <= 0 ==> shown == g)
    && (max > 0 ==> shown <= g && |shown| == if max < |g| then max else |g|)
    && forall i, j :: 0 <= i < |shown| <= j < |g| ==>
         if side == Buy then shown[i].price > g[j].price else shown[i].price < g[j].price
  }

  /** The snapshot shows the groupings of both queues, best levels first, and the version of the book. */
  lemma SnapshotShows(b: Book, max: int, bids: seq<DepthLevel>, asks: seq<DepthLevel>)
    requires BookOk(b) && Groups(Buy, b.bids, bids) && Groups(Sell, b.asks, asks)
    ensures var d := Snapshot(b, max);
      Displays(Buy, bids, max, d.bids) && Displays(Sell, asks, max, d.asks) && d.version == b.version
  {
    LevelsShape(Buy, b.bids, b.seqNo);
    LevelsShape(Sell, b.asks, b.seqNo);
    GroupsOnce(Buy, b.bids, bids, Grouped(b.bids));
    GroupsOnce(Sell, b.asks, asks, Grouped(b.asks));
  }

  function TotalVolume(ls: seq<DepthLevel>): int {
    if ls == [] then 0 else ls[0].volume + TotalVolume(ls[1..])
  }

  lemma {:induction false} OffSize(q: seq<Ord>, p: int)
    ensures Size(Off(q, p)) + VolumeAt(q, p) == Size(q)
  {
    if q != [] {
      OffSize(q[1..], p);
      assert if q[0].price == p then Off(q, p) == Off(q[1..], p) else Off(q, p)[1..] == Off(q[1..], p);
    }
  }

  /** Nothing that rests is lost or counted twice: the volumes of all levels add up to what the orders still want. */
  lemma {:induction false} VolumesAddUp(q: seq<Ord>)
    ensures TotalVolume(Grouped(q)) == Size(q)
    decreases |q|
  {
    if q != [] {
      OffSize(q[1..], q[0].price);
      VolumesAddUp(Off(q[1..], q[0].price));
      var rest := Grouped(Off(q[1..], q[0].price));
      assert Grouped(q)[1..] == rest;
    }
  }

  /** Within a run, the same version shows the same depth. */
  lemma SameVersionSameDepth(b: Book, ops: seq<Op>, max: int)
    requires Run(b, ops).version == b.version
    ensures Snapshot(Run(b, ops), max) == Snapshot(b, max)
  {
    SameVersionSameQueues(b, ops);
  }
}
