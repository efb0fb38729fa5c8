/**
 The order book of internal/matching: two red-black trees of price levels, an index of the
 resting orders by id and two counters. Its methods are proved to do what the simple matcher
 of MatchingModel does.
 */
module OrderBooks {
  import opened Wrappers
  import opened MatchingModel
  import opened MatchingFills
  import opened MatchingRuns
  import opened OrderQueue
  import opened RedBlackTree

  datatype CancelError = OrderNotResting

  /** An id is indexed exactly when its order is in a queue. */
  ghost predicate Indexed(orders: map<string, Order>, bidQueue: seq<Order>, askQueue: seq<Order>) {
    && (forall i :: 0 <= i < |bidQueue| ==> bidQueue[i].id in orders && orders[bidQueue[i].id] == bidQueue[i])
    && (forall i :: 0 <= i < |askQueue| ==> askQueue[i].id in orders && orders[askQueue[i].id] == askQueue[i])
    && (forall id :: id in orders ==> orders[id].id == id && (orders[id] in bidQueue || orders[id] in askQueue))
  }

  /** Which queue is which does not matter to the index. */
  lemma IndexedSwap(orders: map<string, Order>, p: seq<Order>, q: seq<Order>)
    requires Indexed(orders, p, q)
    ensures Indexed(orders, q, p)
  {
  }

  lemma IndexedDropped(orders: map<string, Order>, q: seq<Order>, r: seq<Order>, o: Order)
    requires Indexed(orders, q, r) && o in q && NoRepeats(q) && o !in r
    ensures Indexed(orders - {o.id}, Dropped(q, o), r)
  {
    var k := DroppedOthers(q, o);
    var q' := Dropped(q, o);
    forall i | 0 <= i < |q'| ensures q'[i].id in orders - {o.id} && orders[q'[i].id] == q'[i] {
      assert q'[i] == q[if i < k then i else i + 1];
    }
    forall id | id in orders - {o.id} ensures orders[id] in q' || orders[id] in r {
      if orders[id] in q {
        var j :| 0 <= j < |q| && q[j] == orders[id];
        assert q'[if j < k then j else j - 1] == q[j];
      }
    }
  }

  lemma IndexedInserted(orders: map<string, Order>, q: seq<Order>, r: seq<Order>, o: Order, side: Side)
    requires Indexed(orders, q, r) && o.id !in orders
    ensures Indexed(orders[o.id := o], Inserted(side, q, o), r)
  {
    var k := InsertedPlace(side, q, o);
    var q' := Inserted(side, q, o);
    assert q'[k] == o;
    forall i | 0 <= i < |q'| ensures q'[i].id in orders[o.id := o] && orders[o.id := o][q'[i].id] == q'[i] {
      assert q'[i] == if i < k then q[i] else if i == k then o else q[i - 1];
    }
    forall id | id in orders ensures orders[id] in q' || orders[id] in r {
      if orders[id] in q {
        var j :| 0 <= j < |q| && q[j] == orders[id];
        assert q'[if j < k then j else j + 1] == q[j];
      }
    }
  }

  lemma IndexedDroppedLast(orders: map<string, Order>, p: seq<Order>, q: seq<Order>, o: Order)
    requires Indexed(orders, p, q) && o in q && NoRepeats(q) && o !in p
    ensures Indexed(orders - {o.id}, p, Dropped(q, o))
  {
    IndexedSwap(orders, p, q);
    IndexedDropped(orders, q, p, o);
    IndexedSwap(orders - {o.id}, Dropped(q, o), p);
  }

  lemma IndexedInsertedLast(orders: map<string, Order>, p: seq<Order>, q: seq<Order>, o: Order, side: Side)
    requires Indexed(orders, p, q) && o.id !in orders
    ensures Indexed(orders[o.id := o], p, Inserted(side, q, o))
  {
    IndexedSwap(orders, p, q);
    IndexedInserted(orders, q, p, o, side);
    IndexedSwap(orders[o.id := o], Inserted(side, q, o), p);
  }

  /** An order whose id is not indexed is in neither queue. */
  lemma IndexedOnly(orders: map<string, Order>, p: seq<Order>, q: seq<Order>, o: Order)
    requires Indexed(orders, p, q) && o.id !in orders
    ensures o !in p && o !in q
  {
  }

  // ----- the queues of orders in the heap, and the queues of the simple matcher

  lemma {:induction false} ValsInserted(side: Side, q: seq<Order>, o: Order)
    ensures Vals(Inserted(side, q, o)) == Insert(side, Vals(q), o.Val())
  {
    if q == [] || BetterPrice(side, o.price, q[0].price) {
      assert ([o] + q)[1..] == q;
    } else {
      ValsInserted(side, q[1..], o);
      assert ([q[0]] + Inserted(side, q[1..], o))[1..] == Inserted(side, q[1..], o);
    }
  }

  lemma DroppedLater(q: seq<Order>, o: Order)
    requires o in q && q[0] != o && DistinctIds(Vals(q))
    ensures o in q[1..] && q[0].id != o.id && Vals(q[1..]) == Vals(q)[1..] && DistinctIds(Vals(q[1..]))
  {
    var i :| 0 < i < |q| && q[i] == o;
    assert q[1..][i - 1] == o;
    assert Vals(q)[0].id != Vals(q)[i].id;
    forall a, b | 0 <= a < b < |q[1..]| ensures Vals(q[1..])[a].id != Vals(q[1..])[b].id {
      assert Vals(q)[a + 1].id != Vals(q)[b + 1].id;
    }
  }

  lemma {:induction false} ValsDropped(q: seq<Order>, o: Order)
    requires o in q && DistinctIds(Vals(q))
    ensures Vals(Dropped(q, o)) == Without(Vals(q), o.id) && Find(Vals(q), o.id) == Some(o.Val())
  {
    hide DistinctIds;
    if q[0] != o {
      DroppedLater(q, o);
      ValsDropped(q[1..], o);
      assert ([q[0]] + Dropped(q[1..], o))[1..] == Dropped(q[1..], o);
    }
  }

  lemma {:induction false} FindNone(q: seq<Ord>, id: string)
    requires !HasId(q, id)
    ensures Find(q, id) == None
  {
    if q != [] {
      FindNone(q[1..], id);
    }
  }

  lemma ValsRest(q: seq<Order>)
    requires q != []
    ensures Vals(q[1..]) == Vals(q)[1..] && Vals(q)[0] == q[0].Val() && Dropped(q, q[0]) == q[1..]
  {
  }

  /** A level and the queue whose best orders it holds. */
  datatype Front = Front(level: PriceLevel, q: seq<Order>, side: Side)

  /** A maker and a taker that meet, and the match so far. */
  datatype Meeting = Meeting(maker: Order, taker: Order, trades: seq<Trade>, cancelled: seq<Order>, whole: Outcome,
          trade: Option<Trade>)

  /** A level at the best price of a queue holds its first orders, as many as have that price. */
  ghost predicate BestOf(level: PriceLevel, q: seq<Order>, side: Side)
    reads level, q
  {
    && LevelOk(level, q, level.price)
    && forall i :: 0 <= i < |q| ==>
         !BetterPrice(side, q[i].price, level.price) && (q[i].price == level.price ==> q[i].level == level)
  }

  lemma BestFront(m: map<int, PriceLevel>, levels: set<PriceLevel>, q: seq<Order>, side: Side, level: PriceLevel)
    requires Wired(m, levels, q, side, {}) && BestOf(level, q, side) && level.orders != []
    ensures q != [] && level.orders[0] == q[0] && q[0].price == level.price && q[0].level == level
  {
    AtPriceMember(q, level.price);
    var j :| 0 <= j < |q| && q[j] == level.orders[0];
    assert j > 0 ==> Precedes(side, q[0], q[j]);
  }

  lemma BestFound(m: map<int, PriceLevel>, levels: set<PriceLevel>, q: seq<Order>, side: Side)
    requires Wired(m, levels, q, side, {}) && q != []
    ensures q[0].level != null && BestOf(q[0].level, q, side) && q[0].level in levels && q[0].level.orders != []
  {
    BestPrice(m, levels, q, side);
    forall i | 0 <= i < |q|
      ensures !BetterPrice(side, q[i].price, q[0].price) && (q[i].price == q[0].price ==> q[i].level == q[0].level)
    {
      assert Queued(m, side, q[i]) && Queued(m, side, q[0]);
    }
  }

  // ----- the loops of the match, seen from the simple matcher

  /** What a match comes to that has already made some trades and cancellations when `rest` begins. */
  ghost function After(trades: seq<Trade>, cancelled: seq<Ord>, rest: Outcome): Outcome {
    Outcome(rest.taker, trades + rest.trades, cancelled + rest.cancelled, rest.queue)
  }

  lemma AfterOwn(taker: Ord, q: seq<Ord>, trades: seq<Trade>, cancelled: seq<Ord>)
    requires taker.Remaining() > 0 && q != [] && Crosses(taker.side, taker.kind, taker.price, q[0].price)
    requires q[0].user == taker.user
    ensures After(trades, cancelled, Match(taker, q)) == After(trades, cancelled + [q[0]], Match(taker, q[1..]))
  {
    var rest := Match(taker, q[1..]);
    assert cancelled + ([q[0]] + rest.cancelled) == (cancelled + [q[0]]) + rest.cancelled;
  }

  lemma AfterTrade(taker: Ord, taker': Ord, maker': Ord, q: seq<Ord>, trades: seq<Trade>, cancelled: seq<Ord>)
    requires taker.Remaining() > 0 && q != [] && Crosses(taker.side, taker.kind, taker.price, q[0].price)
    requires q[0].user != taker.user && q[0].Remaining() > 0
    requires var quantity := Min(taker.Remaining(), q[0].Remaining());
      taker' == taker.(filled := taker.filled + quantity) && maker' == q[0].(filled := q[0].filled + quantity)
    ensures After(trades, cancelled, Match(taker, q)) ==
            After(trades + [TradeOf(taker, q[0], Min(taker.Remaining(), q[0].Remaining()))], cancelled,
                  Match(taker', (if maker'.Remaining() <= 0 then [] else [maker']) + q[1..]))
  {
    var t := TradeOf(taker, q[0], Min(taker.Remaining(), q[0].Remaining()));
    var q' := (if maker'.Remaining() <= 0 then [] else [maker']) + q[1..];
    assert maker'.Remaining() <= 0 ==> q' == q[1..];
    var rest := Match(taker', q');
    assert Match(taker, q) == rest.(trades := [t] + rest.trades);
    assert trades + ([t] + rest.trades) == (trades + [t]) + rest.trades;
  }

  /** What the match leaves of the arriving order and of the queue it went through. */
  lemma Matched(b: Book, o: Ord)
    requires BookOk(b) && Admissible(b, o)
    ensures var m := Match(o.(sequence := b.seqNo + 1), b.Queue(Opposite(o.side)));
      && 0 <= m.taker.filled <= o.quantity && m.taker == o.(sequence := b.seqNo + 1, filled := m.taker.filled)
      && !HasId(b.Queue(o.side), o.id) && !HasId(m.queue, o.id)
  {
    var taker, q := o.(sequence := b.seqNo + 1), b.Queue(Opposite(o.side));
    FromSide(b, o.side);
    assert Unfilled(q) by {
      forall i | 0 <= i < |q| ensures q[i].Remaining() > 0 { assert MayRest(Opposite(o.side), q[i], b.seqNo); }
    }
    MatchTail(taker, q);
    MatchKeeps(taker, b.Queue(o.side), q, b.seqNo);
  }

  /** The simple matcher's `Place`, put together from its parts. */
  lemma PlacedFrom(b: Book, o: Ord, m: Outcome, rested: bool, b': Book)
    requires m == Match(o.(sequence := b.seqNo + 1), b.Queue(Opposite(o.side)))
    requires
      && rested == (o.kind == Limit && m.taker.Remaining() > 0)
      && m.taker == o.(sequence := b.seqNo + 1, filled := m.taker.filled)
    requires b'.Queue(o.side) == if rested then Insert(o.side, b.Queue(o.side), m.taker) else b.Queue(o.side)
    requires b'.Queue(Opposite(o.side)) == m.queue && b'.seqNo == b.seqNo + 1 && b'.version == b.version + 1
    ensures Placed(b', m.taker, m.trades, m.cancelled, rested) == Place(b, o)
  {
  }

  lemma CancelledFrom(b: Book, o: Ord, b': Book)
    requires BookOk(b) && Find(b.Queue(o.side), o.id) == Some(o)
    requires
      && b'.Queue(o.side) == Without(b.Queue(o.side), o.id) && b'.Queue(Opposite(o.side)) == b.Queue(Opposite(o.side))
    requires b'.seqNo == b.seqNo && b'.version == b.version + 1
    ensures Cancelled(b', Some(o)) == Cancel(b, o.id)
  {
    FromSide(b, o.side);
    var i := WithoutPlace(b.Queue(o.side), o.id);
    assert !HasId(b.Queue(Opposite(o.side)), o.id) by {
      forall j | 0 <= j < |b.Queue(Opposite(o.side))| ensures b.Queue(Opposite(o.side))[j].id != o.id {
        assert b.Queue(o.side)[i].id != b.Queue(Opposite(o.side))[j].id;
      }
    }
    FindNone(b.Queue(Opposite(o.side)), o.id);
  }

  /** The queue has lost orders, and gained at most one. */
  ghost predicate From(q: seq<Order>, before: seq<Order>, o: Order) {
    forall i :: 0 <= i < |q| ==> q[i] in before || q[i] == o
  }

  lemma FromItself(q: seq<Order>, o: Order)
    ensures From(q, q, o)
  {
  }

  lemma InsertedFrom(side: Side, q: seq<Order>, o: Order)
    ensures From(Inserted(side, q, o), q, o)
  {
    var k := InsertedPlace(side, q, o);
  }

  lemma {:induction false} DroppedFrom(q: seq<Order>, o: Order)
    requires o in q
    ensures From(Dropped(q, o), q, o)
  {
    var k := DroppedPlace(q, o);
  }

  ghost predicate IsSuffix(r: seq<Order>, q: seq<Order>) {
    |r| <= |q| && r == q[|q| - |r|..]
  }

  lemma SuffixThrough(s: seq<Order>, r: seq<Order>, q: seq<Order>)
    requires IsSuffix(s, r) && IsSuffix(r, q)
    ensures IsSuffix(s, q)
  {
  }

  lemma SuffixItself(q: seq<Order>)
    ensures IsSuffix(q, q)
  {
  }

  /** What is left of a suffix without its first order, which is one of the whole queue. */
  lemma SuffixRest(r: seq<Order>, q: seq<Order>)
    requires IsSuffix(r, q) && r != []
    ensures IsSuffix(r[1..], q) && r[0] in q
  {
  }

  lemma SuffixFrom(q: seq<Order>, before: seq<Order>, o: Order)
    requires IsSuffix(q, before)
    ensures From(q, before, o)
  {
  }

  lemma ValsAppend(q: seq<Order>, o: Order)
    ensures Vals(q + [o]) == Vals(q) + [o.Val()]
  {
  }

  twostate lemma BestPassed(f: Front)
    requires old(BestOf(f.level, f.q, f.side)) && f.q != [] && LevelOk(f.level, f.q[1..], f.level.price)
    requires forall i :: 1 <= i < |f.q| ==> f.q[i].level == old(f.q[i].level)
    ensures BestOf(f.level, f.q[1..], f.side)
  {
    var level, q, side := f.level, f.q, f.side;
    forall i | 0 <= i < |q[1..]|
      ensures
        && !BetterPrice(side, q[1..][i].price, level.price)
        && (q[1..][i].price == level.price ==> q[1..][i].level == level)
    {
      assert q[1..][i] == q[i + 1];
    }
  }

  twostate lemma BestKept(f: Front)
    requires old(BestOf(f.level, f.q, f.side)) && LevelOk(f.level, f.q, f.level.price)
    requires forall i :: 0 <= i < |f.q| ==> f.q[i].level == old(f.q[i].level)
    ensures BestOf(f.level, f.q, f.side)
  {
  }

  /** An empty book is in order. */
  lemma NothingYet()
    ensures Indexed(map[], [], []) && Wired(map[], {}, [], Buy, {}) && Wired(map[], {}, [], Sell, {}) && BookOk(EMPTY)
  {
  }

  /** Orders that have kept their fills and their places look the same. */
  twostate lemma {:induction false} ValsSame(q: seq<Order>)
    requires forall i :: 0 <= i < |q| ==> q[i].filled == old(q[i].filled) && q[i].sequence == old(q[i].sequence)
    ensures Vals(q) == old(Vals(q))
  {
    if q != [] {
      ValsSame(q[1..]);
    }
  }

  /** Only the first order of a queue has changed. */
  twostate lemma FrontChanged(q: seq<Order>)
    requires
      && q != [] && forall i :: 1 <= i < |q| ==> q[i].filled == old(q[i].filled) && q[i].sequence == old(q[i].sequence)
    ensures Vals(q) == [q[0].Val()] + old(Vals(q))[1..]
  {
    ValsSame(q[1..]);
    assert old(Vals(q)) == [old(q[0].Val())] + old(Vals(q[1..]));
    assert Vals(q) == [q[0].Val()] + Vals(q[1..]);
  }

  class OrderBook {
    const bids: Tree<PriceLevel>
    const asks: Tree<PriceLevel>
    var orders: map<string, Order>
    var seqNo: nat
    var version: nat

    // The resting orders of either side, best first, and the levels they sit in.
    ghost var bidQueue: seq<Order>
    ghost var askQueue: seq<Order>
    ghost var bidLevels: set<PriceLevel>
    ghost var askLevels: set<PriceLevel>

    function TreeFor(side: Side): Tree<PriceLevel> { if side == Buy then bids else asks }

    ghost function QueueFor(side: Side): seq<Order>
      reads this`bidQueue, this`askQueue
    {
      if side == Buy then bidQueue else askQueue
    }

    ghost function LevelsFor(side: Side): set<PriceLevel>
      reads this`bidLevels, this`askLevels
    {
      if side == Buy then bidLevels else askLevels
    }

    ghost predicate Separate()
      reads this`bidLevels, this`askLevels, bids`nodes, asks`nodes
    {
      bids != asks && bids.nodes !! asks.nodes && bidLevels !! askLevels
    }

    /** Trees, levels, queues and index all describe the same resting orders. */
    ghost predicate Sound()
      reads this`orders, this`bidQueue, this`askQueue, this`bidLevels, this`askLevels
      reads bids, bids.nodes, bidLevels, bidQueue, asks, asks.nodes, askLevels, askQueue
    {
      && Separate() && Indexed(orders, bidQueue, askQueue)
      && bids.Valid() && Wired(bids.Model(), bidLevels, bidQueue, Buy, {})
      && asks.Valid() && Wired(asks.Model(), askLevels, askQueue, Sell, {})
    }

    constructor ()
      ensures Valid() && View() == EMPTY && fresh(Footprint())
      ensures fresh(bids) && fresh(asks) && fresh(bids.nodes) && fresh(asks.nodes) && bidLevels == askLevels == {}
    {
      hide Tree.Valid;
      hide Wired;
      hide Indexed;
      hide BookOk;
      NothingYet();
      bids := new Tree();
      asks := new Tree();
      orders, seqNo, version := map[], 0, 0;
      bidQueue, askQueue, bidLevels, askLevels := [], [], {}, {};
    }

    method RemoveBid(o: Order)
      requires Sound() && o in bidQueue && o !in askQueue
      modifies this`orders, this`bidQueue, o`level, o`linked, bids, bids.nodes, bidLevels
      ensures Sound() && o.level == null && bids.nodes <= old(bids.nodes) && bidQueue == Dropped(old(bidQueue), o)
      ensures !o.linked && old(o.level) != null && LevelOk(old(o.level), bidQueue, o.price)
    {
      hide Tree.Valid;
      hide Wired;
      hide Indexed;
      hide LevelOk;
      hide Dropped;
      SideOnly(bids.Model(), bidLevels, bidQueue, Buy);
      IndexedDropped(orders, bidQueue, askQueue, o);
      RemoveFrom(bids, bidLevels, o, bidQueue, Buy);
      orders := orders - {o.id};
      bidQueue := Dropped(bidQueue, o);
    }

    method RemoveAsk(o: Order)
      requires Sound() && o in askQueue && o !in bidQueue
      modifies this`orders, this`askQueue, o`level, o`linked, asks, asks.nodes, askLevels
      ensures Sound() && o.level == null && asks.nodes <= old(asks.nodes) && askQueue == Dropped(old(askQueue), o)
      ensures !o.linked && old(o.level) != null && LevelOk(old(o.level), askQueue, o.price)
    {
      hide Tree.Valid;
      hide Wired;
      hide Indexed;
      hide LevelOk;
      hide Dropped;
      SideOnly(asks.Model(), askLevels, askQueue, Sell);
      IndexedDroppedLast(orders, bidQueue, askQueue, o);
      RemoveFrom(asks, askLevels, o, askQueue, Sell);
      orders := orders - {o.id};
      askQueue := Dropped(askQueue, o);
    }

    /** Detaches a resting order, and drops its level if it empties. */
    method RemoveOrder(o: Order)
      requires Sound() && (o.level != null ==> o in QueueFor(o.side))
      modifies this`orders, this`bidQueue, this`askQueue, o`level, o`linked
      modifies TreeFor(o.side), TreeFor(o.side).nodes, LevelsFor(o.side)
      ensures Sound() && o.level == null && TreeFor(o.side).nodes <= old(TreeFor(o.side).nodes)
      ensures QueueFor(o.side) == if old(o.level) == null then old(QueueFor(o.side))
        else Dropped(old(QueueFor(o.side)), o)
      ensures QueueFor(Opposite(o.side)) == old(QueueFor(Opposite(o.side)))
      ensures old(o.level) != null ==> !o.linked && LevelOk(old(o.level), QueueFor(o.side), o.price)
    {
      hide Tree.Valid;
      hide Wired;
      hide Indexed;
      if o.level == null {
        return;
      }
      SideOnly(bids.Model(), bidLevels, bidQueue, Buy);
      SideOnly(asks.Model(), askLevels, askQueue, Sell);
      if o.side == Buy {
        RemoveBid(o);
      } else {
        RemoveAsk(o);
      }
    }

    method RestBid(o: Order)
      requires Sound() && o.kind == Limit && 0 <= o.filled <= o.quantity && !o.linked && o.id !in orders
      requires o.side == Buy && forall i :: 0 <= i < |bidQueue| ==> bidQueue[i].sequence < o.sequence
      modifies this`orders, this`bidQueue, this`bidLevels, o`level, o`linked, bids, bids.nodes, bidLevels
      ensures Sound() && bidQueue == Inserted(Buy, old(bidQueue), o)
      ensures fresh(bids.nodes - old(bids.nodes)) && fresh(bidLevels - old(bidLevels))
    {
      hide Tree.Valid;
      hide Wired;
      hide Indexed;
      hide LevelOk;
      hide Inserted;
      IndexedOnly(orders, bidQueue, askQueue, o);
      IndexedInserted(orders, bidQueue, askQueue, o, Buy);
      var level := RestOn(bids, bidLevels, o, bidQueue, Buy);
      orders := orders[o.id := o];
      bidQueue, bidLevels := Inserted(Buy, bidQueue, o), bidLevels + {level};
    }

    method RestAsk(o: Order)
      requires Sound() && o.kind == Limit && 0 <= o.filled <= o.quantity && !o.linked && o.id !in orders
      requires o.side == Sell && forall i :: 0 <= i < |askQueue| ==> askQueue[i].sequence < o.sequence
      modifies this`orders, this`askQueue, this`askLevels, o`level, o`linked, asks, asks.nodes, askLevels
      ensures Sound() && askQueue == Inserted(Sell, old(askQueue), o)
      ensures fresh(asks.nodes - old(asks.nodes)) && fresh(askLevels - old(askLevels))
    {
      hide Tree.Valid;
      hide Wired;
      hide Indexed;
      hide LevelOk;
      hide Inserted;
      IndexedOnly(orders, bidQueue, askQueue, o);
      IndexedInsertedLast(orders, bidQueue, askQueue, o, Sell);
      var level := RestOn(asks, askLevels, o, askQueue, Sell);
      orders := orders[o.id := o];
      askQueue, askLevels := Inserted(Sell, askQueue, o), askLevels + {level};
    }

    /** Puts an order behind its side's queue at its price, creating the price level if needed. */
    method Rest(o: Order)
      requires Sound() && o.kind == Limit && 0 <= o.filled <= o.quantity && !o.linked && o.id !in orders
      requires var q := QueueFor(o.side); forall i :: 0 <= i < |q| ==> q[i].sequence < o.sequence
      modifies this`orders, this`bidQueue, this`askQueue, this`bidLevels, this`askLevels, o`level, o`linked
      modifies TreeFor(o.side), TreeFor(o.side).nodes, LevelsFor(o.side)
      ensures Sound() && QueueFor(o.side) == Inserted(o.side, old(QueueFor(o.side)), o)
      ensures
        && fresh(TreeFor(o.side).nodes - old(TreeFor(o.side).nodes))
        && fresh(LevelsFor(o.side) - old(LevelsFor(o.side)))
      ensures QueueFor(Opposite(o.side)) == old(QueueFor(Opposite(o.side)))
      ensures LevelsFor(Opposite(o.side)) == old(LevelsFor(Opposite(o.side)))
    {
      hide Tree.Valid;
      hide Wired;
      hide Indexed;
      if o.side == Buy {
        assert QueueFor(o.side) == bidQueue;
        RestBid(o);
      } else {
        assert QueueFor(o.side) == askQueue;
        RestAsk(o);
      }
    }

    // ----- matching

    /** Takes `quantity` out of a resting order, which may leave nothing of it. */
    method Consume(level: PriceLevel, maker: Order, quantity: int)
      requires Sound() && maker in QueueFor(maker.side) && level == maker.level && 0 <= quantity <= maker.Remaining()
      modifies level`volume, maker`filled
      ensures
        && Sound() && maker.filled == old(maker.filled) + quantity && LevelOk(level, QueueFor(maker.side), maker.price)
    {
      hide Tree.Valid;
      hide Wired;
      hide Indexed;
      SideOnly(bids.Model(), bidLevels, bidQueue, Buy);
      SideOnly(asks.Model(), askLevels, askQueue, Sell);
      if maker.side == Buy {
        WiredOrder(bids.Model(), bidLevels, bidQueue, Buy, maker);
        Fill(level, maker, quantity, bids.Model(), bidLevels, bidQueue, Buy);
        WiredFrame(SideState(asks.Model(), askLevels, askQueue, Sell));
      } else {
        WiredOrder(asks.Model(), askLevels, askQueue, Sell, maker);
        Fill(level, maker, quantity, asks.Model(), askLevels, askQueue, Sell);
        WiredFrame(SideState(bids.Model(), bidLevels, bidQueue, Buy));
      }
    }

    /** Either queue holds orders of its side only, and each of them once. */
    lemma Sided()
      requires Sound()
      ensures NoRepeats(bidQueue) && NoRepeats(askQueue)
      ensures forall i :: 0 <= i < |bidQueue| ==> bidQueue[i].side == Buy
      ensures forall i :: 0 <= i < |askQueue| ==> askQueue[i].side == Sell
    {
      SideOnly(bids.Model(), bidLevels, bidQueue, Buy);
      SideOnly(asks.Model(), askLevels, askQueue, Sell);
    }

    /** A queued order's level is one of its side's. */
    lemma LevelHeld(o: Order)
      requires Sound() && o in QueueFor(o.side)
      ensures o.level != null && o.level in LevelsFor(o.side) && o.level.price == o.price
    {
      if o.side == Buy {
        WiredOrder(bids.Model(), bidLevels, bidQueue, Buy, o);
      } else {
        WiredOrder(asks.Model(), askLevels, askQueue, Sell, o);
      }
    }

    /** What the inner matching loop knows about the level it is at. */
    ghost predicate At(level: PriceLevel, side: Side)
      reads this`bidQueue, this`askQueue, level, QueueFor(side)
    {
      BestOf(level, QueueFor(side), side)
    }

    /** Takes the front order off the book because it is the taker's own. */
    method CancelFront(level: PriceLevel, maker: Order, ghost taker: Order)
      requires Sound() && QueueFor(maker.side) != [] && maker == QueueFor(maker.side)[0] && maker.level == level
      requires At(level, maker.side) && level.price == maker.price
      modifies this`orders, this`bidQueue, this`askQueue, maker`level, maker`linked
      modifies TreeFor(maker.side), TreeFor(maker.side).nodes, LevelsFor(maker.side)
      ensures Sound() && At(level, maker.side) && TreeFor(maker.side).nodes <= old(TreeFor(maker.side).nodes)
      ensures
        && QueueFor(maker.side) == old(QueueFor(maker.side))[1..]
        && Vals(QueueFor(maker.side)) == old(Vals(QueueFor(maker.side)))[1..]
      ensures QueueFor(Opposite(maker.side)) == old(QueueFor(Opposite(maker.side)))
      ensures
        && maker !in QueueFor(maker.side) && maker.Val() == old(maker.Val()) && taker.filled == old(taker.filled)
        && maker.filled == old(maker.filled)
    {
      hide Sound;
      hide LevelOk;
      hide BestOf;
      Sided();
      ghost var q := QueueFor(maker.side);
      ValsRest(q);
      RemoveOrder(maker);
      assert maker !in q[1..];
      BestPassed(Front(level, q, maker.side));
    }

    /** One trade with the front order, which stays where it is for now. */
    method ConsumeFront(level: PriceLevel, maker: Order, taker: Order) returns (trade: Trade)
      requires Sound() && QueueFor(maker.side) != [] && maker == QueueFor(maker.side)[0] && maker.level == level
      requires At(level, maker.side) && level.price == maker.price && taker !in bidQueue && taker !in askQueue
      requires taker.Remaining() > 0 && maker.Remaining() > 0 && level in LevelsFor(maker.side)
      modifies level`volume, maker`filled, taker`filled
      ensures Sound() && At(level, maker.side)
      ensures var quantity := Min(old(taker.Remaining()), old(maker.Remaining()));
        && trade == TradeOf(old(taker.Val()), old(maker.Val()), quantity)
        && taker.filled == old(taker.filled) + quantity && maker.filled == old(maker.filled) + quantity
      ensures Vals(QueueFor(maker.side)) == [maker.Val()] + old(Vals(QueueFor(maker.side)))[1..]
    {
      hide Sound;
      hide LevelOk;
      hide BestOf;
      hide Vals;
      Sided();
      ghost var q := QueueFor(maker.side);
      var quantity := Min(taker.Remaining(), maker.Remaining());
      taker.filled := taker.filled + quantity;
      Consume(level, maker, quantity);
      trade := Trade(maker.id, taker.id, maker.user, taker.user, maker.price, quantity, taker.side);
      BestKept(Front(level, q, maker.side));
      FrontChanged(q);
    }

    /** One trade with the front order, which leaves the book if that fills it. */
    method TradeFront(level: PriceLevel, maker: Order, taker: Order) returns (trade: Trade)
      requires Sound() && QueueFor(maker.side) != [] && maker == QueueFor(maker.side)[0] && maker.level == level
      requires At(level, maker.side) && level.price == maker.price && taker !in bidQueue && taker !in askQueue
      requires taker.Remaining() > 0 && maker.Remaining() > 0
      modifies this`orders, this`bidQueue, this`askQueue, maker`level, maker`linked, maker`filled, taker`filled
      modifies TreeFor(maker.side), TreeFor(maker.side).nodes, LevelsFor(maker.side)
      ensures Sound() && At(level, maker.side) && TreeFor(maker.side).nodes <= old(TreeFor(maker.side).nodes)
      ensures trade == TradeOf(old(taker.Val()), old(maker.Val()), Min(old(taker.Remaining()), old(maker.Remaining())))
      ensures taker.filled == old(taker.filled) + Min(old(taker.Remaining()), old(maker.Remaining()))
      ensures maker.filled == old(maker.filled) + Min(old(taker.Remaining()), old(maker.Remaining()))
      ensures maker.Remaining() <= 0 ==> QueueFor(maker.side) == old(QueueFor(maker.side))[1..]
      ensures maker.Remaining() > 0 ==> QueueFor(maker.side) == old(QueueFor(maker.side))
      ensures maker.Remaining() <= 0 ==> Vals(QueueFor(maker.side)) == old(Vals(QueueFor(maker.side)))[1..]
      ensures maker.Remaining() > 0 ==>
        Vals(QueueFor(maker.side)) == [maker.Val()] + old(Vals(QueueFor(maker.side)))[1..]
      ensures QueueFor(Opposite(maker.side)) == old(QueueFor(Opposite(maker.side)))
    {
      LevelHeld(maker);
      hide Sound;
      hide At;
      hide Vals;
      hide TradeOf;
      hide Min;
      trade := ConsumeFront(level, maker, taker);
      if maker.Remaining() <= 0 {
        CancelFront(level, maker, taker);
      }
    }

    method BestBid() returns (level: PriceLevel?)
      requires Sound()
      ensures if bidQueue == [] then level == null
        else
          && level != null && level == bidQueue[0].level && level.orders != []
          && level.price == bidQueue[0].price && BestOf(level, bidQueue, Buy)
    {
      hide Tree.Valid;
      hide Wired;
      hide Indexed;
      hide BestOf;
      level := BestLevel(bids, Buy, bidLevels, bidQueue);
      if bidQueue != [] {
        BestFound(bids.Model(), bidLevels, bidQueue, Buy);
      }
    }

    method BestAsk() returns (level: PriceLevel?)
      requires Sound()
      ensures if askQueue == [] then level == null
        else
          && level != null && level == askQueue[0].level && level.orders != []
          && level.price == askQueue[0].price && BestOf(level, askQueue, Sell)
    {
      hide Tree.Valid;
      hide Wired;
      hide Indexed;
      hide BestOf;
      level := BestLevel(asks, Sell, askLevels, askQueue);
      if askQueue != [] {
        BestFound(asks.Model(), askLevels, askQueue, Sell);
      }
    }

    /** The best level on the side a taker will hit. */
    method BestOpposite(takerSide: Side) returns (level: PriceLevel?)
      requires Sound()
      ensures var q := QueueFor(Opposite(takerSide));
        if q == [] then level == null
        else
          && level != null && level == q[0].level && level.orders != []
          && level.price == q[0].price && At(level, Opposite(takerSide))
    {
      hide Tree.Valid;
      hide Wired;
      hide Indexed;
      hide BestOf;
      if takerSide == Buy {
        level := BestAsk();
      } else {
        level := BestBid();
      }
    }

    lemma FrontOf(level: PriceLevel, side: Side)
      requires Sound() && At(level, side) && level.orders != []
      ensures var q := QueueFor(side);
        q != [] && level.orders[0] == q[0] && q[0].price == level.price && q[0].level == level && q[0].side == side
    {
      SideOnly(bids.Model(), bidLevels, bidQueue, Buy);
      SideOnly(asks.Model(), askLevels, askQueue, Sell);
      if side == Buy {
        BestFront(bids.Model(), bidLevels, bidQueue, Buy, level);
      } else {
        BestFront(asks.Model(), askLevels, askQueue, Sell, level);
      }
    }

    /**
     The match so far: `whole` is what it comes to once the trades and cancellations made are
     followed by a match of what is left.
     */
    ghost predicate Midway(taker: Order, trades: seq<Trade>, cancelled: seq<Order>, whole: Outcome)
      reads this`bidQueue, this`askQueue, taker`filled, taker`sequence, cancelled, QueueFor(Opposite(taker.side))
    {
      var q := QueueFor(Opposite(taker.side));
      && taker !in bidQueue && taker !in askQueue && taker !in cancelled && taker.Remaining() >= 0
      && Unfilled(Vals(q)) && (forall i :: 0 <= i < |cancelled| ==> cancelled[i] !in q)
      && whole == After(trades, Vals(cancelled), MatchingModel.Match(taker.Val(), Vals(q)))
    }

    twostate lemma OwnMet(x: Meeting)
      requires
        && old(Midway(x.taker, x.trades, x.cancelled, x.whole)) && x.taker.Val() == old(x.taker.Val())
        && old(x.taker.Remaining()) > 0
      requires var q := old(QueueFor(Opposite(x.taker.side)));
        && q != [] && x.maker == q[0] && QueueFor(Opposite(x.taker.side)) == q[1..] && x.maker !in q[1..]
        && Vals(q[1..]) == old(Vals(q))[1..]
      requires QueueFor(x.taker.side) == old(QueueFor(x.taker.side))
      requires
        && x.maker.Val() == old(x.maker.Val())
        && forall i :: 0 <= i < |x.cancelled| ==> x.cancelled[i].Val() == old(x.cancelled[i].Val())
      requires x.maker.user == x.taker.user && Crosses(x.taker.side, x.taker.kind, x.taker.price, x.maker.price)
      ensures Midway(x.taker, x.trades, x.cancelled + [x.maker], x.whole)
    {
      var maker, taker, trades, cancelled, whole := x.maker, x.taker, x.trades, x.cancelled, x.whole;
      hide MatchingModel.Match;
      ghost var vs := old(Vals(QueueFor(Opposite(taker.side))));
      AfterOwn(taker.Val(), vs, trades, Vals(cancelled));
      assert Vals(cancelled) == old(Vals(cancelled));
      ValsAppend(cancelled, maker);
    }

    /** A maker that has traded with the taker, and has left the queue if that filled it. */
    twostate predicate Traded(x: Meeting)
      reads this, x.maker, x.taker, x.cancelled, QueueFor(Opposite(x.taker.side))
    {
      && old(Midway(x.taker, x.trades, x.cancelled, x.whole)) && x.taker.sequence == old(x.taker.sequence)
      && old(x.taker.Remaining()) > 0
      && (var q := old(QueueFor(Opposite(x.taker.side)));
          && q != [] && x.maker == q[0] && old(Vals(q))[0] == old(x.maker.Val())
          && QueueFor(Opposite(x.taker.side)) == (if x.maker.Remaining() <= 0 then q[1..] else q)
          && Vals(QueueFor(Opposite(x.taker.side))) == (if x.maker.Remaining() <= 0 then [] else [x.maker.Val()]) +
               old(Vals(q))[1..])
      && QueueFor(x.taker.side) == old(QueueFor(x.taker.side)) && old(x.maker.Remaining()) > 0
      && x.maker.sequence == old(x.maker.sequence) && Vals(x.cancelled) == old(Vals(x.cancelled))
      && x.maker.user != x.taker.user && Crosses(x.taker.side, x.taker.kind, x.taker.price, x.maker.price)
      && (var quantity := Min(old(x.taker.Remaining()), old(x.maker.Remaining()));
          && x.trade == Some(TradeOf(old(x.taker.Val()), old(x.maker.Val()), quantity))
          && x.taker.filled == old(x.taker.filled) + quantity && x.maker.filled == old(x.maker.filled) + quantity)
    }

    twostate lemma TradedApart(x: Meeting)
      requires Traded(x)
      ensures var q := QueueFor(Opposite(x.taker.side));
        && x.taker !in bidQueue && x.taker !in askQueue && x.taker !in x.cancelled && x.taker.Remaining() >= 0
        && Unfilled(Vals(q)) && (forall i :: 0 <= i < |x.cancelled| ==> x.cancelled[i] !in q)
    {
      hide MatchingModel.Match;
    }

    twostate lemma TradedWhole(x: Meeting)
      requires Traded(x)
      ensures x.whole == After(x.trades + [x.trade.value], Vals(x.cancelled),
                               MatchingModel.Match(x.taker.Val(), Vals(QueueFor(Opposite(x.taker.side)))))
    {
      hide MatchingModel.Match;
      hide Unfilled;
      AfterTrade(old(x.taker.Val()), x.taker.Val(), x.maker.Val(), old(Vals(QueueFor(Opposite(x.taker.side)))),
        x.trades, Vals(x.cancelled));
    }

    twostate lemma OtherMet(x: Meeting)
      requires Traded(x)
      ensures Midway(x.taker, x.trades + [x.trade.value], x.cancelled, x.whole)
    {
      hide Traded;
      hide MatchingModel.Match;
      hide Unfilled;
      TradedApart(x);
      TradedWhole(x);
    }

    lemma MidwayFront(taker: Order, trades: seq<Trade>, cancelled: seq<Order>, whole: Outcome)
      requires Midway(taker, trades, cancelled, whole)
      ensures taker !in bidQueue && taker !in askQueue && taker !in cancelled
      ensures var q := QueueFor(Opposite(taker.side)); q != [] ==>
        q[0].Remaining() > 0 && forall i :: 0 <= i < |cancelled| ==> cancelled[i] != q[0]
    {
      assert QueueFor(Opposite(taker.side)) != [] ==> Vals(QueueFor(Opposite(taker.side)))[0].Remaining() > 0;
    }

    /** The front order is the taker's own, and is cancelled. */
    method MeetOwn(level: PriceLevel, maker: Order, taker: Order,
                   ghost trades: seq<Trade>, ghost cancelled: seq<Order>, ghost whole: Outcome)
      requires Sound() && At(level, Opposite(taker.side)) && level.orders != [] && maker == level.orders[0]
      requires Midway(taker, trades, cancelled, whole) && maker.user == taker.user
      requires taker.Remaining() > 0 && Crosses(taker.side, taker.kind, taker.price, level.price)
      modifies this`orders, this`bidQueue, this`askQueue, maker`level, maker`linked
      modifies TreeFor(Opposite(taker.side)), TreeFor(Opposite(taker.side)).nodes, LevelsFor(Opposite(taker.side))
      ensures Sound() && At(level, Opposite(taker.side)) && Midway(taker, trades, cancelled + [maker], whole)
      ensures QueueFor(Opposite(taker.side)) == old(QueueFor(Opposite(taker.side)))[1..]
      ensures QueueFor(taker.side) == old(QueueFor(taker.side))
      ensures TreeFor(Opposite(taker.side)).nodes <= old(TreeFor(Opposite(taker.side)).nodes)
    {
      hide Tree.Valid;
      hide Wired;
      hide Indexed;
      hide LevelOk;
      hide BestOf;
      hide Midway;
      hide Sound;
      FrontOf(level, Opposite(taker.side));
      CancelFront(level, maker, taker);
      OwnMet(Meeting(maker, taker, trades, cancelled, whole, None));
    }

    method MeetOther(level: PriceLevel, maker: Order, taker: Order,
                     ghost trades: seq<Trade>, ghost cancelled: seq<Order>, ghost whole: Outcome) returns (trade: Trade)
      requires Sound() && At(level, Opposite(taker.side)) && level.orders != [] && maker == level.orders[0]
      requires Midway(taker, trades, cancelled, whole) && maker.user != taker.user
      requires taker.Remaining() > 0 && Crosses(taker.side, taker.kind, taker.price, level.price)
      modifies this`orders, this`bidQueue, this`askQueue, maker`level, maker`linked, maker`filled, taker`filled
      modifies TreeFor(Opposite(taker.side)), TreeFor(Opposite(taker.side)).nodes, LevelsFor(Opposite(taker.side))
      ensures Sound() && At(level, Opposite(taker.side)) && Midway(taker, trades + [trade], cancelled, whole)
      ensures taker.Remaining() < old(taker.Remaining())
      ensures QueueFor(Opposite(taker.side)) ==
        old(QueueFor(Opposite(taker.side)))[if maker.Remaining() <= 0 then 1 else 0..]
      ensures QueueFor(taker.side) == old(QueueFor(taker.side))
      ensures TreeFor(Opposite(taker.side)).nodes <= old(TreeFor(Opposite(taker.side)).nodes)
    {
      hide Tree.Valid;
      hide Wired;
      hide Indexed;
      hide LevelOk;
      hide BestOf;
      hide Midway;
      hide Sound;
      FrontOf(level, Opposite(taker.side));
      MidwayFront(taker, trades, cancelled, whole);
      ValsRest(QueueFor(maker.side));
      trade := TradeFront(level, maker, taker);
      OtherMet(Meeting(maker, taker, trades, cancelled, whole, Some(trade)));
    }

    lemma MidwayStart(taker: Order, whole: Outcome)
      requires taker !in bidQueue && taker !in askQueue && taker.Remaining() >= 0
      requires Unfilled(Vals(QueueFor(Opposite(taker.side))))
      requires whole == MatchingModel.Match(taker.Val(), Vals(QueueFor(Opposite(taker.side))))
      ensures Midway(taker, [], [], whole)
    {
    }

    /** Nothing more is to be done once the taker is filled or crosses nothing. */
    lemma MidwayDone(taker: Order, trades: seq<Trade>, cancelled: seq<Order>, whole: Outcome)
      requires Midway(taker, trades, cancelled, whole)
      requires var q := QueueFor(Opposite(taker.side));
        taker.Remaining() <= 0 || q == [] || !Crosses(taker.side, taker.kind, taker.price, q[0].price)
      ensures Outcome(taker.Val(), trades, Vals(cancelled), Vals(QueueFor(Opposite(taker.side)))) == whole
      ensures taker !in bidQueue && taker !in askQueue
    {
      assert trades + [] == trades && Vals(cancelled) + [] == Vals(cancelled);
    }

    /** Crosses the taker against one level, until it is filled or the level is empty. */
    method MatchLevel(level: PriceLevel, taker: Order, trades: seq<Trade>, cancelled: seq<Order>, ghost whole: Outcome)
        returns (trades': seq<Trade>, cancelled': seq<Order>)
      requires
        && Sound() && Midway(taker, trades, cancelled, whole) && At(level, Opposite(taker.side)) && level.orders != []
      requires taker.Remaining() > 0 && Crosses(taker.side, taker.kind, taker.price, level.price)
      modifies this`orders, this`bidQueue, this`askQueue, taker`filled, QueueFor(Opposite(taker.side))
      modifies TreeFor(Opposite(taker.side)), TreeFor(Opposite(taker.side)).nodes, LevelsFor(Opposite(taker.side))
      ensures Sound() && Midway(taker, trades', cancelled', whole)
      ensures IsSuffix(QueueFor(Opposite(taker.side)), old(QueueFor(Opposite(taker.side))))
      ensures |QueueFor(Opposite(taker.side))| < old(|QueueFor(Opposite(taker.side))|) ||
        taker.Remaining() < old(taker.Remaining())
      ensures QueueFor(taker.side) == old(QueueFor(taker.side))
      ensures TreeFor(Opposite(taker.side)).nodes <= old(TreeFor(Opposite(taker.side)).nodes)
    {
      hide Midway;
      hide Sound;
      hide At;
      hide Crosses;
      hide IsSuffix;
      ghost var side := Opposite(taker.side);
      ghost var q0 := QueueFor(side);
      trades', cancelled' := trades, cancelled;
      SuffixItself(q0);
      while taker.Remaining() > 0 && !level.Empty()
        invariant Sound() && Midway(taker, trades', cancelled', whole) && At(level, side)
        invariant IsSuffix(QueueFor(side), q0)
        invariant QueueFor(taker.side) == old(QueueFor(taker.side)) && TreeFor(side).nodes <= old(TreeFor(side).nodes)
        invariant |QueueFor(side)| < |q0| || taker.Remaining() < old(taker.Remaining()) ||
          (!level.Empty() && taker.Remaining() > 0)
        decreases |QueueFor(side)|, taker.Remaining()
      {
        var maker := level.Front();
        FrontOf(level, side);
        SuffixRest(QueueFor(side), q0);
        if maker.user == taker.user {
          MeetOwn(level, maker, taker, trades', cancelled', whole);
          cancelled' := cancelled' + [maker];
        } else {
          var trade := MeetOther(level, maker, taker, trades', cancelled', whole);
          trades' := trades' + [trade];
        }
      }
    }

    /** Crosses the taker against the best opposite level, as long as it wants more and the prices cross. */
    method Match(taker: Order) returns (trades: seq<Trade>, cancelled: seq<Order>)
      requires Sound() && taker !in bidQueue && taker !in askQueue && taker.Remaining() >= 0
      requires Unfilled(Vals(QueueFor(Opposite(taker.side))))
      modifies this`orders, this`bidQueue, this`askQueue, taker`filled, QueueFor(Opposite(taker.side))
      modifies TreeFor(Opposite(taker.side)), TreeFor(Opposite(taker.side)).nodes, LevelsFor(Opposite(taker.side))
      ensures Sound() && taker !in bidQueue && taker !in askQueue
      ensures Outcome(taker.Val(), trades, Vals(cancelled), Vals(QueueFor(Opposite(taker.side)))) ==
              MatchingModel.Match(old(taker.Val()), old(Vals(QueueFor(Opposite(taker.side)))))
      ensures QueueFor(taker.side) == old(QueueFor(taker.side))
      ensures IsSuffix(QueueFor(Opposite(taker.side)), old(QueueFor(Opposite(taker.side))))
      ensures TreeFor(Opposite(taker.side)).nodes <= old(TreeFor(Opposite(taker.side)).nodes)
    {
      hide Midway;
      hide Sound;
      hide At;
      hide MatchingModel.Match;
      hide Vals;
      hide Unfilled;
      hide Crosses;
      ghost var side := Opposite(taker.side);
      ghost var q0 := QueueFor(side);
      ghost var whole := MatchingModel.Match(taker.Val(), Vals(q0));
      hide IsSuffix;
      trades, cancelled := [], [];
      MidwayStart(taker, whole);
      SuffixItself(q0);
      while taker.Remaining() > 0
        invariant Sound() && Midway(taker, trades, cancelled, whole)
        invariant IsSuffix(QueueFor(side), q0)
        invariant QueueFor(taker.side) == old(QueueFor(taker.side)) && TreeFor(side).nodes <= old(TreeFor(side).nodes)
        decreases |QueueFor(side)|, taker.Remaining()
      {
        var level := BestOpposite(taker.side);
        if level == null || !Crosses(taker.side, taker.kind, taker.price, level.price) {
          MidwayDone(taker, trades, cancelled, whole);
          return;
        }
        ghost var q := QueueFor(side);
        trades, cancelled := MatchLevel(level, taker, trades, cancelled, whole);
        SuffixThrough(QueueFor(side), q, q0);
      }
      MidwayDone(taker, trades, cancelled, whole);
    }

    // ----- the book's operations

    /** The book as the simple matcher sees it. */
    ghost function View(): Book
      reads this, bidQueue, askQueue
    {
      Book(Vals(bidQueue), Vals(askQueue), seqNo, version)
    }

    /** Every object the book is made of. */
    ghost function Footprint(): set<object>
      reads this, bids, asks
    {
      {this, bids, asks} + bids.nodes + asks.nodes + bidLevels + askLevels + (set o | o in bidQueue) +
        (set o | o in askQueue)
    }

    ghost predicate Valid()
      reads this, bids, bids.nodes, bidLevels, bidQueue, asks, asks.nodes, askLevels, askQueue
    {
      Sound() && BookOk(View())
    }

    /** An order the simple matcher would admit is not queued, and its id is not indexed. */
    lemma Fresh(o: Order)
      requires Sound() && !HasId(View().bids, o.id) && !HasId(View().asks, o.id)
      ensures o.id !in orders && o !in bidQueue && o !in askQueue
    {
      forall i | 0 <= i < |bidQueue| ensures bidQueue[i].id != o.id { assert View().bids[i].id != o.id; }
      forall i | 0 <= i < |askQueue| ensures askQueue[i].id != o.id { assert View().asks[i].id != o.id; }
      IndexedOnly(orders, bidQueue, askQueue, o);
    }

    lemma FreshInView(o: Order)
      requires Sound() && Admissible(View(), o.Val())
      ensures o.id !in orders && o !in bidQueue && o !in askQueue
    {
      Fresh(o);
    }

    /** In a valid book every resting order wants something and has arrived. */
    lemma Resting(side: Side)
      requires Valid()
      ensures
        && Unfilled(Vals(QueueFor(side)))
        && forall i :: 0 <= i < |QueueFor(side)| ==> QueueFor(side)[i].sequence <= seqNo
    {
      var vs := Vals(QueueFor(side));
      assert vs == View().Queue(side);
      forall i | 0 <= i < |vs| ensures vs[i].Remaining() > 0 && QueueFor(side)[i].sequence <= seqNo {
        assert MayRest(side, vs[i], seqNo);
      }
    }

    /** No order is queued on both sides. */
    lemma SidesApart(side: Side)
      requires Sound()
      ensures forall i :: 0 <= i < |QueueFor(side)| ==> QueueFor(side)[i] !in QueueFor(Opposite(side))
    {
      SideOnly(bids.Model(), bidLevels, bidQueue, Buy);
      SideOnly(asks.Model(), askLevels, askQueue, Sell);
    }

    lemma ViewQueues(side: Side)
      ensures View().Queue(side) == Vals(QueueFor(side)) && View().seqNo == seqNo && View().version == version
    {
    }

    /** `Match` for an order that has just arrived, with the resting orders of its own side left alone. */
    method MatchArrived(taker: Order) returns (trades: seq<Trade>, cancelled: seq<Order>)
      requires Valid() && Admissible(View(), taker.Val()) && !taker.linked
      modifies this`orders, this`bidQueue, this`askQueue, this`seqNo, taker`filled, taker`sequence,
        QueueFor(Opposite(taker.side))
      modifies TreeFor(Opposite(taker.side)), TreeFor(Opposite(taker.side)).nodes, LevelsFor(Opposite(taker.side))
      ensures Sound() && taker !in bidQueue && taker !in askQueue && seqNo == old(seqNo) + 1 && taker.sequence == seqNo
      ensures Outcome(taker.Val(), trades, Vals(cancelled), Vals(QueueFor(Opposite(taker.side)))) ==
              MatchingModel.Match(old(taker.Val()).(sequence := seqNo), old(Vals(QueueFor(Opposite(taker.side)))))
      ensures
        && QueueFor(taker.side) == old(QueueFor(taker.side))
        && Vals(QueueFor(taker.side)) == old(Vals(QueueFor(taker.side)))
      ensures forall i :: 0 <= i < |QueueFor(taker.side)| ==> QueueFor(taker.side)[i].sequence < taker.sequence
      ensures IsSuffix(QueueFor(Opposite(taker.side)), old(QueueFor(Opposite(taker.side))))
      ensures TreeFor(Opposite(taker.side)).nodes <= old(TreeFor(Opposite(taker.side)).nodes)
      ensures !taker.linked && 0 <= taker.filled <= taker.quantity
      ensures !HasId(Vals(QueueFor(taker.side)), taker.id) && !HasId(Vals(QueueFor(Opposite(taker.side))), taker.id)
      ensures taker.Val() == old(taker.Val()).(sequence := seqNo, filled := taker.filled)
    {
      hide Sound;
      hide BookOk;
      hide MatchingModel.Match;
      hide Vals;
      hide Unfilled;
      hide HasId;
      hide TreeFor;
      hide LevelsFor;
      hide View;
      hide Book.Queue;
      ViewQueues(taker.side);
      ViewQueues(Opposite(taker.side));
      Matched(View(), taker.Val());
      FreshInView(taker);
      Resting(taker.side);
      Resting(Opposite(taker.side));
      SidesApart(taker.side);
      seqNo := seqNo + 1;
      taker.sequence := seqNo;
      trades, cancelled := Match(taker);
    }

    /** Rests what a limit order still wants after its match. */
    method RestRemainder(taker: Order) returns (rested: bool)
      requires Sound() && taker !in bidQueue && taker !in askQueue && 0 <= taker.filled <= taker.quantity
      requires
        && !HasId(Vals(QueueFor(taker.side)), taker.id) && !HasId(Vals(QueueFor(Opposite(taker.side))), taker.id)
        && !taker.linked
      requires var q := QueueFor(taker.side); forall i :: 0 <= i < |q| ==> q[i].sequence < taker.sequence
      modifies this`orders, this`bidQueue, this`askQueue, this`bidLevels, this`askLevels, taker`level, taker`linked
      modifies TreeFor(taker.side), TreeFor(taker.side).nodes, LevelsFor(taker.side)
      ensures Sound() && rested == (taker.kind == Limit && taker.Remaining() > 0)
      ensures var q := old(Vals(QueueFor(taker.side)));
        Vals(QueueFor(taker.side)) == if rested then Insert(taker.side, q, taker.Val()) else q
      ensures From(QueueFor(taker.side), old(QueueFor(taker.side)), taker)
      ensures QueueFor(Opposite(taker.side)) == old(QueueFor(Opposite(taker.side)))
      ensures fresh(TreeFor(taker.side).nodes - old(TreeFor(taker.side).nodes))
      ensures fresh(LevelsFor(taker.side) - old(LevelsFor(taker.side)))
      ensures Vals(QueueFor(Opposite(taker.side))) == old(Vals(QueueFor(Opposite(taker.side))))
      ensures LevelsFor(Opposite(taker.side)) == old(LevelsFor(Opposite(taker.side)))
    {
      hide Sound;
      hide HasId;
      hide Vals;
      hide From;
      hide Insert;
      hide Inserted;
      rested := taker.kind == Limit && taker.Remaining() > 0;
      FromItself(QueueFor(taker.side), taker);
      if rested {
        Fresh(taker);
        ghost var q := QueueFor(taker.side);
        ValsInserted(taker.side, q, taker);
        InsertedFrom(taker.side, q, taker);
        Rest(taker);
        assert Vals(QueueFor(taker.side)) == old(Vals(Inserted(taker.side, q, taker)));
      }
    }

    /** All of `Place` but the new version: what becomes of the two queues. */
    method PlaceQueues(taker: Order) returns (trades: seq<Trade>, cancelled: seq<Order>, rested: bool)
      requires Valid() && Admissible(View(), taker.Val()) && !taker.linked
      modifies this`orders, this`bidQueue, this`askQueue, this`bidLevels, this`askLevels, this`seqNo, taker,
        QueueFor(Opposite(taker.side))
      modifies bids, bids.nodes, bidLevels, asks, asks.nodes, askLevels
      ensures
        && Sound() && seqNo == old(seqNo) + 1
        && taker.Val() == old(taker.Val()).(sequence := seqNo, filled := taker.filled)
      ensures rested == (taker.kind == Limit && taker.Remaining() > 0)
      ensures Outcome(taker.Val(), trades, Vals(cancelled), Vals(QueueFor(Opposite(taker.side)))) ==
              MatchingModel.Match(old(taker.Val()).(sequence := seqNo), old(Vals(QueueFor(Opposite(taker.side)))))
      ensures Vals(QueueFor(taker.side)) ==
              if rested then Insert(taker.side, old(Vals(QueueFor(taker.side))), taker.Val())
                else old(Vals(QueueFor(taker.side)))
      ensures From(QueueFor(taker.side), old(QueueFor(taker.side)), taker)
      ensures From(QueueFor(Opposite(taker.side)), old(QueueFor(Opposite(taker.side))), taker)
      ensures fresh(bids.nodes - old(bids.nodes)) && fresh(asks.nodes - old(asks.nodes))
      ensures fresh(bidLevels - old(bidLevels)) && fresh(askLevels - old(askLevels))
    {
      hide Valid;
      hide Sound;
      hide MatchingModel.Match;
      hide Vals;
      hide From;
      hide IsSuffix;
      hide HasId;
      hide View;
      hide QueueFor;
      hide Admissible;
      hide MatchingModel.Insert;
      trades, cancelled := MatchArrived(taker);
      SuffixFrom(QueueFor(Opposite(taker.side)), old(QueueFor(Opposite(taker.side))), taker);
      rested := RestRemainder(taker);
    }

    /**
     Matches an order against the opposite side and rests what a limit order still wants: the
     trades, the cancellations and the new book are those of the simple matcher.
     */
    method Place(taker: Order) returns (trades: seq<Trade>, cancelled: seq<Order>, rested: bool)
      requires Valid() && Admissible(View(), taker.Val()) && !taker.linked
      modifies this, taker, QueueFor(Opposite(taker.side))
      modifies bids, bids.nodes, bidLevels, asks, asks.nodes, askLevels
      ensures Valid()
      ensures Placed(View(), taker.Val(), trades, Vals(cancelled), rested) ==
        MatchingModel.Place(old(View()), old(taker.Val()))
      ensures From(QueueFor(taker.side), old(QueueFor(taker.side)), taker)
      ensures From(QueueFor(Opposite(taker.side)), old(QueueFor(Opposite(taker.side))), taker)
      ensures fresh(bids.nodes - old(bids.nodes)) && fresh(asks.nodes - old(asks.nodes))
      ensures fresh(bidLevels - old(bidLevels)) && fresh(askLevels - old(askLevels))
    {
      hide Sound;
      hide BookOk;
      hide MatchingModel.Match;
      hide MatchingModel.Place;
      hide Vals;
      hide From;
      hide View;
      hide QueueFor;
      hide Admissible;
      hide MatchingModel.Insert;
      hide Book.Queue;
      ghost var b, o, side := View(), taker.Val(), taker.side;
      PlaceKeeps(b, o);
      ViewQueues(side);
      ViewQueues(Opposite(side));
      trades, cancelled, rested := PlaceQueues(taker);
      EndPlace(b, o, Outcome(taker.Val(), trades, Vals(cancelled), Vals(QueueFor(Opposite(side)))), rested);
    }

    /** The last step of `Place` makes it the simple matcher's. */
    method EndPlace(ghost b: Book, ghost o: Ord, ghost m: Outcome, ghost rested: bool)
      requires m == MatchingModel.Match(o.(sequence := b.seqNo + 1), b.Queue(Opposite(o.side)))
      requires
        && rested == (o.kind == Limit && m.taker.Remaining() > 0)
        && m.taker == o.(sequence := b.seqNo + 1, filled := m.taker.filled)
      requires Vals(QueueFor(o.side)) == if rested then Insert(o.side, b.Queue(o.side), m.taker) else b.Queue(o.side)
      requires Vals(QueueFor(Opposite(o.side))) == m.queue && seqNo == b.seqNo + 1 && version == b.version
      modifies this`version
      ensures Placed(View(), m.taker, m.trades, m.cancelled, rested) == MatchingModel.Place(b, o)
    {
      hide MatchingModel.Match;
      hide MatchingModel.Place;
      version := version + 1;
      ViewQueues(o.side);
      ViewQueues(Opposite(o.side));
      PlacedFrom(b, o, m, rested, View());
    }

    /** An indexed order is linked and queued on its side. */
    lemma Held(id: string)
      requires Sound() && id in orders
      ensures var o := orders[id]; o.id == id && o.linked && o.level != null && o in QueueFor(o.side)
    {
      var o := orders[id];
      SideOnly(bids.Model(), bidLevels, bidQueue, Buy);
      SideOnly(asks.Model(), askLevels, askQueue, Sell);
      if o in bidQueue {
        WiredOrder(bids.Model(), bidLevels, bidQueue, Buy, o);
      } else {
        WiredOrder(asks.Model(), askLevels, askQueue, Sell, o);
      }
    }

    lemma NotHeld(id: string)
      requires Sound() && id !in orders
      ensures MatchingModel.Cancel(View(), id) == Cancelled(View(), None)
    {
      FindNone(Vals(bidQueue), id);
      FindNone(Vals(askQueue), id);
    }

    /** What dropping a queued order means for the simple matcher's queue. */
    lemma DropMeans(o: Order)
      requires BookOk(View()) && o in QueueFor(o.side)
      ensures Vals(Dropped(QueueFor(o.side), o)) == Without(View().Queue(o.side), o.id)
      ensures Find(View().Queue(o.side), o.id) == Some(o.Val())
      ensures From(Dropped(QueueFor(o.side), o), QueueFor(o.side), o)
    {
      ViewQueues(o.side);
      FromSide(View(), o.side);
      ValsDropped(QueueFor(o.side), o);
      DroppedFrom(QueueFor(o.side), o);
    }

    /** The last step of a cancellation makes it the simple matcher's. */
    method EndCancel(ghost b: Book, ghost o: Ord)
      requires BookOk(b) && Find(b.Queue(o.side), o.id) == Some(o)
      requires
        && Vals(QueueFor(o.side)) == Without(b.Queue(o.side), o.id)
        && Vals(QueueFor(Opposite(o.side))) == b.Queue(Opposite(o.side))
      requires seqNo == b.seqNo && version == b.version
      modifies this`version
      ensures Cancelled(View(), Some(o)) == MatchingModel.Cancel(b, o.id) && BookOk(View())
    {
      hide BookOk;
      hide MatchingModel.Cancel;
      CancelKeeps(b, o.id);
      version := version + 1;
      ViewQueues(o.side);
      ViewQueues(Opposite(o.side));
      CancelledFrom(b, o, View());
    }

    method CancelHeld(o: Order)
      requires Valid() && o in QueueFor(o.side) && o.level != null
      modifies this`orders, this`bidQueue, this`askQueue, this`version, o`level, o`linked
      modifies TreeFor(o.side), TreeFor(o.side).nodes, LevelsFor(o.side)
      ensures Valid() && !o.linked && TreeFor(o.side).nodes <= old(TreeFor(o.side).nodes)
      ensures
        && From(QueueFor(o.side), old(QueueFor(o.side)), o)
        && QueueFor(Opposite(o.side)) == old(QueueFor(Opposite(o.side)))
      ensures Cancelled(View(), Some(o.Val())) == MatchingModel.Cancel(old(View()), o.id)
    {
      hide Sound;
      hide BookOk;
      hide Vals;
      hide View;
      hide From;
      hide Dropped;
      hide LevelOk;
      hide QueueFor;
      hide MatchingModel.Cancel;
      ghost var b, v := View(), o.Val();
      ViewQueues(o.side);
      ViewQueues(Opposite(o.side));
      DropMeans(o);
      ghost var own, opp := Dropped(QueueFor(o.side), o), QueueFor(Opposite(o.side));
      RemoveOrder(o);
      assert Vals(own) == old(Vals(own)) && Vals(opp) == old(Vals(opp));
      EndCancel(b, v);
    }

    /** Takes a resting order off the book, or reports that there is none with that id. */
    method Cancel(id: string) returns (r: Result<Order, CancelError>)
      requires Valid()
      modifies this, if id in orders then {orders[id]} else {}
      modifies bids, bids.nodes, bidLevels, asks, asks.nodes, askLevels
      ensures Valid()
      ensures Cancelled(View(), if r.Ok? then Some(r.value.Val()) else None) == MatchingModel.Cancel(old(View()), id)
      ensures r.Ok? ==> !r.value.linked && id in old(orders) && r.value == old(orders)[id]
      ensures r.Ok? ==> From(bidQueue, old(bidQueue), r.value) && From(askQueue, old(askQueue), r.value)
      ensures r.Err? ==> bidQueue == old(bidQueue) && askQueue == old(askQueue)
      ensures
        && bids.nodes <= old(bids.nodes) && asks.nodes <= old(asks.nodes) && bidLevels == old(bidLevels)
        && askLevels == old(askLevels)
    {
      hide Sound;
      hide BookOk;
      hide View;
      hide MatchingModel.Cancel;
      if id !in orders || !orders[id].linked {
        if id in orders {
          Held(id);
        }
        NotHeld(id);
        return Err(OrderNotResting);
      }
      var o := orders[id];
      Held(id);
      CancelHeld(o);
      return Ok(o);
    }

    /** A book none of whose objects changes stays as it is. */
    twostate lemma Unmoved(parts: set<object>)
      requires old(Valid()) && parts == old(Footprint()) && forall x :: x in parts ==> unchanged(x)
      ensures Valid() && Footprint() == parts && View() == old(View())
    {
      hide Sound;
      hide BookOk;
      hide Vals;
      assert bidQueue == old(bidQueue) && askQueue == old(askQueue);
      assert forall i :: 0 <= i < |bidQueue| ==> bidQueue[i] in parts;
      assert forall i :: 0 <= i < |askQueue| ==> askQueue[i] in parts;
      assert View() == old(View());
      assert Sound();
    }

    /** A book only ever gains the order it was given and new objects. */
    twostate lemma Grown(o: Order)
      requires From(bidQueue, old(bidQueue), o) && From(askQueue, old(askQueue), o)
      requires fresh(bids.nodes - old(bids.nodes)) && fresh(asks.nodes - old(asks.nodes))
      requires fresh(bidLevels - old(bidLevels)) && fresh(askLevels - old(askLevels))
      ensures fresh(Footprint() - old(Footprint()) - {o})
    {
      forall x | x in Footprint() && x !in old(Footprint()) && x != o ensures fresh(x) {
        assert x !in (set y | y in bidQueue) && x !in (set y | y in askQueue);
      }
    }

    twostate lemma ShrunkTo(o: Order)
      requires From(bidQueue, old(bidQueue), o) && From(askQueue, old(askQueue), o)
      requires o in old(bidQueue) || o in old(askQueue)
      requires bids.nodes <= old(bids.nodes) && asks.nodes <= old(asks.nodes)
      requires bidLevels == old(bidLevels) && askLevels == old(askLevels)
      ensures Footprint() <= old(Footprint())
    {
    }
  }

  lemma BothFrom(b: OrderBook, bids: seq<Order>, asks: seq<Order>, side: Side, o: Order)
    requires From(b.QueueFor(side), if side == Buy then bids else asks, o)
    requires From(b.QueueFor(Opposite(side)), if side == Buy then asks else bids, o)
    ensures From(b.bidQueue, bids, o) && From(b.askQueue, asks, o)
  {
  }
}
