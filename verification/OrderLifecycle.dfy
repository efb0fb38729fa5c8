/** Cancelling, starting up, whole runs, and where the money is. */
module OrderLifecycle {
  import opened MapSums
  import opened MatchingModel
  import opened MatchingRuns
  import opened OrderApply
  import opened OrderModel
  import opened OrderReserves
  import opened OrderRuns
  import opened OrderWallets
  import opened OrderWorld
  import opened Wallets

  // ----- cancelling an order

  /** An order stored in one queue of a book is found there, and only there. */
  lemma CancelFinds(rows: Rows, b: Book, pair: string, id: string)
    requires BookStored(rows, b, pair) && id in rows
    ensures var c := Cancel(b, id);
      if HasId(b.Queue(rows[id].side), id) then
        && c.order.Some? && Find(b.Queue(rows[id].side), id).Some?
        && c.book.Queue(rows[id].side) == Without(b.Queue(rows[id].side), id)
        && c.book.Queue(Opposite(rows[id].side)) == b.Queue(Opposite(rows[id].side))
      else c.order.None? && c.book == b
    ensures !HasId(b.Queue(Opposite(rows[id].side)), id)
  {
    FindHas(b.bids, id);
    FindHas(b.asks, id);
    SideOf(rows, b, pair, Buy, id);
    SideOf(rows, b, pair, Sell, id);
  }

  lemma SideOf(rows: Rows, b: Book, pair: string, side: Side, id: string)
    requires BookStored(rows, b, pair) && id in rows
    ensures HasId(b.Queue(side), id) ==>
      rows[id].side == side && rows[id].kind == Limit && rows[id].pair == pair && rows[id].Live()
  {
    FromSide(b, side);
    if i :| 0 <= i < |b.Queue(side)| && b.Queue(side)[i].id == id {
      assert MayRest(side, b.Queue(side)[i], b.seqNo);
      assert Stored(rows[b.Queue(side)[i].id], b.Queue(side)[i], pair);
    }
  }

  lemma StoredWithout(rows: Rows, q: seq<Ord>, r: seq<Ord>, pair: string, id: string)
    requires QueueStored(rows, q, pair) && id in rows
    requires forall i :: 0 <= i < |r| ==> r[i] in q && r[i].id != id
    ensures QueueStored(rows[id := rows[id].(status := Status.Cancelled)], r, pair)
  {
    var rows' := rows[id := rows[id].(status := Status.Cancelled)];
    forall i | 0 <= i < |r| ensures r[i].id in rows' && Stored(rows'[r[i].id], r[i], pair) {
      var j :| 0 <= j < |q| && q[j] == r[i];
    }
  }

  /** The cancelled order's book agrees with the table in which it is cancelled. */
  lemma CancelStored(rows: Rows, b: Book, pair: string, id: string)
    requires BookStored(rows, b, pair) && id in rows && HasId(b.Queue(rows[id].side), id)
    ensures BookStored(rows[id := rows[id].(status := Status.Cancelled)], Cancel(b, id).book, pair)
  {
    var side := rows[id].side;
    var own, opp := b.Queue(side), b.Queue(Opposite(side));
    CancelFinds(rows, b, pair, id);
    CancelKeeps(b, id);
    FromSide(b, side);
    hide BookOk;
    WithoutMembers(own, id);
    StoredWithout(rows, own, Without(own, id), pair, id);
    forall i | 0 <= i < |opp| ensures opp[i].id != id { assert !HasId(opp, id); }
    StoredWithout(rows, opp, opp, pair, id);
  }

  lemma OthersCancelled(rows: Rows, b: Book, pair: string, id: string)
    requires BookStored(rows, b, pair) && id in rows && rows[id].pair != pair
    ensures BookStored(rows[id := rows[id].(status := Status.Cancelled)], b, pair)
  {
    forall side: Side, i | 0 <= i < |b.Queue(side)| ensures b.Queue(side)[i].id != id {
      if b.Queue(side)[i].id == id { SideOf(rows, b, pair, side, id); }
    }
    assert b.Queue(Buy) == b.bids && b.Queue(Sell) == b.asks;
    StoredWithout(rows, b.bids, b.bids, pair, id);
    StoredWithout(rows, b.asks, b.asks, pair, id);
  }

  /**
   Cancelling succeeds exactly for a live limit order of the caller, and whatever it does, everything
   still agrees.
   */
  lemma CancelOrderKeeps(pairs: Pairs, w: World, user: string, id: string)
    requires WorldOk(pairs, w)
    ensures var reply := CancelOrder(w, pairs, user, id);
      && WorldOk(pairs, reply.world)
      && (reply.result.Ok? <==>
           id in w.rows && w.rows[id].user == user && w.rows[id].Live() && w.rows[id].kind == Limit)
      && (forall a :: LockedOf(reply.world.accounts, a) ==
            LockedOf(w.accounts, a) - if reply.result.Ok? then Owes(pairs, w.rows[id], a) else 0)
      && (forall a :: Spare(pairs, reply.world.rows, reply.world.accounts, a) == Spare(pairs, w.rows, w.accounts, a))
  {
    hide Spare;
    hide Covered;
    hide BookStored;
    hide Unreserved;
    hide Owes;
    hide Cancel;
    if id in w.rows && w.rows[id].user == user && w.rows[id].Live() {
      var r := w.rows[id];
      var b, books := BookOf(w.books, r.pair), w.books[r.pair := Cancel(BookOf(w.books, r.pair), id).book];
      PairKnown(pairs, w.rows, w.accounts, id);
      assert BookStored(w.rows, b, r.pair);
      CancelFinds(w.rows, b, r.pair, id);
      if HasId(b.Queue(r.side), id) {
        SideOf(w.rows, b, r.pair, r.side, id);
        ReleaseKeeps(pairs, w.rows, w.accounts, id);
        CancelledSimulates(w, id);
      } else {
        assert forall p :: BookOf(books, p) == BookOf(w.books, p);
      }
    }
  }

  lemma PairKnown(pairs: Pairs, rows: Rows, accounts: Accounts, id: string)
    requires Covered(pairs, rows, accounts) && id in rows
    ensures rows[id].pair in pairs && rows[id].id == id
  {
    assert RowOk(pairs, id, rows[id]);
  }

  lemma CancelledSimulates(w: World, id: string)
    requires Simulates(w.rows, w.books) && id in w.rows
    requires HasId(BookOf(w.books, w.rows[id].pair).Queue(w.rows[id].side), id)
    ensures Simulates(w.rows[id := w.rows[id].(status := Status.Cancelled)],
                      w.books[w.rows[id].pair := Cancel(BookOf(w.books, w.rows[id].pair), id).book])
  {
    hide BookStored;
    hide Cancel;
    var r := w.rows[id];
    var rows', b := w.rows[id := r.(status := Status.Cancelled)], BookOf(w.books, r.pair);
    var books := w.books[r.pair := Cancel(b, id).book];
    assert BookStored(w.rows, b, r.pair);
    CancelFinds(w.rows, b, r.pair, id);
    forall p ensures BookStored(rows', BookOf(books, p), p) {
      assert BookStored(w.rows, BookOf(w.books, p), p);
      if p == r.pair {
        CancelStored(w.rows, b, p, id);
      } else {
        OthersCancelled(w.rows, BookOf(w.books, p), p, id);
      }
    }
    BookDistinct(w.rows, b, r.pair, r.side);
    WithoutMembers(b.Queue(r.side), id);
  }

  lemma BookDistinct(rows: Rows, b: Book, pair: string, side: Side)
    requires BookStored(rows, b, pair)
    ensures DistinctIds(b.Queue(side))
  {
    FromSide(b, side);
  }

  // ----- starting up

  lemma NothingOwed(pairs: Pairs, rows: Rows)
    requires forall id :: id in rows ==> !rows[id].Live()
    ensures forall a :: Owed(pairs, rows, a) == 0
  {
    forall a ensures Owed(pairs, rows, a) == 0 {
      SumZero(map id | id in rows :: Owes(pairs, rows[id], a));
    }
  }

  lemma NoneLeft(rows: Rows)
    requires LiveList(rows, [])
    ensures forall id :: id in rows ==> !rows[id].Live()
  {
  }

  /**
   The engine starts with empty books. The clean-up leaves no order live, and takes exactly what
   the live orders owed off the locked funds: nothing is clamped, and what was locked beyond stays locked.
   */
  lemma {:induction false} CleanupKeeps(pairs: Pairs, rows: Rows, accounts: Accounts, ids: seq<string>)
    requires Covered(pairs, rows, accounts) && LiveList(rows, ids)
    ensures var done := Cleanup(rows, accounts, pairs, ids);
      && Covered(pairs, done.0, done.1) && done.0.Keys == rows.Keys
      && (forall id :: id in done.0 ==> !done.0[id].Live())
      && (forall a :: LockedOf(done.1, a) == LockedOf(accounts, a) - Owed(pairs, rows, a))
    decreases ids
  {
    hide Covered;
    hide Unreserved;
    hide Owed;
    hide LockedOf;
    hide LiveList;
    if ids == [] {
      NoneLeft(rows);
      NothingOwed(pairs, rows);
    } else {
      LiveListRest(rows, ids);
      var r := rows[ids[0]];
      PairKnown(pairs, rows, accounts, ids[0]);
      ReleaseKeeps(pairs, rows, accounts, ids[0]);
      var rows', after := rows[r.id := r.(status := Status.Cancelled)], Returned(accounts, pairs, r);
      CleanupKeeps(pairs, rows', after, ids[1..]);
      forall a ensures LockedOf(after, a) - Owed(pairs, rows', a) == LockedOf(accounts, a) - Owed(pairs, rows, a) {
        assert Spare(pairs, rows', after, a) == Spare(pairs, rows, accounts, a);
      }
    }
  }

  lemma LiveListRest(rows: Rows, ids: seq<string>)
    requires LiveList(rows, ids) && ids != []
    ensures ids[0] in rows && rows[ids[0]].Live()
    ensures LiveList(rows[ids[0] := rows[ids[0]].(status := Status.Cancelled)], ids[1..])
  {
    var rows' := rows[ids[0] := rows[ids[0]].(status := Status.Cancelled)];
    forall i | 0 <= i < |ids[1..]| ensures ids[1..][i] in rows' && rows'[ids[1..][i]].Live() {
      assert ids[i + 1] != ids[0];
    }
    forall id | id in rows' && rows'[id].Live() ensures id in ids[1..] {
      var i :| 0 <= i < |ids| && ids[i] == id;
      assert ids[1..][i - 1] == id;
    }
  }

  // ----- runs

  datatype Event =
    | Create(id: string, user: string, req: Request)
    | CancelBy(user: string, id: string)
    | Restart(live: seq<string>)

  function After(pairs: Pairs, w: World, e: Event): World {
    match e
    case Create(id, user, req) => CreateOrder(w, pairs, id, user, req).world
    case CancelBy(user, id) => CancelOrder(w, pairs, user, id).world
    case Restart(live) => var done := Cleanup(w.rows, w.accounts, pairs, live); World(done.0, done.1, map[])
  }

  function RunOf(pairs: Pairs, w: World, events: seq<Event>): World
    decreases events
  {
    if events == [] then w else RunOf(pairs, After(pairs, w, events[0]), events[1..])
  }

  /** New ids are new, a restart is given the live orders, and no settlement will be refused. */
  ghost predicate Smooth(pairs: Pairs, w: World, e: Event) {
    match e
    case Create(id, user, req) => id !in w.rows &&
      (Accepted(pairs, w, id, user, req) ==> Affordable(pairs, w, id, user, req))
    case CancelBy(_, _) => true
    case Restart(live) => LiveList(w.rows, live)
  }

  ghost predicate SmoothRun(pairs: Pairs, w: World, events: seq<Event>)
    decreases events
  {
    events != [] ==> Smooth(pairs, w, events[0]) && SmoothRun(pairs, After(pairs, w, events[0]), events[1..])
  }

  lemma StepKeeps(pairs: Pairs, w: World, e: Event)
    requires WorldOk(pairs, w) && Smooth(pairs, w, e)
    ensures WorldOk(pairs, After(pairs, w, e))
  {
    match e
    case Create(id, user, req) =>
      if Accepted(pairs, w, id, user, req) {
        CreateKeeps(pairs, w, id, user, req);
      } else {
        NotAccepted(pairs, w, id, user, req);
      }
    case CancelBy(user, id) =>
      CancelOrderKeeps(pairs, w, user, id);
    case Restart(live) =>
      CleanupKeeps(pairs, w.rows, w.accounts, live);
      var done := Cleanup(w.rows, w.accounts, pairs, live);
      forall p ensures BookStored(done.0, BookOf(map[], p), p) {}
  }

  /** A request that is rejected, or whose funds cannot be reserved, changes nothing. */
  lemma NotAccepted(pairs: Pairs, w: World, id: string, user: string, req: Request)
    requires !Accepted(pairs, w, id, user, req)
    ensures CreateOrder(w, pairs, id, user, req).world == w && CreateOrder(w, pairs, id, user, req).result.Err?
  {
  }

  /** Along any run without a refused settlement the reserves are covered and the table agrees with the books. */
  lemma {:induction false} RunKeepsWorld(pairs: Pairs, w: World, events: seq<Event>)
    requires WorldOk(pairs, w) && SmoothRun(pairs, w, events)
    ensures WorldOk(pairs, RunOf(pairs, w, events))
    decreases events
  {
    if events != [] {
      hide WorldOk;
      StepKeeps(pairs, w, events[0]);
      RunKeepsWorld(pairs, After(pairs, w, events[0]), events[1..]);
    }
  }

  /** A limit order that is accepted goes through, so that a run of limit orders is always smooth. */
  lemma LimitOrdersAreSmooth(pairs: Pairs, w: World, e: Event)
    requires WorldOk(pairs, w) && e.Create? && e.id !in w.rows && e.req.kind == "limit"
    ensures Smooth(pairs, w, e)
    ensures Accepted(pairs, w, e.id, e.user, e.req) ==> CreateOrder(w, pairs, e.id, e.user, e.req).result.Ok?
  {
    hide WorldOk;
    hide CreateOrder;
    if Accepted(pairs, w, e.id, e.user, e.req) {
      CreateKeeps(pairs, w, e.id, e.user, e.req);
    }
  }

  // ----- where the money is

  lemma LegsMirror(pair: Pair, maker: Row, taker: Row, t: Trade)
    ensures Mirrored(MakerLeg(pair, maker, t), TakerLeg(pair, maker, taker, t))
  {
  }

  lemma {:induction false} SettleAllConserves(accounts: Accounts, rows: Rows, pair: Pair, taker: Row,
          trades: seq<Trade>, currency: string)
    ensures Total(SettleAll(accounts, rows, pair, taker, trades).accounts, currency) == Total(accounts, currency)
    decreases trades
  {
    hide Settle;
    hide Pair.Cost;
    if trades != [] && trades[0].makerId in rows {
      var maker := rows[trades[0].makerId];
      var m, k := MakerLeg(pair, maker, trades[0]), TakerLeg(pair, maker, taker, trades[0]);
      if Settle(accounts, m, k).Ok? {
        LegsMirror(pair, maker, taker, trades[0]);
        SettleConserves(accounts, m, k, currency);
        SettleAllConserves(Settle(accounts, m, k).value, rows, pair, taker, trades[1..], currency);
      }
    }
  }

  lemma UnreservedConserves(accounts: Accounts, pair: Pair, r: Row, currency: string)
    ensures Total(Unreserved(accounts, pair, r), currency) == Total(accounts, currency)
  {
    LockConserves(accounts, Account(r.user, pair.SpentCoin(r.side)), pair.Cost(r.side, r.Remaining(), r.price),
      currency);
  }

  lemma {:induction false} CancelMakersConserve(rows: Rows, accounts: Accounts, pair: Pair, cancelled: seq<Ord>,
          currency: string)
    ensures Total(CancelMakers(rows, accounts, pair, cancelled).accounts, currency) == Total(accounts, currency)
    decreases cancelled
  {
    hide Unreserved;
    if cancelled != [] && cancelled[0].id in rows {
      var one := CancelOne(rows, accounts, pair, cancelled[0].id);
      UnreservedConserves(accounts, pair, rows[cancelled[0].id], currency);
      CancelMakersConserve(one.rows, one.accounts, pair, cancelled[1..], currency);
    }
  }

  lemma {:induction false} CleanupConserves(rows: Rows, accounts: Accounts, pairs: Pairs, ids: seq<string>,
          currency: string)
    ensures Total(Cleanup(rows, accounts, pairs, ids).1, currency) == Total(accounts, currency)
    decreases ids
  {
    hide Unreserved;
    if ids != [] && ids[0] in rows {
      var r := rows[ids[0]];
      if r.pair in pairs {
        UnreservedConserves(accounts, pairs[r.pair], r, currency);
      }
      CleanupConserves(rows[r.id := r.(status := Status.Cancelled)], Returned(accounts, pairs, r), pairs, ids[1..],
        currency);
    }
  }

  /**
   No event makes or destroys money in any currency, from any state and on every way out, a refused
   settlement included.
   */
  lemma StepConserves(pairs: Pairs, w: World, e: Event, currency: string)
    ensures Total(After(pairs, w, e).accounts, currency) == Total(w.accounts, currency)
  {
    match e
    case Create(id, user, req) =>
      CreateConserves(pairs, w, id, user, req, currency);
    case CancelBy(user, id) =>
      if id in w.rows && w.rows[id].pair in pairs {
        UnreservedConserves(w.accounts, pairs[w.rows[id].pair], w.rows[id], currency);
      }
    case Restart(live) =>
      CleanupConserves(w.rows, w.accounts, pairs, live, currency);
  }

  lemma ApplyConserves(rows: Rows, accounts: Accounts, pair: Pair, taker: Row, p: Placed, currency: string)
    ensures Total(ApplyResult(rows, accounts, pair, taker, p).accounts, currency) == Total(accounts, currency)
  {
    hide SettleAll;
    hide CancelMakers;
    hide MakersUpdated;
    hide Total;
    SettleAllConserves(accounts, rows, pair, taker, p.trades, currency);
    CancelMakersConserve(MakersUpdated(rows, taker.id, p.trades),
      SettleAll(accounts, rows, pair, taker, p.trades).accounts,
                         pair, p.cancelled, currency);
  }

  lemma CreateConserves(pairs: Pairs, w: World, id: string, user: string, req: Request, currency: string)
    ensures Total(CreateOrder(w, pairs, id, user, req).world.accounts, currency) == Total(w.accounts, currency)
  {
    hide Place;
    hide ApplyResult;
    hide Total;
    hide Lock;
    hide CreateOrder;
    if Accepted(pairs, w, id, user, req) {
      var r, pair := NewRow(id, user, req), pairs[req.pair];
      LockConserves(w.accounts, Account(user, pair.SpentCoin(r.side)), pair.Cost(r.side, r.quantity, r.price),
        currency);
      ApplyConserves(w.rows[id := r], Reserved(w.accounts, pair, r).value, pair, r,
                     Place(BookOf(w.books, req.pair), ToEngineOrder(r)), currency);
      CreateUnfolds(pairs, w, id, user, req);
    } else {
      NotAccepted(pairs, w, id, user, req);
    }
  }

  lemma {:induction false} RunConserves(pairs: Pairs, w: World, events: seq<Event>, currency: string)
    ensures Total(RunOf(pairs, w, events).accounts, currency) == Total(w.accounts, currency)
    decreases events
  {
    if events != [] {
      StepConserves(pairs, w, events[0], currency);
      RunConserves(pairs, After(pairs, w, events[0]), events[1..], currency);
    }
  }
}
