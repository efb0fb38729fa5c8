/**
 The order service: it checks and stores orders, reserves their funds, hands them to the
 matching engine and applies what comes back. Each method is proved to do what OrderModel says.
 */
module OrderServices {
  import opened Engines
  import opened MatchingModel
  import opened MatchingRuns
  import opened OrderModel
  import opened OrderQueue
  import opened OrderWallets
  import opened Wrappers

  /** Every trade of a match names its taker. */
  lemma {:induction false} TradesOfTaker(taker: Ord, q: seq<Ord>)
    ensures forall i :: 0 <= i < |Match(taker, q).trades| ==> Match(taker, q).trades[i].takerId == taker.id
    decreases q
  {
    if q != [] {
      TradesOfTaker(taker, q[1..]);
      TradesOfTaker(taker.(filled := taker.filled + Min(taker.Remaining(), q[0].Remaining())), q[1..]);
    }
  }

  lemma PlacedByTaker(b: Book, o: Ord)
    ensures forall i :: 0 <= i < |Place(b, o).trades| ==> Place(b, o).trades[i].takerId == o.id
  {
    TradesOfTaker(o.(sequence := b.seqNo + 1), b.Queue(Opposite(o.side)));
  }

  function Plus(delta: map<string, int>, id: string, quantity: int): map<string, int> {
    delta[id := quantity + if id in delta then delta[id] else 0]
  }

  /** The deltas of some trades: an entry for each order that traded, with all it gained. */
  ghost predicate DeltasOf(delta: map<string, int>, trades: seq<Trade>) {
    forall id :: (id in delta <==> HasTraded(trades, id)) && Gain(trades, id) == if id in delta then delta[id] else 0
  }

  lemma {:induction false} GainNext(trades: seq<Trade>, t: Trade, id: string)
    ensures Gain(trades + [t], id) == Gain(trades, id) + (if t.makerId == id then t.quantity else 0) +
      (if t.takerId == id then t.quantity else 0)
    decreases trades
  {
    if trades != [] {
      assert (trades + [t])[1..] == trades[1..] + [t];
      GainNext(trades[1..], t, id);
    }
  }

  lemma TradedNext(trades: seq<Trade>, t: Trade, id: string)
    ensures HasTraded(trades + [t], id) <==> HasTraded(trades, id) || t.makerId == id || t.takerId == id
  {
    var all := trades + [t];
    if HasTraded(trades, id) {
      var i :| 0 <= i < |trades| && (trades[i].makerId == id || trades[i].takerId == id);
      assert all[i] == trades[i];
    }
    assert all[|trades|] == t;
  }

  lemma DeltasNext(delta: map<string, int>, trades: seq<Trade>, t: Trade)
    requires DeltasOf(delta, trades)
    ensures DeltasOf(Plus(Plus(delta, t.makerId, t.quantity), t.takerId, t.quantity), trades + [t])
  {
    var next := Plus(Plus(delta, t.makerId, t.quantity), t.takerId, t.quantity);
    forall id
      ensures
        && (id in next <==> HasTraded(trades + [t], id)) && Gain(trades + [t], id) == if id in next then next[id] else 0
    {
      GainNext(trades, t, id);
      TradedNext(trades, t, id);
    }
  }

  /** What the engine gives back for an order. */
  datatype MatchResult = MatchResult(trades: seq<Trade>, cancelled: seq<Ord>, rested: bool)

  function ResultOf(p: Placed): MatchResult { MatchResult(p.trades, p.cancelled, p.rested) }

  class OrderService {
    const pairs: Pairs
    const wallets: OrderWalletAdapter
    const engine: Engine
    var rows: Rows

    constructor (pairs: Pairs, wallets: OrderWalletAdapter, engine: Engine)
      requires engine.Valid() && wallets !in engine.All()
      ensures Valid() && this.pairs == pairs && this.wallets == wallets && this.engine == engine && rows == map[]
    {
      this.pairs, this.wallets, this.engine := pairs, wallets, engine;
      rows := map[];
    }

    ghost predicate Valid()
      reads this, engine, engine.All()
    {
      engine.Valid() && this !in engine.All() && wallets !in engine.All()
    }

    /** The table, the wallets, and what the engine's books show. */
    ghost function State(): World
      requires Valid()
      reads this, wallets, engine, engine.All()
    {
      World(rows, wallets.accounts, engine.Views())
    }

    // ----- the matching engine

    method Submit(pair: string, r: Row) returns (result: MatchResult)
      requires Valid() && Admissible(BookOf(engine.Views(), pair), ToEngineOrder(r))
      modifies engine, engine.All()
      ensures Valid()
      ensures var p := Place(BookOf(old(engine.Views()), pair), ToEngineOrder(r));
        result == ResultOf(p) && engine.Views() == old(engine.Views())[pair := p.book]
    {
      hide Engine.Views;
      hide Engine.ViewOf;
      hide Engine.BookIn;
      hide Place;
      hide Vals;
      engine.ViewAt(pair);
      ghost var all := engine.All();
      var o := new Order(r.id, r.user, r.side, r.kind, if r.kind == Market then 0 else r.price, r.quantity, r.filled);
      var trades, cancelled, rested := engine.Submit(pair, o);
      engine.ViewAt(pair);
      return MatchResult(trades, Vals(cancelled), rested);
    }

    method CancelInEngine(pair: string, id: string) returns (found: bool)
      requires Valid()
      modifies engine, engine.All()
      ensures Valid()
      ensures var c := MatchingModel.Cancel(BookOf(old(engine.Views()), pair), id);
        found == c.order.Some? && engine.Views() == old(engine.Views())[pair := c.book]
    {
      hide Engine.Views;
      hide Engine.ViewOf;
      hide Engine.BookIn;
      hide MatchingModel.Cancel;
      engine.ViewAt(pair);
      var r := engine.Cancel(pair, id);
      return r.Ok?;
    }

    // ----- creating an order

    /** The checks that need no wallet, in the order in which they are made. */
    method Validate(req: Request) returns (error: Option<OrderError>)
      ensures error.None? ==> req.pair in pairs && (req.kind == "market" || req.kind == "limit") && req.quantity >= 0
      ensures error == None ==> (req.kind == "limit") == (req.Kind() == Limit)
      ensures forall w: World, user ::
        (error.Some? ==> Rejection(w, pairs, user, req) == error) &&
        (error.None? ==> Rejection(w, pairs, user, req) == FundsCheck(w.accounts, pairs[req.pair], user, req))
    {
      if req.side != "buy" && req.side != "sell" {
        return Some(InvalidSide);
      }
      if req.kind == "market" {
        if req.price.Some? {
          return Some(PriceNotAllowed);
        }
      } else if req.kind == "limit" {
        if req.price.None? || req.price.value <= 0 {
          return Some(PriceRequired);
        }
      } else {
        return Some(InvalidType);
      }
      if req.pair !in pairs {
        return Some(PairNotFound);
      }
      var pair := pairs[req.pair];
      if !pair.active {
        return Some(PairSuspended);
      }
      if IsFiatRail(pair.base) || IsFiatRail(pair.quote) {
        return Some(FiatNotTradable);
      }
      if req.quantity < pair.minOrderSize {
        return Some(BelowMinOrderSize);
      }
      return None;
    }

    /** The checks that look at a wallet, and the lock on a limit order's funds. */
    method Reserve(user: string, req: Request, taker: Row, pair: Pair) returns (error: Option<OrderError>)
      requires taker.user == user && taker.kind == req.Kind() && taker.side == req.Side()
      requires taker.quantity == req.quantity && taker.price == req.Price()
      modifies wallets
      ensures match FundsCheck(old(wallets.accounts), pair, user, req)
        case Some(e) => error == Some(e) && wallets.accounts == old(wallets.accounts)
        case None =>
          match Reserved(old(wallets.accounts), pair, taker)
          case Err(e) => error == Some(WalletRefused(e)) && wallets.accounts == old(wallets.accounts)
          case Ok(a) => error == None && wallets.accounts == a
    {
      if req.Kind() == Limit || req.Side() == Sell {
        var available := wallets.AvailableBalance(user, pair.SpentCoin(req.Side()));
        var needed := pair.Cost(req.Side(), req.quantity, req.Price());
        if available < needed {
          return Some(InsufficientFunds);
        }
      }
      if taker.kind == Limit {
        var refused := wallets.LockBalance(user, pair.SpentCoin(taker.side),
          pair.Cost(taker.side, taker.quantity, taker.price));
        if refused.Some? {
          return Some(WalletRefused(refused.value));
        }
      }
      return None;
    }

    method CreateOrder(id: string, user: string, req: Request) returns (r: Result<Row, OrderError>)
      requires Valid() && id !in rows
      requires !HasId(BookOf(engine.Views(), req.pair).bids, id) && !HasId(BookOf(engine.Views(), req.pair).asks, id)
      modifies this, wallets, engine, engine.All()
      ensures Valid() && Reply(State(), r) == OrderModel.CreateOrder(old(State()), pairs, id, user, req)
    {
      hide Engine.Views;
      hide Engine.ViewOf;
      hide Engine.BookIn;
      hide Place;
      hide OrderModel.ApplyResult;
      hide Reserved;
      hide FundsCheck;
      var error := Validate(req);
      if error.Some? {
        return Err(error.value);
      }
      var pair, taker := pairs[req.pair], NewRow(id, user, req);
      error := Reserve(user, req, taker, pair);
      if error.Some? {
        return Err(error.value);
      }
      rows := rows[id := taker];
      var result := Submit(req.pair, taker);
      ghost var p := Place(BookOf(old(engine.Views()), req.pair), ToEngineOrder(taker));
      PlacedByTaker(BookOf(old(engine.Views()), req.pair), ToEngineOrder(taker));
      error, taker := ApplyResult(taker, result, pair, p);
      if error.Some? {
        return Err(error.value);
      }
      return Ok(taker);
    }

    /** Settles the trades one by one, each in its own transaction. */
    method SettleTrades(trades: seq<Trade>, taker: Row, pair: Pair) returns (error: Option<OrderError>)
      modifies wallets
      ensures Settled(wallets.accounts, error) == SettleAll(old(wallets.accounts), rows, pair, taker, trades)
      ensures error.None? ==> forall i :: 0 <= i < |trades| ==> trades[i].makerId in rows
    {
      var i := 0;
      while i < |trades|
        invariant i <= |trades| && forall j :: 0 <= j < i ==> trades[j].makerId in rows
        invariant SettleAll(wallets.accounts, rows, pair, taker, trades[i..]) ==
                  SettleAll(old(wallets.accounts), rows, pair, taker, trades)
      {
        var t := trades[i];
        if t.makerId !in rows {
          return Some(OrderNotFound);
        }
        var maker := rows[t.makerId];
        var refused := wallets.SettleTrade(MakerLeg(pair, maker, t), TakerLeg(pair, maker, taker, t));
        if refused.Some? {
          return Some(WalletRefused(refused.value));
        }
        i := i + 1;
      }
      return None;
    }

    /** How much every order gained, by id. */
    static method FillDeltas(trades: seq<Trade>) returns (fillDelta: map<string, int>)
      ensures DeltasOf(fillDelta, trades)
    {
      fillDelta := map[];
      var i := 0;
      while i < |trades|
        invariant i <= |trades| && DeltasOf(fillDelta, trades[..i])
      {
        var t := trades[i];
        DeltasNext(fillDelta, trades[..i], t);
        assert trades[..i] + [t] == trades[..i + 1];
        fillDelta := Plus(fillDelta, t.makerId, t.quantity);
        fillDelta := Plus(fillDelta, t.takerId, t.quantity);
        i := i + 1;
      }
      assert trades[..i] == trades;
    }

    /** Updates the makers that traded, in whatever order the deltas come. */
    method UpdateMakers(fillDelta: map<string, int>, taker: string, ghost trades: seq<Trade>)
      requires DeltasOf(fillDelta, trades) && forall id :: id in fillDelta && id != taker ==> id in rows
      modifies this`rows
      ensures rows == MakersUpdated(old(rows), taker, trades)
    {
      hide Gained;
      hide Gain;
      hide HasTraded;
      var todo := fillDelta.Keys;
      while todo != {}
        invariant todo <= fillDelta.Keys && rows.Keys == old(rows).Keys
        invariant forall id :: id in rows ==>
          rows[id] == if HasTraded(trades, id) && id != taker && id !in todo
                      then Gained(old(rows)[id], Gain(trades, id), true) else old(rows)[id]
        decreases |todo|
      {
        var id :| id in todo;
        todo := todo - {id};
        if id != taker {
          rows := rows[id := Gained(rows[id], fillDelta[id], true)];
        }
      }
    }

    /** Cancels the taker's own orders that were in its way, and returns what they had reserved. */
    method CancelMakers(cancelled: seq<Ord>, pair: Pair) returns (error: Option<OrderError>)
      modifies this`rows, wallets
      ensures Ledger(rows, wallets.accounts, error) ==
        OrderModel.CancelMakers(old(rows), old(wallets.accounts), pair, cancelled)
    {
      var i := 0;
      while i < |cancelled|
        invariant i <= |cancelled|
        invariant OrderModel.CancelMakers(rows, wallets.accounts, pair, cancelled[i..]) ==
                  OrderModel.CancelMakers(old(rows), old(wallets.accounts), pair, cancelled)
      {
        var id := cancelled[i].id;
        if id !in rows {
          return Some(OrderNotFound);
        }
        var maker := rows[id];
        rows := rows[id := maker.(status := Status.Cancelled)];
        ReleaseRemaining(maker, pair);
        i := i + 1;
      }
      return None;
    }

    method ReleaseRemaining(r: Row, pair: Pair)
      modifies wallets
      ensures wallets.accounts == Unreserved(old(wallets.accounts), pair, r)
    {
      if r.kind == Limit && r.lockedAmount > 0 {
        var remaining := r.quantity - r.filled;
        if remaining > 0 {
          wallets.UnlockBalance(r.user, pair.SpentCoin(r.side), pair.Cost(r.side, remaining, r.price));
        }
      }
    }

    method ApplyResult(taker: Row, result: MatchResult, pair: Pair, ghost p: Placed)
      returns (error: Option<OrderError>, updated: Row)
      requires result == ResultOf(p) && forall i :: 0 <= i < |p.trades| ==> p.trades[i].takerId == taker.id
      modifies this`rows, wallets
      ensures Ledger(rows, wallets.accounts, error) ==
        OrderModel.ApplyResult(old(rows), old(wallets.accounts), pair, taker, p)
      ensures error.None? ==> updated == Gained(taker, Gain(p.trades, taker.id), p.rested)
    {
      hide SettleAll;
      hide MakersUpdated;
      hide Gain;
      hide OrderModel.CancelMakers;
      updated := taker;
      error := SettleTrades(result.trades, taker, pair);
      if error.Some? {
        return;
      }
      var fillDelta := FillDeltas(result.trades);
      forall id | HasTraded(result.trades, id) && id != taker.id ensures id in rows {
        var i :| 0 <= i < |result.trades| && (result.trades[i].makerId == id || result.trades[i].takerId == id);
      }
      UpdateMakers(fillDelta, taker.id, result.trades);
      error := CancelMakers(result.cancelled, pair);
      if error.Some? {
        return;
      }
      var gain := if taker.id in fillDelta then fillDelta[taker.id] else 0;
      updated := taker.(filled := taker.filled + gain);
      updated := updated.(status := DeriveStatus(updated, result.rested));
      rows := rows[taker.id := updated];
    }

    // ----- cancelling orders

    method CancelOrder(user: string, id: string) returns (r: Result<Row, OrderError>)
      requires Valid()
      modifies this, wallets, engine, engine.All()
      ensures Valid() && Reply(State(), r) == OrderModel.CancelOrder(old(State()), pairs, user, id)
    {
      hide Engine.Views;
      hide Engine.ViewOf;
      hide Engine.BookIn;
      hide MatchingModel.Cancel;
      hide Unreserved;
      if id !in rows {
        return Err(OrderNotFound);
      }
      var o := rows[id];
      if o.user != user {
        return Err(OrderNotFound);
      }
      if !(o.status == Pending || o.status == Open || o.status == PartiallyFilled) {
        return Err(OrderNotCancellable);
      }
      var found := CancelInEngine(o.pair, id);
      if !found {
        return Err(OrderNotCancellable);
      }
      var cancelled := o.(status := Status.Cancelled);
      rows := rows[id := cancelled];
      if o.pair in pairs {
        ReleaseRemaining(o, pairs[o.pair]);
      } else if o.kind == Limit && o.lockedAmount > 0 {
        return Err(Crashed);
      }
      return Ok(cancelled);
    }

    /** The orders that are pending, open or partially filled, in some order. */
    method FindAllOpen() returns (ids: seq<string>)
      ensures LiveList(rows, ids)
    {
      ids := [];
      var todo := rows.Keys;
      while todo != {}
        invariant todo <= rows.Keys
        invariant forall i :: 0 <= i < |ids| ==> ids[i] in rows && rows[ids[i]].Live() && ids[i] !in todo
        invariant forall i, j :: 0 <= i < j < |ids| ==> ids[i] != ids[j]
        invariant forall id :: id in rows && rows[id].Live() ==> id in todo || id in ids
        decreases |todo|
      {
        var id :| id in todo;
        todo := todo - {id};
        var status := rows[id].status;
        if status == Pending || status == Open || status == PartiallyFilled {
          ids := ids + [id];
        }
      }
    }

    /** Cancels every order that is still live in the table and returns its reserve; run at startup. */
    method CleanupOpenOrders() returns (ghost ids: seq<string>)
      requires forall id :: id in rows ==> rows[id].id == id
      modifies this`rows, wallets
      ensures
        && LiveList(old(rows), ids) && (rows, wallets.accounts) == Cleanup(old(rows), old(wallets.accounts), pairs, ids)
    {
      var orders := FindAllOpen();
      ids := orders;
      var i := 0;
      while i < |orders|
        invariant i <= |orders| && rows.Keys == old(rows).Keys && forall id :: id in rows ==> rows[id].id == id
        invariant Cleanup(rows, wallets.accounts, pairs, orders[i..]) ==
                  Cleanup(old(rows), old(wallets.accounts), pairs, orders)
      {
        var o := rows[orders[i]];
        if o.pair in pairs {
          ReleaseRemaining(o, pairs[o.pair]);
        }
        rows := rows[o.id := o.(status := Status.Cancelled)];
        i := i + 1;
      }
    }
  }
}
