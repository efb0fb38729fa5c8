/**
 How much a wallet has locked beyond what its orders still owe: exactly which fills make it more,
 and that nothing makes it less.
 */
module OrderDrift {
  import opened MapSums
  import opened MatchingModel
  import opened OrderApply
  import opened OrderLifecycle
  import opened OrderModel
  import opened OrderRefusals
  import opened OrderReserves
  import opened OrderRuns
  import opened OrderSettlement
  import opened OrderSimulation
  import opened OrderWallets
  import opened OrderWorld
  import opened Wallets
  import opened Wrappers

  // ----- one fill

  /** What a fill leaves locked though the order no longer owes it. */
  function Slack(pairs: Pairs, r: Row, quantity: int, price: int): int
    requires r.pair in pairs
  {
    Reserve(pairs, r) - Reserve(pairs, r.(filled := r.filled + quantity)) - pairs[r.pair].Cost(r.side, quantity, price)
  }

  /** The fill costs what it would at the order's own price, and cutting it off the order loses nothing. */
  predicate Exact(pairs: Pairs, r: Row, quantity: int, price: int)
    requires r.pair in pairs
  {
    var cost := (lots, ticks) => pairs[r.pair].Cost(r.side, lots, ticks);
    && cost(quantity, price) == cost(quantity, r.price)
    && cost(r.Remaining(), r.price) == cost(quantity, r.price) + cost(r.Remaining() - quantity, r.price)
  }

  /** A fill never takes more than the order no longer owes, and takes all of it if and only if it is exact. */
  lemma SlackExactly(pairs: Pairs, r: Row, quantity: int, price: int)
    requires RowOk(pairs, r.id, r) && r.Live() && r.kind == Limit && 0 <= quantity <= r.Remaining()
    requires 0 <= price && (r.side == Buy ==> price <= r.price)
    ensures Slack(pairs, r, quantity, price) >= 0
    ensures Slack(pairs, r, quantity, price) == 0 <==> Exact(pairs, r, quantity, price)
  {
    hide Pair.Cost;
    CostSplit(pairs[r.pair], r.side, r.Remaining(), quantity, r.price);
    CostBetter(pairs[r.pair], r.side, quantity, price, r.price);
    assert r.(filled := r.filled + quantity).Remaining() == r.Remaining() - quantity;
  }

  /** Two cut-off parts come to the cut-off whole if and only if what was cut off is less than one unit. */
  lemma FloorSumExactly(x: int, y: int, d: int)
    requires d > 0
    ensures x / d + y / d == (x + y) / d <==> x % d + y % d < d
  {
    var p, q := x / d, y / d;
    var rest := x % d + y % d;
    assert x + y == d * (p + q) + rest by {
      assert x == d * p + x % d && y == d * q + y % d && d * (p + q) == d * p + d * q;
    }
    if rest < d {
      QuotientIs(x + y, d, p + q, rest);
    } else {
      assert d * (p + q + 1) == d * (p + q) + d;
      QuotientIs(x + y, d, p + q + 1, rest - d);
    }
  }

  lemma QuotientIs(x: int, d: int, q: int, r: int)
    requires d > 0 && x == d * q + r && 0 <= r < d
    ensures x / d == q
  {
    FloorLargest(x, d, q);
    var f := x / d;
    assert d * f <= x && d * (q + 1) == d * q + d;
    if f > q { TimesMono(d, q + 1, f); }
  }

  lemma WholeQuotient(d: int, k: int)
    requires d > 0
    ensures d * k / d == k
  {
    QuotientIs(d * k, d, k, 0);
  }

  /** What some lots at some price come to in smallest units, before it is divided by `ScaleOf` and cut off. */
  function Scaled(pair: Pair, lots: int, price: int): int { lots * price * SmallestUnitFactor(pair.quote) }

  function ScaleOf(priceDecimals: nat): (d: int)
    ensures d > 0
  {
    LOT_SCALE * Pow10(priceDecimals)
  }

  /**
   A fill of a buy is exact if and only if its better price makes no difference after the cut-off,
   and what is cut off the fill and off the rest together stays below one unit.
   */
  lemma BuysExact(pairs: Pairs, r: Row, quantity: int, price: int, priceDecimals: nat)
    requires r.pair in pairs && r.side == Buy
    requires pairs[r.pair].convert == CutOff(pairs[r.pair].base, pairs[r.pair].quote, priceDecimals)
    ensures var pair, d, rest := pairs[r.pair], ScaleOf(priceDecimals), r.Remaining() - quantity;
      Exact(pairs, r, quantity, price) <==>
      && Scaled(pair, quantity, price) / d == Scaled(pair, quantity, r.price) / d
      && Scaled(pair, quantity, r.price) % d + Scaled(pair, rest, r.price) % d < d
  {
    var pair, d, rest := pairs[r.pair], ScaleOf(priceDecimals), r.Remaining() - quantity;
    FloorSumExactly(Scaled(pair, quantity, r.price), Scaled(pair, rest, r.price), d);
    ScaledAdds(pair, quantity, rest, r.price);
    BuyCosts(pair, priceDecimals);
  }

  lemma BuyCosts(pair: Pair, priceDecimals: nat)
    requires pair.convert == CutOff(pair.base, pair.quote, priceDecimals)
    ensures forall lots, price :: pair.Cost(Buy, lots, price) == Scaled(pair, lots, price) / ScaleOf(priceDecimals)
  {
  }

  lemma ScaledAdds(pair: Pair, lots: int, more: int, price: int)
    ensures Scaled(pair, lots + more, price) == Scaled(pair, lots, price) + Scaled(pair, more, price)
  {
  }

  /** Where a lot of the coin sold is a whole number of its smallest units, every fill of a sale is exact. */
  lemma SalesExact(pairs: Pairs, r: Row, quantity: int, price: int, priceDecimals: nat)
    requires r.pair in pairs && r.side == Sell && SmallestUnitFactor(pairs[r.pair].base) % LOT_SCALE == 0
    requires pairs[r.pair].convert == CutOff(pairs[r.pair].base, pairs[r.pair].quote, priceDecimals)
    ensures Exact(pairs, r, quantity, price)
  {
    var k := SmallestUnitFactor(pairs[r.pair].base) / LOT_SCALE;
    var rest := r.Remaining() - quantity;
    SaleCosts(pairs[r.pair], priceDecimals, k, r.Remaining());
    SaleCosts(pairs[r.pair], priceDecimals, k, quantity);
    SaleCosts(pairs[r.pair], priceDecimals, k, rest);
    assert r.Remaining() * k == quantity * k + rest * k;
  }

  lemma SaleCosts(pair: Pair, priceDecimals: nat, k: int, lots: int)
    requires SmallestUnitFactor(pair.base) == LOT_SCALE * k
    requires pair.convert == CutOff(pair.base, pair.quote, priceDecimals)
    ensures forall price :: pair.Cost(Sell, lots, price) == lots * k
  {
    assert lots * (LOT_SCALE * k) == LOT_SCALE * (lots * k);
    WholeQuotient(LOT_SCALE, lots * k);
  }

  // ----- all fills of a match

  /** What one trade adds to a wallet's spare funds on behalf of one of its orders. */
  function FillDrift(pairs: Pairs, rows: Rows, id: string, t: Trade, a: Account): int {
    if id in rows && rows[id].pair in pairs && rows[id].kind == Limit && a == SourceOf(pairs, rows[id])
    then Slack(pairs, rows[id], t.quantity, t.price)
    else 0
  }

  function Drift(pairs: Pairs, rows: Rows, trades: seq<Trade>, a: Account): int
    decreases trades
  {
    if trades == [] then 0
    else
      var t := trades[0];
      FillDrift(pairs, rows, t.makerId, t, a) + FillDrift(pairs, rows, t.takerId, t, a) +
      Drift(pairs, TradedRows(rows, t), trades[1..], a)
  }

  predicate ExactFill(pairs: Pairs, rows: Rows, id: string, t: Trade) {
    id in rows && rows[id].pair in pairs && rows[id].kind == Limit ==> Exact(pairs, rows[id], t.quantity, t.price)
  }

  /** Every fill of every limit order in these trades is exact. */
  predicate ExactFills(pairs: Pairs, rows: Rows, trades: seq<Trade>)
    decreases trades
  {
    trades != [] ==>
      && ExactFill(pairs, rows, trades[0].makerId, trades[0]) && ExactFill(pairs, rows, trades[0].takerId, trades[0])
      && ExactFills(pairs, TradedRows(rows, trades[0]), trades[1..])
  }

  /** An order that is good for this much at this price. */
  ghost predicate Fillable(pairs: Pairs, rows: Rows, id: string, t: Trade) {
    && id in rows && RowOk(pairs, id, rows[id]) && rows[id].Live() && 0 <= t.quantity <= rows[id].Remaining()
    && 0 <= t.price
    && (rows[id].kind == Limit && rows[id].side == Buy ==> t.price <= rows[id].price)
  }

  lemma FitsFillable(pairs: Pairs, rows: Rows, pair: string, taker: Row, t: Trade)
    requires RowsOk(pairs, rows) && Fits(rows, pair, taker, t)
    ensures Fillable(pairs, rows, t.makerId, t) && Fillable(pairs, rows, t.takerId, t)
    ensures Fillable(pairs, Advance(rows, t.makerId, t.quantity), t.takerId, t)
    ensures forall a :: FillDrift(pairs, Advance(rows, t.makerId, t.quantity), t.takerId, t, a) ==
                        FillDrift(pairs, rows, t.takerId, t, a)
  {
    assert RowOk(pairs, t.makerId, rows[t.makerId]) && RowOk(pairs, t.takerId, rows[t.takerId]);
  }

  ghost predicate NoFillDrift(pairs: Pairs, rows: Rows, id: string, t: Trade) {
    forall a :: FillDrift(pairs, rows, id, t, a) == 0
  }

  lemma FillDriftExactly(pairs: Pairs, rows: Rows, id: string, t: Trade)
    requires Fillable(pairs, rows, id, t)
    ensures forall a :: FillDrift(pairs, rows, id, t, a) >= 0
    ensures NoFillDrift(pairs, rows, id, t) <==> ExactFill(pairs, rows, id, t)
  {
    hide Slack;
    hide Exact;
    if rows[id].kind == Limit {
      SlackExactly(pairs, rows[id], t.quantity, t.price);
      assert FillDrift(pairs, rows, id, t, SourceOf(pairs, rows[id])) == Slack(pairs, rows[id], t.quantity, t.price);
    }
  }

  ghost predicate NoDrift(pairs: Pairs, rows: Rows, trades: seq<Trade>) {
    forall a :: Drift(pairs, rows, trades, a) == 0
  }

  /** Drifts are never negative, so that they come to nothing only if each of them does. */
  lemma DriftCons(pairs: Pairs, rows: Rows, trades: seq<Trade>)
    requires trades != [] && forall a :: FillDrift(pairs, rows, trades[0].makerId, trades[0], a) >= 0
    requires forall a :: FillDrift(pairs, rows, trades[0].takerId, trades[0], a) >= 0
    requires forall a :: Drift(pairs, TradedRows(rows, trades[0]), trades[1..], a) >= 0
    ensures forall a :: Drift(pairs, rows, trades, a) >= 0
    ensures NoDrift(pairs, rows, trades) <==>
            NoFillDrift(pairs, rows, trades[0].makerId, trades[0]) &&
              NoFillDrift(pairs, rows, trades[0].takerId, trades[0]) &&
            NoDrift(pairs, TradedRows(rows, trades[0]), trades[1..])
  {
    hide FillDrift;
    hide TradedRows;
    var t := trades[0];
    forall a
      ensures Drift(pairs, rows, trades, a) == 0 <==>
              FillDrift(pairs, rows, t.makerId, t, a) == 0 && FillDrift(pairs, rows, t.takerId, t, a) == 0 &&
              Drift(pairs, TradedRows(rows, t), trades[1..], a) == 0
    {
    }
    if NoDrift(pairs, rows, trades) {
      forall a ensures FillDrift(pairs, rows, t.makerId, t, a) == 0 && FillDrift(pairs, rows, t.takerId, t, a) == 0
        ensures Drift(pairs, TradedRows(rows, t), trades[1..], a) == 0
      {
        assert Drift(pairs, rows, trades, a) == 0;
      }
    }
  }

  /** A match takes nothing from the spare funds of any wallet, and adds nothing if and only if its fills are exact. */
  lemma {:induction false} DriftExactly(pairs: Pairs, rows: Rows, pair: string, taker: Row, trades: seq<Trade>)
    requires RowsOk(pairs, rows) && FitAll(rows, pair, taker, trades)
    ensures forall a :: Drift(pairs, rows, trades, a) >= 0
    ensures NoDrift(pairs, rows, trades) <==> ExactFills(pairs, rows, trades)
    decreases trades
  {
    if trades != [] {
      var t := trades[0];
      FitsFillable(pairs, rows, pair, taker, t);
      FillDriftExactly(pairs, rows, t.makerId, t);
      FillDriftExactly(pairs, rows, t.takerId, t);
      TradedFits(pairs, rows, pair, taker, trades);
      hide RowsOk;
      hide FitAll;
      hide Fillable;
      hide Drift;
      hide NoDrift;
      hide FillDrift;
      hide NoFillDrift;
      hide ExactFill;
      hide TradedRows;
      DriftExactly(pairs, TradedRows(rows, t), pair, taker, trades[1..]);
      DriftCons(pairs, rows, trades);
    }
  }

  lemma TradedFits(pairs: Pairs, rows: Rows, pair: string, taker: Row, trades: seq<Trade>)
    requires RowsOk(pairs, rows) && trades != [] && FitAll(rows, pair, taker, trades)
    ensures RowsOk(pairs, TradedRows(rows, trades[0])) && FitAll(TradedRows(rows, trades[0]), pair, taker, trades[1..])
  {
    FitRest(rows, rows, pair, taker, trades);
    TradedRowsOk(pairs, rows, pair, taker, trades, taker.id);
  }

  // ----- settlement

  /** A leg that pays for a fill changes the spare funds by the fill's drift. */
  lemma LegSpare(pairs: Pairs, rows: Rows, accounts: Accounts, id: string, t: Trade, leg: Leg)
    requires Solvent(accounts) && Funded(accounts, leg) && Fillable(pairs, rows, id, t)
    requires leg.unlock == (rows[id].kind == Limit) && leg.Source() == SourceOf(pairs, rows[id])
    requires leg.spent == pairs[rows[id].pair].Cost(rows[id].side, t.quantity, t.price)
    ensures Process(accounts, leg).Ok?
    ensures forall a :: Spare(pairs, Advance(rows, id, t.quantity), Process(accounts, leg).value, a) ==
                        Spare(pairs, rows, accounts, a) + FillDrift(pairs, rows, id, t, a)
  {
    hide Pair.Cost;
    hide Process;
    hide Owed;
    ProcessFunded(accounts, leg);
    var r := rows[id].(filled := rows[id].filled + t.quantity);
    forall a
      ensures Spare(pairs, Advance(rows, id, t.quantity), Process(accounts, leg).value, a) ==
              Spare(pairs, rows, accounts, a) + FillDrift(pairs, rows, id, t, a)
    {
      OwedUpdate(pairs, rows, id, r, a);
    }
  }

  /** Settling one trade changes the spare funds of every wallet by the drift of its two fills. */
  lemma SettleOneSpare(pairs: Pairs, rows: Rows, accounts: Accounts, pair: string, taker: Row, t: Trade)
    requires Covered(pairs, rows, accounts) && Fits(rows, pair, taker, t)
    requires taker.kind == Market ==>
      && SourceOf(pairs, taker) in accounts
      && pairs[pair].Cost(taker.side, t.quantity, t.price) <= AvailableOf(accounts, SourceOf(pairs, taker))
    ensures var m, k := MakerLeg(pairs[pair], rows[t.makerId], t), TakerLeg(pairs[pair], rows[t.makerId], taker, t);
      && Settle(accounts, m, k).Ok?
      && forall a :: Spare(pairs, TradedRows(rows, t), Settle(accounts, m, k).value, a) ==
           Spare(pairs, rows, accounts, a) + FillDrift(pairs, rows, t.makerId, t, a) +
             FillDrift(pairs, rows, t.takerId, t, a)
  {
    hide Process;
    hide Pair.Cost;
    hide Spare;
    FitsFillable(pairs, rows, pair, taker, t);
    hide FillDrift;
    hide RowsOk;
    SettleOne(pairs, rows, accounts, pair, taker, t);
    var maker := rows[t.makerId];
    var m, k := MakerLeg(pairs[pair], maker, t), TakerLeg(pairs[pair], maker, taker, t);
    MakerPays(pairs, rows, accounts, pair, taker, t);
    LegSpare(pairs, rows, accounts, t.makerId, t, m);
    LegSpare(pairs, Advance(rows, t.makerId, t.quantity), Process(accounts, m).value, t.takerId, t, k);
  }

  /** Settling all trades of a match changes them by the drift of all its fills. */
  lemma {:induction false} SettleAllSpare(pairs: Pairs, table: Rows, rows: Rows, accounts: Accounts,
                                          pair: string, taker: Row, trades: seq<Trade>)
    requires SameButFills(table, rows) && Covered(pairs, rows, accounts) && pair in pairs && taker.pair == pair
    requires FitAll(rows, pair, taker, trades) && Paid(pairs, accounts, pair, taker, trades)
    ensures forall a ::
      Spare(pairs, AdvanceAll(rows, trades), SettleAll(accounts, table, pairs[pair], taker, trades).accounts, a) ==
      Spare(pairs, rows, accounts, a) + Drift(pairs, rows, trades, a)
    decreases trades
  {
    if trades != [] {
      hide Covered;
      hide Pair.Cost;
      hide Process;
      hide Settle;
      hide FitAll;
      hide SameButFills;
      hide Funded;
      hide Spare;
      hide FillDrift;
      FitFirst(table, rows, pair, taker, trades);
      FitRest(table, rows, pair, taker, trades);
      SettleOne(pairs, rows, accounts, pair, taker, trades[0]);
      SettleOneSpare(pairs, rows, accounts, pair, taker, trades[0]);
      var t := trades[0];
      var m, k := MakerLeg(pairs[pair], table[t.makerId], t), TakerLeg(pairs[pair], table[t.makerId], taker, t);
      SettleAllSpare(pairs, table, TradedRows(rows, t), Settle(accounts, m, k).value, pair, taker, trades[1..]);
    }
  }

  // ----- events

  lemma ApplySpare(pairs: Pairs, rows: Rows, accounts: Accounts, b: Book, taker: Row)
    requires Submitted(pairs, rows, accounts, b, taker)
    requires Paid(pairs, accounts, taker.pair, taker, MatchOf(b, taker).trades)
    ensures var p := Place(b, ToEngineOrder(taker));
      var done := ApplyResult(rows, accounts, pairs[taker.pair], taker, p);
      forall a :: Spare(pairs, done.rows, done.accounts, a) ==
        Spare(pairs, rows, accounts, a) + Drift(pairs, rows, MatchOf(b, taker).trades, a)
  {
    hide Match;
    hide Place;
    hide Covered;
    hide AdvanceAll;
    hide BookStored;
    hide WrittenBack;
    hide Cancellable;
    hide Meets;
    hide FitAll;
    hide Drift;
    SubmittedMeets(pairs, rows, accounts, b, taker);
    TakerWritten(pairs, rows, accounts, b, taker);
    var p, pair, trades := Place(b, ToEngineOrder(taker)), pairs[taker.pair], MatchOf(b, taker).trades;
    MatchFits(rows, taker, Arriving(b, taker), b.Queue(Opposite(taker.side)), taker.pair);
    SettleAllPaid(pairs, rows, rows, accounts, taker.pair, taker, trades);
    SettleAllSpare(pairs, rows, rows, accounts, taker.pair, taker, trades);
    var settled := SettleAll(accounts, rows, pair, taker, trades).accounts;
    WrittenCovered(pairs, rows, accounts, b, taker, settled);
    CancelledLive(pairs, rows, accounts, b, taker);
    CancelMakersKeeps(pairs, WrittenBack(rows, taker, p), settled, p.cancelled, taker.pair);
    ApplyUnfolds(rows, accounts, pair, taker, p);
  }

  lemma CreateSpare(pairs: Pairs, w: World, id: string, user: string, req: Request)
    requires WorldOk(pairs, w) && id !in w.rows
    requires Accepted(pairs, w, id, user, req) && Affordable(pairs, w, id, user, req)
    ensures var after, r := CreateOrder(w, pairs, id, user, req).world, NewRow(id, user, req);
      forall a :: Spare(pairs, after.rows, after.accounts, a) ==
        Spare(pairs, w.rows, w.accounts, a) + Drift(pairs, w.rows[id := r], TradesFor(w, id, user, req), a)
  {
    hide Place;
    hide ApplyResult;
    hide Simulates;
    hide Reserved;
    hide Rejection;
    hide CreateOrder;
    hide Paid;
    hide Drift;
    hide Owed;
    hide BookStored;
    var r := NewRow(id, user, req);
    NewSubmitted(pairs, w, id, user, req);
    assert RowOk(pairs, id, w.rows[id := r][id]);
    ReservedCovers(pairs, w.rows, w.accounts, r);
    AffordableAfterLock(pairs, w, id, user, req);
    CreateUnfolds(pairs, w, id, user, req);
    ApplySpare(pairs, w.rows[id := r], Reserved(w.accounts, pairs[req.pair], r).value, BookOf(w.books, req.pair), r);
  }

  lemma CreateDrift(pairs: Pairs, w: World, id: string, user: string, req: Request)
    requires WorldOk(pairs, w) && id !in w.rows && Accepted(pairs, w, id, user, req)
    ensures var rows, trades := w.rows[id := NewRow(id, user, req)], TradesFor(w, id, user, req);
      && (forall a :: Drift(pairs, rows, trades, a) >= 0)
      && (NoDrift(pairs, rows, trades) <==> ExactFills(pairs, rows, trades))
  {
    hide Accepted;
    hide TradesFor;
    hide WorldOk;
    hide NoDrift;
    hide Drift;
    AcceptedTrades(pairs, w, id, user, req);
    DriftExactly(pairs, w.rows[id := NewRow(id, user, req)], req.pair, NewRow(id, user, req),
      TradesFor(w, id, user, req));
  }

  /** What an event adds to the spare funds of a wallet: the drift of the match that it runs, if it runs one. */
  function EventDrift(pairs: Pairs, w: World, e: Event, a: Account): int {
    if e.Create? && Accepted(pairs, w, e.id, e.user, e.req)
    then Drift(pairs, w.rows[e.id := NewRow(e.id, e.user, e.req)], TradesFor(w, e.id, e.user, e.req), a)
    else 0
  }

  predicate ExactEvent(pairs: Pairs, w: World, e: Event) {
    e.Create? && Accepted(pairs, w, e.id, e.user, e.req) ==>
      ExactFills(pairs, w.rows[e.id := NewRow(e.id, e.user, e.req)], TradesFor(w, e.id, e.user, e.req))
  }

  ghost function WorldSpare(pairs: Pairs, w: World, a: Account): int { Spare(pairs, w.rows, w.accounts, a) }

  lemma StepSpare(pairs: Pairs, w: World, e: Event)
    requires WorldOk(pairs, w) && Smooth(pairs, w, e)
    ensures forall a :: WorldSpare(pairs, After(pairs, w, e), a) == WorldSpare(pairs, w, a) + EventDrift(pairs, w, e, a)
  {
    hide Drift;
    hide Accepted;
    hide Simulates;
    hide Cleanup;
    hide CreateOrder;
    hide CancelOrder;
    hide LiveList;
    match e
    case Create(id, user, req) =>
      if Accepted(pairs, w, id, user, req) {
        CreateSpare(pairs, w, id, user, req);
      } else {
        NotAccepted(pairs, w, id, user, req);
      }
    case CancelBy(user, id) =>
      CancelOrderKeeps(pairs, w, user, id);
    case Restart(live) =>
      CleanupKeeps(pairs, w.rows, w.accounts, live);
      NothingOwed(pairs, Cleanup(w.rows, w.accounts, pairs, live).0);
  }

  lemma StepDrift(pairs: Pairs, w: World, e: Event)
    requires WorldOk(pairs, w) && Smooth(pairs, w, e)
    ensures forall a :: EventDrift(pairs, w, e, a) >= 0
    ensures (forall a :: EventDrift(pairs, w, e, a) == 0) <==> ExactEvent(pairs, w, e)
  {
    hide Drift;
    hide WorldOk;
    hide ExactFills;
    if e.Create? && Accepted(pairs, w, e.id, e.user, e.req) {
      var rows, trades := w.rows[e.id := NewRow(e.id, e.user, e.req)], TradesFor(w, e.id, e.user, e.req);
      hide Accepted;
      hide TradesFor;
      CreateDrift(pairs, w, e.id, e.user, e.req);
      assert forall a :: EventDrift(pairs, w, e, a) == Drift(pairs, rows, trades, a);
    }
  }

  // ----- runs

  ghost predicate ExactRun(pairs: Pairs, w: World, events: seq<Event>)
    decreases events
  {
    events != [] ==> ExactEvent(pairs, w, events[0]) && ExactRun(pairs, After(pairs, w, events[0]), events[1..])
  }

  function RunDrift(pairs: Pairs, w: World, events: seq<Event>, a: Account): int
    decreases events
  {
    if events == [] then 0
    else EventDrift(pairs, w, events[0], a) + RunDrift(pairs, After(pairs, w, events[0]), events[1..], a)
  }

  /** Along a run the spare funds of a wallet grow by the drift of the matches, and by nothing else. */
  lemma {:induction false} RunSpare(pairs: Pairs, w: World, events: seq<Event>, a: Account)
    requires WorldOk(pairs, w) && SmoothRun(pairs, w, events)
    ensures WorldSpare(pairs, RunOf(pairs, w, events), a) == WorldSpare(pairs, w, a) + RunDrift(pairs, w, events, a)
    ensures RunDrift(pairs, w, events, a) >= 0
    decreases events
  {
    if events != [] {
      hide WorldOk;
      hide Smooth;
      hide WorldSpare;
      hide EventDrift;
      hide After;
      StepKeeps(pairs, w, events[0]);
      StepSpare(pairs, w, events[0]);
      StepDrift(pairs, w, events[0]);
      RunSpare(pairs, After(pairs, w, events[0]), events[1..], a);
    }
  }

  ghost predicate NoRunDrift(pairs: Pairs, w: World, events: seq<Event>) {
    forall a :: RunDrift(pairs, w, events, a) == 0
  }

  lemma RunDriftCons(pairs: Pairs, w: World, events: seq<Event>)
    requires events != [] && forall a :: EventDrift(pairs, w, events[0], a) >= 0
    requires forall a :: RunDrift(pairs, After(pairs, w, events[0]), events[1..], a) >= 0
    ensures NoRunDrift(pairs, w, events) <==>
            (forall a :: EventDrift(pairs, w, events[0], a) == 0) &&
              NoRunDrift(pairs, After(pairs, w, events[0]), events[1..])
  {
    hide EventDrift;
    hide After;
    forall a
      ensures RunDrift(pairs, w, events, a) == 0 <==>
              EventDrift(pairs, w, events[0], a) == 0 &&
                RunDrift(pairs, After(pairs, w, events[0]), events[1..], a) == 0
    {
    }
    if NoRunDrift(pairs, w, events) {
      forall a ensures EventDrift(pairs, w, events[0], a) == 0
        ensures RunDrift(pairs, After(pairs, w, events[0]), events[1..], a) == 0
      {
        assert RunDrift(pairs, w, events, a) == 0;
      }
    }
  }

  lemma {:induction false} RunDriftExactly(pairs: Pairs, w: World, events: seq<Event>)
    requires WorldOk(pairs, w) && SmoothRun(pairs, w, events)
    ensures NoRunDrift(pairs, w, events) <==> ExactRun(pairs, w, events)
    decreases events
  {
    if events != [] {
      hide WorldOk;
      hide Smooth;
      hide EventDrift;
      hide ExactEvent;
      hide After;
      hide NoRunDrift;
      var w' := After(pairs, w, events[0]);
      StepKeeps(pairs, w, events[0]);
      StepDrift(pairs, w, events[0]);
      forall a ensures RunDrift(pairs, w', events[1..], a) >= 0 { RunSpare(pairs, w', events[1..], a); }
      RunDriftCons(pairs, w, events);
      RunDriftExactly(pairs, w', events[1..]);
    }
  }

  /** What every wallet has locked is exactly what its orders may still have to pay. */
  ghost predicate Tight(pairs: Pairs, w: World) {
    forall a :: LockedOf(w.accounts, a) == Owed(pairs, w.rows, a)
  }

  /** A tight world stays tight along a run if and only if every fill of the run is exact. */
  lemma TightExactly(pairs: Pairs, w: World, events: seq<Event>)
    requires WorldOk(pairs, w) && SmoothRun(pairs, w, events) && Tight(pairs, w)
    ensures Tight(pairs, RunOf(pairs, w, events)) <==> ExactRun(pairs, w, events)
  {
    hide WorldOk;
    hide SmoothRun;
    hide ExactRun;
    hide RunDrift;
    hide RunOf;
    var w' := RunOf(pairs, w, events);
    forall a ensures LockedOf(w'.accounts, a) - Owed(pairs, w'.rows, a) == RunDrift(pairs, w, events, a) {
      RunSpare(pairs, w, events, a);
      assert LockedOf(w.accounts, a) == Owed(pairs, w.rows, a);
    }
    RunDriftExactly(pairs, w, events);
    if Tight(pairs, w') {
      forall a ensures RunDrift(pairs, w, events, a) == 0 {
        assert LockedOf(w'.accounts, a) == Owed(pairs, w'.rows, a);
      }
    }
  }

  // ----- a buy that is filled below its limit

  const EXAMPLE_LIMIT_BUY := Request("BTC-USDT", "buy", "limit", 100_000_000, Some(200))

  /** The trade of the example's buy with the example's sale. */
  const EXAMPLE_TRADE := Trade("s", "b", "ann", "bob", 100, 100_000_000, Buy)

  lemma BuyMatched(w: World, funds: nat)
    requires BookOf(w.books, "BTC-USDT").asks == [Ord("s", "ann", Sell, Limit, 100, 100_000_000, 0, 1)]
    requires Account("bob", "USDT") in w.accounts && w.accounts[Account("bob", "USDT")] == Wallet(funds, 0, true)
    requires funds >= 2_000_000
    ensures Accepted(EXAMPLE_PAIRS, w, "b", "bob", EXAMPLE_LIMIT_BUY)
    ensures TradesFor(w, "b", "bob", EXAMPLE_LIMIT_BUY) == [EXAMPLE_TRADE]
    ensures var r, bob := NewRow("b", "bob", EXAMPLE_LIMIT_BUY), Account("bob", "USDT");
      SourceOf(EXAMPLE_PAIRS, r) == bob && Slack(EXAMPLE_PAIRS, r, 100_000_000, 100) == 1_000_000
  {
    ExampleCosts();
    hide Pair.Cost;
    var r, b := NewRow("b", "bob", EXAMPLE_LIMIT_BUY), BookOf(w.books, "BTC-USDT");
    var maker, o := b.asks[0], Arriving(b, r);
    assert Match(o.(filled := 100_000_000), []).trades == [];
    assert Match(o, b.asks).trades == [TradeOf(o, maker, 100_000_000)];
  }

  /** The buyer's order is filled, and owes nothing any more. */
  lemma BuyFilled(w: World)
    requires WorldOk(EXAMPLE_PAIRS, w) && w.rows.Keys == {"s"} && w.rows["s"].user == "ann"
    requires Accepted(EXAMPLE_PAIRS, w, "b", "bob", EXAMPLE_LIMIT_BUY)
    requires TradesFor(w, "b", "bob", EXAMPLE_LIMIT_BUY) == [EXAMPLE_TRADE]
    ensures var after := CreateOrder(w, EXAMPLE_PAIRS, "b", "bob", EXAMPLE_LIMIT_BUY).world;
      "b" in after.rows && after.rows["b"].status == Filled &&
        Owed(EXAMPLE_PAIRS, after.rows, Account("bob", "USDT")) == 0
  {
    hide Place;
    hide Match;
    hide Covered;
    hide Simulates;
    hide Applied;
    hide Rejection;
    hide Reserved;
    hide Submitted;
    hide NothingClamped;
    var r, b := NewRow("b", "bob", EXAMPLE_LIMIT_BUY), BookOf(w.books, "BTC-USDT");
    var rows, p := w.rows["b" := r], Place(b, ToEngineOrder(r));
    var accounts := Reserved(w.accounts, EXAMPLE_PAIRS["BTC-USDT"], r).value;
    NewSubmitted(EXAMPLE_PAIRS, w, "b", "bob", EXAMPLE_LIMIT_BUY);
    CreateUnfolds(EXAMPLE_PAIRS, w, "b", "bob", EXAMPLE_LIMIT_BUY);
    TakerWritten(EXAMPLE_PAIRS, rows, accounts, b, r);
    ApplyPaid(EXAMPLE_PAIRS, rows, accounts, b, r);
    AppliedRow(rows, r, p, "s");
    AppliedSame(EXAMPLE_PAIRS, rows, accounts, b, r, "s");
    var after := CreateOrder(w, EXAMPLE_PAIRS, "b", "bob", EXAMPLE_LIMIT_BUY).world.rows;
    assert after["b"].status == Filled by { assert Gain([EXAMPLE_TRADE], "b") == 100_000_000; }
    SumZero(map id | id in after :: Owes(EXAMPLE_PAIRS, after[id], Account("bob", "USDT")));
  }

  /**
   A run whose only two orders fill each other. The buyer had locked what its limit allows, paid
   half of it, and owes nothing; the other half is still locked, and a restart does not release it.
   */
  lemma FundsStranded(funds: nat)
    requires funds >= 2_000_000
    ensures var w := RunOf(EXAMPLE_PAIRS, ExampleStart(funds),
                           [Create("s", "ann", EXAMPLE_SALE), Create("b", "bob", EXAMPLE_LIMIT_BUY)]);
      var bob := Account("bob", "USDT");
      && WorldOk(EXAMPLE_PAIRS, w) && "b" in w.rows && w.rows["b"].status == Filled
      && Owed(EXAMPLE_PAIRS, w.rows, bob) == 0 && LockedOf(w.accounts, bob) == 1_000_000
      && forall live :: LiveList(w.rows, live) ==>
           LockedOf(After(EXAMPLE_PAIRS, w, Restart(live)).accounts, bob) == 1_000_000
  {
    hide WorldOk;
    hide Accepted;
    hide CreateOrder;
    hide TradesFor;
    hide Slack;
    var bob := Account("bob", "USDT");
    var events := [Create("s", "ann", EXAMPLE_SALE), Create("b", "bob", EXAMPLE_LIMIT_BUY)];
    AfterSale(funds);
    var w1 := CreateOrder(ExampleStart(funds), EXAMPLE_PAIRS, "s", "ann", EXAMPLE_SALE).world;
    BuyMatched(w1, funds);
    CreateKeeps(EXAMPLE_PAIRS, w1, "b", "bob", EXAMPLE_LIMIT_BUY);
    CreateSpare(EXAMPLE_PAIRS, w1, "b", "bob", EXAMPLE_LIMIT_BUY);
    BuyFilled(w1);
    var w := CreateOrder(w1, EXAMPLE_PAIRS, "b", "bob", EXAMPLE_LIMIT_BUY).world;
    RunOfTwo(EXAMPLE_PAIRS, ExampleStart(funds), events[0], events[1]);
    SumZero(map id | id in w1.rows :: Owes(EXAMPLE_PAIRS, w1.rows[id], bob));
    assert Spare(EXAMPLE_PAIRS, w1.rows, w1.accounts, bob) == 0;
    BuyDrift(w1);
    forall live | LiveList(w.rows, live)
      ensures LockedOf(After(EXAMPLE_PAIRS, w, Restart(live)).accounts, bob) == 1_000_000
    {
      RestartLeaves(w, live, bob);
    }
  }

  lemma RunOfTwo(pairs: Pairs, w: World, e: Event, f: Event)
    ensures RunOf(pairs, w, [e, f]) == After(pairs, After(pairs, w, e), f)
  {
    hide After;
    assert [e, f][1..] == [f] && [f][1..] == [];
    assert RunOf(pairs, After(pairs, w, e), [f]) == RunOf(pairs, After(pairs, After(pairs, w, e), f), []);
  }

  lemma BuyDrift(w: World)
    requires w.rows.Keys == {"s"} && w.rows["s"].user == "ann"
    requires var r := NewRow("b", "bob", EXAMPLE_LIMIT_BUY);
      SourceOf(EXAMPLE_PAIRS, r) == Account("bob", "USDT") && Slack(EXAMPLE_PAIRS, r, 100_000_000, 100) == 1_000_000
    ensures Drift(EXAMPLE_PAIRS, w.rows["b" := NewRow("b", "bob", EXAMPLE_LIMIT_BUY)], [EXAMPLE_TRADE],
                  Account("bob", "USDT")) == 1_000_000
  {
    hide Slack;
    var rows := w.rows["b" := NewRow("b", "bob", EXAMPLE_LIMIT_BUY)];
    assert [EXAMPLE_TRADE][1..] == [];
    assert Drift(EXAMPLE_PAIRS, TradedRows(rows, EXAMPLE_TRADE), [], Account("bob", "USDT")) == 0;
  }

  /** What no order owes any more outlasts a restart. */
  lemma RestartLeaves(w: World, live: seq<string>, a: Account)
    requires WorldOk(EXAMPLE_PAIRS, w) && LiveList(w.rows, live) && Owed(EXAMPLE_PAIRS, w.rows, a) == 0
    ensures LockedOf(After(EXAMPLE_PAIRS, w, Restart(live)).accounts, a) == LockedOf(w.accounts, a)
  {
    CleanupKeeps(EXAMPLE_PAIRS, w.rows, w.accounts, live);
  }
}
