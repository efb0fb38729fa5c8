/** Which orders the wallets can refuse after the engine has matched them, and what that leaves behind. */
module OrderRefusals {
  import opened MatchingModel
  import opened MatchingRuns
  import opened OrderApply
  import opened OrderModel
  import opened OrderReserves
  import opened OrderRuns
  import opened OrderSettlement
  import opened OrderSimulation
  import opened OrderWallets
  import opened OrderWorld
  import opened Wallets
  import opened Wrappers

  lemma FirstTrade(pairs: Pairs, rows: Rows, pair: string, taker: Row, trades: seq<Trade>)
    requires RowsOk(pairs, rows) && pair in pairs && FitAll(rows, pair, taker, trades) && trades != []
    ensures var t, rows' := trades[0], TradedRows(rows, trades[0]);
      && Sound(pairs[pair]) && RowsOk(pairs, rows') && FitAll(rows', pair, taker, trades[1..])
      && t.quantity > 0 && t.price > 0 && t.makerId != taker.id && t.takerId == taker.id
  {
    FitRest(rows, rows, pair, taker, trades);
    TradedRowsOk(pairs, rows, pair, taker, trades, taker.id);
    FitEach(pairs, rows, pair, taker, trades);
  }

  /** The parts of a sale cost no more than the whole. */
  lemma {:induction false} SaleCost(pairs: Pairs, rows: Rows, pair: string, taker: Row, trades: seq<Trade>)
    requires RowsOk(pairs, rows) && pair in pairs && FitAll(rows, pair, taker, trades) && taker.side == Sell
    ensures Gain(trades, taker.id) >= 0
    ensures TotalCost(pairs[pair], Sell, trades) <= pairs[pair].Cost(Sell, Gain(trades, taker.id), 0)
    decreases trades
  {
    if trades == [] {
      CostNothing(pairs[pair], Sell, 0);
    } else {
      hide RowsOk;
      hide FitAll;
      hide Sound;
      hide Pair.Cost;
      hide TradedRows;
      var t := trades[0];
      FirstTrade(pairs, rows, pair, taker, trades);
      SaleCost(pairs, TradedRows(rows, t), pair, taker, trades[1..]);
      CostBetter(pairs[pair], Sell, t.quantity, t.price, 0);
      CostSplit(pairs[pair], Sell, t.quantity + Gain(trades[1..], taker.id), t.quantity, 0);
    }
  }

  /** An accepted order's trades fit their orders, and have positive sizes and prices. */
  lemma AcceptedTrades(pairs: Pairs, w: World, id: string, user: string, req: Request)
    requires WorldOk(pairs, w) && id !in w.rows && Accepted(pairs, w, id, user, req)
    ensures var r, trades := NewRow(id, user, req), TradesFor(w, id, user, req);
      && RowsOk(pairs, w.rows[id := r]) && FitAll(w.rows[id := r], req.pair, r, trades)
      && (forall i :: 0 <= i < |trades| ==> trades[i].quantity > 0 && trades[i].price > 0)
      && forall a :: AvailableOf(w.accounts, a) >= 0
  {
    hide Place;
    hide Match;
    hide Owed;
    hide BookStored;
    var r, b := NewRow(id, user, req), BookOf(w.books, req.pair);
    var rows := w.rows[id := r];
    NewSubmitted(pairs, w, id, user, req);
    SubmittedMeets(pairs, rows, Reserved(w.accounts, pairs[req.pair], r).value, b, r);
    MatchFits(rows, r, Arriving(b, r), b.Queue(Opposite(r.side)), req.pair);
    FitEach(pairs, rows, req.pair, r, TradesFor(w, id, user, req));
  }

  /** An accepted sale finds what it sells available; only its wallet may be missing, and then it costs nothing. */
  lemma SaleAffordable(pairs: Pairs, w: World, id: string, user: string, req: Request)
    requires WorldOk(pairs, w) && id !in w.rows && Accepted(pairs, w, id, user, req) && req.side == "sell"
    requires Account(user, pairs[req.pair].base) in w.accounts
    ensures Affordable(pairs, w, id, user, req)
  {
    hide Place;
    hide Match;
    hide Covered;
    hide BookStored;
    hide Pair.Cost;
    var r := NewRow(id, user, req);
    if r.kind == Market {
      var rows, b := w.rows[id := r], BookOf(w.books, req.pair);
      var trades := TradesFor(w, id, user, req);
      NewSubmitted(pairs, w, id, user, req);
      AcceptedTrades(pairs, w, id, user, req);
      SaleCost(pairs, rows, req.pair, r, trades);
      TakerWritten(pairs, rows, w.accounts, b, r);
      AdvanceGain(pairs, rows, req.pair, r, trades, id);
      assert RowOk(pairs, id, AdvanceAll(rows, trades)[id]);
      CostSplit(pairs[req.pair], Sell, req.quantity, Gain(trades, id), 0);
      assert pairs[req.pair].Cost(Sell, req.quantity, 0) == pairs[req.pair].Cost(Sell, req.quantity, req.Price());
      PayableTotal(pairs[req.pair], Sell, AvailableOf(w.accounts, SourceOf(pairs, r)), trades);
    }
  }

  /** What a refusal of the wallets leaves: the order pending, the other rows as they were, the book already changed. */
  lemma RefusedReply(pairs: Pairs, w: World, id: string, user: string, req: Request)
    requires
      && WorldOk(pairs, w) && id !in w.rows && Accepted(pairs, w, id, user, req) && !Affordable(pairs, w, id, user, req)
    ensures var r := NewRow(id, user, req);
      var reply := CreateOrder(w, pairs, id, user, req);
      && reply.result ==
           Err(WalletRefused(if SourceOf(pairs, r) in w.accounts then InsufficientBalance else WalletNotFound))
      && reply.world.rows == w.rows[id := r]
      && reply.world.accounts ==
         SettleAll(w.accounts, w.rows[id := r], pairs[req.pair], r, TradesFor(w, id, user, req)).accounts
      && reply.world.books == w.books[req.pair := Place(BookOf(w.books, req.pair), ToEngineOrder(r)).book]
  {
    hide Place;
    hide Match;
    hide Covered;
    hide BookStored;
    hide SettleAll;
    hide Rejection;
    var r := NewRow(id, user, req);
    var rows, b := w.rows[id := r], BookOf(w.books, req.pair);
    NewSubmitted(pairs, w, id, user, req);
    SubmittedMeets(pairs, rows, w.accounts, b, r);
    TakerWritten(pairs, rows, w.accounts, b, r);
    MatchFits(rows, r, Arriving(b, r), b.Queue(Opposite(r.side)), req.pair);
    SettleAllUnpaid(pairs, rows, rows, w.accounts, req.pair, r, TradesFor(w, id, user, req));
    CreateUnfolds(pairs, w, id, user, req);
  }

  /** An accepted order goes through if and only if it is affordable. */
  lemma RefusedUnlessAffordable(pairs: Pairs, w: World, id: string, user: string, req: Request)
    requires WorldOk(pairs, w) && id !in w.rows && Accepted(pairs, w, id, user, req)
    ensures CreateOrder(w, pairs, id, user, req).result.Ok? <==> Affordable(pairs, w, id, user, req)
  {
    if Affordable(pairs, w, id, user, req) {
      CreateKeeps(pairs, w, id, user, req);
    } else {
      RefusedReply(pairs, w, id, user, req);
    }
  }

  /** Only a market buy can be refused for want of funds. */
  lemma OnlyMarketBuysRefused(pairs: Pairs, w: World, id: string, user: string, req: Request)
    requires WorldOk(pairs, w) && id !in w.rows && Accepted(pairs, w, id, user, req)
    requires CreateOrder(w, pairs, id, user, req).result == Err(WalletRefused(InsufficientBalance))
    ensures req.kind == "market" && req.side == "buy"
    ensures var available := AvailableOf(w.accounts, Account(user, pairs[req.pair].quote));
      && !Payable(pairs[req.pair], Buy, available, TradesFor(w, id, user, req))
      && TotalCost(pairs[req.pair], Buy, TradesFor(w, id, user, req)) > available
  {
    hide CreateOrder;
    hide Covered;
    hide Simulates;
    RefusedUnlessAffordable(pairs, w, id, user, req);
    RefusedReply(pairs, w, id, user, req);
    if req.side == "sell" {
      SaleAffordable(pairs, w, id, user, req);
    }
    AcceptedTrades(pairs, w, id, user, req);
    PayableTotal(pairs[req.pair], Buy, AvailableOf(w.accounts, Account(user, pairs[req.pair].quote)),
                 TradesFor(w, id, user, req));
  }

  /** Once its order has traded, a maker's old row no longer fits what the book says of it. */
  lemma MakerMoved(pairs: Pairs, rows: Rows, accounts: Accounts, b: Book, taker: Row)
    requires Submitted(pairs, rows, accounts, b, taker) && MatchOf(b, taker).trades != []
    ensures var m, maker := MatchOf(b, taker), MatchOf(b, taker).trades[0].makerId;
      && maker in rows && rows[maker].Live() && rows[maker].kind == Limit
      && rows[maker].pair == taker.pair && rows[maker].side == Opposite(taker.side)
      && !(HasId(m.queue, maker) && QueueStored(rows, m.queue, taker.pair))
  {
    hide Match;
    hide Covered;
    hide BookStored;
    hide AdvanceAll;
    hide Gain;
    var q, m := b.Queue(Opposite(taker.side)), MatchOf(b, taker);
    var maker := m.trades[0].makerId;
    SubmittedMeets(pairs, rows, accounts, b, taker);
    MatchFits(rows, taker, Arriving(b, taker), q, taker.pair);
    MatchTable(rows, taker, Arriving(b, taker), q, taker.pair);
    assert Fits(rows, taker.pair, taker, m.trades[0]);
    AdvanceGain(pairs, rows, taker.pair, taker, m.trades, maker);
    assert HasTraded(m.trades, maker);
    forall i | 0 <= i < |m.queue| && m.queue[i].id == maker ensures !Stored(rows[maker], m.queue[i], taker.pair) {
      assert Resembles(AdvanceAll(rows, m.trades)[m.queue[i].id], m.queue[i], taker.pair);
    }
  }

  /** After a refusal the first maker's row still shows the fill it had before, but the book does not. */
  lemma RefusalBreaks(pairs: Pairs, w: World, id: string, user: string, req: Request)
    requires
      && WorldOk(pairs, w) && id !in w.rows && Accepted(pairs, w, id, user, req) && !Affordable(pairs, w, id, user, req)
    ensures !Simulates(CreateOrder(w, pairs, id, user, req).world.rows,
      CreateOrder(w, pairs, id, user, req).world.books)
  {
    hide Place;
    hide Match;
    hide Covered;
    hide CreateOrder;
    hide Rejection;
    hide QueueStored;
    var r := NewRow(id, user, req);
    var rows, b := w.rows[id := r], BookOf(w.books, req.pair);
    var p, books' := Place(b, ToEngineOrder(r)), w.books[req.pair := Place(b, ToEngineOrder(r)).book];
    RefusedReply(pairs, w, id, user, req);
    NewSubmitted(pairs, w, id, user, req);
    MakerMoved(pairs, rows, w.accounts, b, r);
    PlaceParts(b, ToEngineOrder(r));
    assert Simulates(rows, books') ==> BookStored(rows, BookOf(books', req.pair), req.pair);
  }

  /** So an accepted order leaves a well-formed world if and only if it is affordable. */
  lemma KeptExactlyIfAffordable(pairs: Pairs, w: World, id: string, user: string, req: Request)
    requires WorldOk(pairs, w) && id !in w.rows && Accepted(pairs, w, id, user, req)
    ensures WorldOk(pairs, CreateOrder(w, pairs, id, user, req).world) <==> Affordable(pairs, w, id, user, req)
  {
    if Affordable(pairs, w, id, user, req) {
      CreateKeeps(pairs, w, id, user, req);
    } else {
      RefusalBreaks(pairs, w, id, user, req);
    }
  }

  // ----- what a refusal leaves locked

  /** The trades before the first one that the taker's wallet, as it is before the order, does not pay for. */
  function PaidTrades(pairs: Pairs, w: World, id: string, user: string, req: Request): seq<Trade>
    requires req.pair in pairs
  {
    var trades, wallet := TradesFor(w, id, user, req), Account(user, pairs[req.pair].SpentCoin(req.Side()));
    if wallet in w.accounts
    then trades[..PayableCount(pairs[req.pair], req.Side(), AvailableOf(w.accounts, wallet), trades)]
    else []
  }

  /** What was locked before a refusal and is not any more has gone to pay for the trades settled before it. */
  lemma RefusedLocked(pairs: Pairs, w: World, id: string, user: string, req: Request)
    requires
      && WorldOk(pairs, w) && id !in w.rows && Accepted(pairs, w, id, user, req) && !Affordable(pairs, w, id, user, req)
    ensures var r, w' := NewRow(id, user, req), CreateOrder(w, pairs, id, user, req).world;
      && w'.rows == w.rows[id := r] && RowsOk(pairs, w'.rows) && Solvent(w'.accounts)
      && w.accounts.Keys <= w'.accounts.Keys
      && (forall a :: LockedOf(w'.accounts, a) == LockedOf(w.accounts, a) -
            MakersPaid(pairs[req.pair], w.rows, PaidTrades(pairs, w, id, user, req), a))
      && (forall a :: Owed(pairs, w'.rows, a) == Owed(pairs, w.rows, a))
  {
    hide Place;
    hide Match;
    hide Simulates;
    hide Owed;
    hide SettleAll;
    hide SettledCount;
    hide MakersPaid;
    hide FitAll;
    hide CreateOrder;
    hide TradesFor;
    hide AdvanceAll;
    var r, trades := NewRow(id, user, req), TradesFor(w, id, user, req);
    var rows := w.rows[id := r];
    RefusedReply(pairs, w, id, user, req);
    AcceptedTrades(pairs, w, id, user, req);
    NewSubmitted(pairs, w, id, user, req);
    SettlePrefix(pairs, rows, rows, w.accounts, req.pair, r, trades);
    SettledExactly(pairs, rows, rows, w.accounts, req.pair, r, trades);
    FitEach(pairs, rows, req.pair, r, trades);
    var paid := PaidTrades(pairs, w, id, user, req);
    assert paid == trades[..SettledCount(w.accounts, rows, pairs[req.pair], r, trades)];
    forall a ensures MakersPaid(pairs[req.pair], rows, paid, a) == MakersPaid(pairs[req.pair], w.rows, paid, a) {
      MakersPaidSame(pairs[req.pair], w.rows, id, r, paid, a);
    }
    forall a ensures Owed(pairs, rows, a) == Owed(pairs, w.rows, a) { OwedUpdate(pairs, w.rows, id, r, a); }
  }

  /**
   A refusal leaves the reserves of the table covered if and only if each wallet had enough locked
   beyond what its orders owe to pay for the trades that were settled before.
   */
  lemma CoveredAfterRefusal(pairs: Pairs, w: World, id: string, user: string, req: Request)
    requires
      && WorldOk(pairs, w) && id !in w.rows && Accepted(pairs, w, id, user, req) && !Affordable(pairs, w, id, user, req)
    ensures var w' := CreateOrder(w, pairs, id, user, req).world;
      Covered(pairs, w'.rows, w'.accounts) <==>
      forall a :: MakersPaid(pairs[req.pair], w.rows, PaidTrades(pairs, w, id, user, req), a) <=
                  Spare(pairs, w.rows, w.accounts, a)
  {
    hide Simulates;
    hide Owed;
    hide MakersPaid;
    hide Solvent;
    hide RowsOk;
    hide PaidTrades;
    RefusedLocked(pairs, w, id, user, req);
    hide Accepted;
    hide Affordable;
    hide CreateOrder;
    var w' := CreateOrder(w, pairs, id, user, req).world;
    var paid := a => MakersPaid(pairs[req.pair], w.rows, PaidTrades(pairs, w, id, user, req), a);
    assert forall a :: Owed(pairs, w'.rows, a) <= LockedOf(w'.accounts, a) <==>
      paid(a) <= Spare(pairs, w.rows, w.accounts, a);
  }

  /** Every trade of these is for nothing, its size or price being cut off to nothing. */
  predicate Free(pair: Pair, rows: Rows, trades: seq<Trade>)
    requires forall i :: 0 <= i < |trades| ==> trades[i].makerId in rows
  {
    forall i :: 0 <= i < |trades| ==> pair.Cost(rows[trades[i].makerId].side, trades[i].quantity, trades[i].price) == 0
  }

  lemma FreeCons(pair: Pair, rows: Rows, trades: seq<Trade>)
    requires trades != [] && forall i :: 0 <= i < |trades| ==> trades[i].makerId in rows
    ensures forall i :: 0 <= i < |trades[1..]| ==> trades[1..][i] == trades[i + 1] && trades[1..][i].makerId in rows
    ensures Free(pair, rows, trades) <==>
            pair.Cost(rows[trades[0].makerId].side, trades[0].quantity, trades[0].price) == 0 &&
              Free(pair, rows, trades[1..])
  {
    hide Pair.Cost;
    forall i | 0 < i < |trades| ensures trades[i] == trades[1..][i - 1] {}
  }

  ghost predicate NonePaid(pair: Pair, rows: Rows, trades: seq<Trade>) {
    forall a :: MakersPaid(pair, rows, trades, a) <= 0
  }

  lemma NonePaidCons(pair: Pair, rows: Rows, trades: seq<Trade>)
    requires trades != [] && trades[0].makerId in rows && forall a :: MakersPaid(pair, rows, trades[1..], a) >= 0
    requires pair.Cost(rows[trades[0].makerId].side, trades[0].quantity, trades[0].price) >= 0
    ensures forall a :: MakersPaid(pair, rows, trades, a) >= 0
    ensures NonePaid(pair, rows, trades) <==>
            pair.Cost(rows[trades[0].makerId].side, trades[0].quantity, trades[0].price) == 0 &&
            NonePaid(pair, rows, trades[1..])
  {
    hide Pair.Cost;
    var t, payer := trades[0], MakerLeg(pair, rows[trades[0].makerId], trades[0]).Source();
    assert MakerPaid(pair, rows, t, payer) == pair.Cost(rows[t.makerId].side, t.quantity, t.price);
    assert forall a :: 0 <= MakerPaid(pair, rows, t, a) <= MakerPaid(pair, rows, t, payer);
    hide MakerPaid;
    forall a
      ensures MakersPaid(pair, rows, trades, a) == MakerPaid(pair, rows, t, a) + MakersPaid(pair, rows, trades[1..], a)
    {
    }
    if NonePaid(pair, rows, trades) {
      assert MakersPaid(pair, rows, trades, payer) <= 0;
      forall a ensures MakersPaid(pair, rows, trades[1..], a) <= 0 { assert MakersPaid(pair, rows, trades, a) <= 0; }
    }
  }

  lemma {:induction false} PaidNothing(pair: Pair, rows: Rows, trades: seq<Trade>)
    requires Sound(pair) && forall i :: 0 <= i < |trades| ==>
      trades[i].makerId in rows && trades[i].quantity >= 0 && trades[i].price >= 0
    ensures forall a :: MakersPaid(pair, rows, trades, a) >= 0
    ensures NonePaid(pair, rows, trades) <==> Free(pair, rows, trades)
    decreases trades
  {
    if trades != [] {
      hide Pair.Cost;
      hide Free;
      hide NonePaid;
      hide MakersPaid;
      var t := trades[0];
      CostBetter(pair, rows[t.makerId].side, t.quantity, t.price, t.price);
      FreeCons(pair, rows, trades);
      PaidNothing(pair, rows, trades[1..]);
      NonePaidCons(pair, rows, trades);
    }
  }

  /**
   Where nothing was locked beyond what is owed, the reserves stay covered exactly if all that was
   settled was free.
   */
  lemma CoveredOnlyIfFree(pairs: Pairs, w: World, id: string, user: string, req: Request)
    requires
      && WorldOk(pairs, w) && id !in w.rows && Accepted(pairs, w, id, user, req) && !Affordable(pairs, w, id, user, req)
    requires forall a :: Spare(pairs, w.rows, w.accounts, a) == 0
    ensures var w', paid := CreateOrder(w, pairs, id, user, req).world, PaidTrades(pairs, w, id, user, req);
      && (forall i :: 0 <= i < |paid| ==> paid[i].makerId in w.rows)
      && (Covered(pairs, w'.rows, w'.accounts) <==> Free(pairs[req.pair], w.rows, paid))
  {
    hide WorldOk;
    hide Spare;
    hide Covered;
    hide MakersPaid;
    hide Free;
    hide TradesFor;
    hide Affordable;
    hide CreateOrder;
    hide FitAll;
    var pair, r, paid := pairs[req.pair], NewRow(id, user, req), PaidTrades(pairs, w, id, user, req);
    CoveredAfterRefusal(pairs, w, id, user, req);
    AcceptedTrades(pairs, w, id, user, req);
    FitEach(pairs, w.rows[id := r], req.pair, r, TradesFor(w, id, user, req));
    PaidNothing(pair, w.rows, paid);
    forall a
      ensures MakersPaid(pair, w.rows, paid, a) <= Spare(pairs, w.rows, w.accounts, a) <==>
              MakersPaid(pair, w.rows, paid, a) <= 0
    {
      assert Spare(pairs, w.rows, w.accounts, a) == 0;
    }
    assert NonePaid(pair, w.rows, paid) <==>
           forall a :: MakersPaid(pair, w.rows, paid, a) <= Spare(pairs, w.rows, w.accounts, a);
  }

  // ----- a market buy that is refused

  const EXAMPLE_PAIRS: Pairs := map["BTC-USDT" := Pair("BTC", "USDT", true, 0, CutOff("BTC", "USDT", 2))]

  lemma ExampleCosts()
    ensures var pair := EXAMPLE_PAIRS["BTC-USDT"];
      && pair.Cost(Sell, 100_000_000, 100) == 100_000_000 && pair.Cost(Buy, 0, 200) == 0
      && pair.Cost(Buy, 100_000_000, 100) == 1_000_000 && pair.Cost(Buy, 100_000_000, 200) == 2_000_000
  {
    assert Pow10(2) == 100;
  }

  /** Someone has one bitcoin, someone else some or no funds, and nothing has been ordered yet. */
  function ExampleStart(funds: nat): World {
    var ann, bob := Account("ann", "BTC"), Account("bob", "USDT");
    World(map[], map[ann := Wallet(100_000_000, 0, true), bob := Wallet(funds, 0, true)], map[])
  }

  const EXAMPLE_SALE := Request("BTC-USDT", "sell", "limit", 100_000_000, Some(100))

  const EXAMPLE_BUY := Request("BTC-USDT", "buy", "market", 100_000_000, None)

  lemma StartOk(pairs: Pairs, accounts: Accounts)
    requires Solvent(accounts) && AllSound(pairs)
    ensures WorldOk(pairs, World(map[], accounts, map[]))
  {
    var w := World(map[], accounts, map[]);
    forall a ensures Owed(pairs, w.rows, a) <= LockedOf(accounts, a) {
      assert (map id | id in w.rows :: Owes(pairs, w.rows[id], a)) == map[];
    }
    forall p ensures BookStored(w.rows, BookOf(w.books, p), p) {}
  }

  lemma SaleAccepted(funds: nat)
    ensures Accepted(EXAMPLE_PAIRS, ExampleStart(funds), "s", "ann", EXAMPLE_SALE)
    ensures Affordable(EXAMPLE_PAIRS, ExampleStart(funds), "s", "ann", EXAMPLE_SALE)
  {
    ExampleCosts();
    hide Pair.Cost;
  }

  /** An order that meets nothing only rests. */
  lemma NothingMet(pairs: Pairs, w: World, id: string, user: string, req: Request, p: Placed)
    requires
      && Accepted(pairs, w, id, user, req)
      && p == Place(BookOf(w.books, req.pair), ToEngineOrder(NewRow(id, user, req)))
    requires p.trades == [] && p.cancelled == []
    ensures var r := NewRow(id, user, req);
      CreateOrder(w, pairs, id, user, req).world ==
      World(w.rows[id := Gained(r, 0, p.rested)], Reserved(w.accounts, pairs[req.pair], r).value,
        w.books[req.pair := p.book])
  {
    hide Place;
    hide Rejection;
    hide Reserved;
    var r := NewRow(id, user, req);
    CreateUnfolds(pairs, w, id, user, req);
    assert MakersUpdated(w.rows[id := r], id, []) == w.rows[id := r];
  }

  lemma ReserveIsOwn(accounts: Accounts, pair: Pair, r: Row, a: Account)
    requires Reserved(accounts, pair, r).Ok? && a.user != r.user && a in accounts
    ensures a in Reserved(accounts, pair, r).value && Reserved(accounts, pair, r).value[a] == accounts[a]
  {
  }

  lemma SaleOnEmptyBook(o: Ord)
    requires o.side == Sell && o.kind == Limit && o.Remaining() > 0
    ensures var r := o.(sequence := 1); Place(EMPTY, o) == Placed(Book([], [r], 1, 1), r, [], [], true)
  {
  }

  /** The sale rests, and the buyer's wallet is as it was. */
  lemma AfterSale(funds: nat)
    ensures var w := CreateOrder(ExampleStart(funds), EXAMPLE_PAIRS, "s", "ann", EXAMPLE_SALE).world;
      && WorldOk(EXAMPLE_PAIRS, w)
      && BookOf(w.books, "BTC-USDT").asks == [Ord("s", "ann", Sell, Limit, 100, 100_000_000, 0, 1)]
      && w.rows.Keys == {"s"} && w.rows["s"].user == "ann"
      && Account("bob", "USDT") in w.accounts && w.accounts[Account("bob", "USDT")] == Wallet(funds, 0, true)
  {
    hide WorldOk;
    hide CreateOrder;
    hide Rejection;
    hide Reserved;
    hide Affordable;
    hide Place;
    SaleAccepted(funds);
    CutOffSound(EXAMPLE_PAIRS["BTC-USDT"], 2);
    StartOk(EXAMPLE_PAIRS, ExampleStart(funds).accounts);
    CreateKeeps(EXAMPLE_PAIRS, ExampleStart(funds), "s", "ann", EXAMPLE_SALE);
    var r := NewRow("s", "ann", EXAMPLE_SALE);
    var o := Arriving(EMPTY, r);
    var p := Placed(Book([], [o], 1, 1), o, [], [], true);
    SaleOnEmptyBook(ToEngineOrder(r));
    ReserveIsOwn(ExampleStart(funds).accounts, EXAMPLE_PAIRS["BTC-USDT"], r, Account("bob", "USDT"));
    NothingMet(EXAMPLE_PAIRS, ExampleStart(funds), "s", "ann", EXAMPLE_SALE, p);
  }

  /** A buyer without enough funds is let through to the engine, and refused only when the book has already changed. */
  lemma RefusalHappens(funds: nat)
    requires funds < 1_000_000
    ensures var w := CreateOrder(ExampleStart(funds), EXAMPLE_PAIRS, "s", "ann", EXAMPLE_SALE).world;
      && WorldOk(EXAMPLE_PAIRS, w) && Accepted(EXAMPLE_PAIRS, w, "b", "bob", EXAMPLE_BUY)
      && CreateOrder(w, EXAMPLE_PAIRS, "b", "bob", EXAMPLE_BUY).result == Err(WalletRefused(InsufficientBalance))
      && !WorldOk(EXAMPLE_PAIRS, CreateOrder(w, EXAMPLE_PAIRS, "b", "bob", EXAMPLE_BUY).world)
  {
    hide CreateOrder;
    hide WorldOk;
    hide Accepted;
    hide Affordable;
    hide BookOf;
    hide TradesFor;
    var w := CreateOrder(ExampleStart(funds), EXAMPLE_PAIRS, "s", "ann", EXAMPLE_SALE).world;
    AfterSale(funds);
    BuyUnaffordable(w, funds);
    RefusedReply(EXAMPLE_PAIRS, w, "b", "bob", EXAMPLE_BUY);
    KeptExactlyIfAffordable(EXAMPLE_PAIRS, w, "b", "bob", EXAMPLE_BUY);
  }

  lemma BuyTrades(w: World)
    requires BookOf(w.books, "BTC-USDT").asks == [Ord("s", "ann", Sell, Limit, 100, 100_000_000, 0, 1)]
    ensures TradesFor(w, "b", "bob", EXAMPLE_BUY) == [Trade("s", "b", "ann", "bob", 100, 100_000_000, Buy)]
  {
    var r, b := NewRow("b", "bob", EXAMPLE_BUY), BookOf(w.books, "BTC-USDT");
    var maker, o := b.asks[0], Arriving(b, r);
    assert Match(o.(filled := 100_000_000), []).trades == [];
    assert Match(o, b.asks).trades == [TradeOf(o, maker, 100_000_000)];
  }

  lemma BuyUnpayable(w: World, funds: nat)
    requires Account("bob", "USDT") in w.accounts && w.accounts[Account("bob", "USDT")] == Wallet(funds, 0, true)
    requires funds < 1_000_000
    ensures var r, trade := NewRow("b", "bob", EXAMPLE_BUY), Trade("s", "b", "ann", "bob", 100, 100_000_000, Buy);
      && r.kind == Market && r.pair == "BTC-USDT"
      && !Paid(EXAMPLE_PAIRS, w.accounts, "BTC-USDT", r, [trade])
  {
    ExampleCosts();
    hide Pair.Cost;
  }

  lemma BuyAccepted(w: World)
    ensures Accepted(EXAMPLE_PAIRS, w, "b", "bob", EXAMPLE_BUY)
  {
    hide Pair.Cost;
  }

  lemma BuyUnaffordable(w: World, funds: nat)
    requires BookOf(w.books, "BTC-USDT").asks == [Ord("s", "ann", Sell, Limit, 100, 100_000_000, 0, 1)]
    requires Account("bob", "USDT") in w.accounts && w.accounts[Account("bob", "USDT")] == Wallet(funds, 0, true)
    requires funds < 1_000_000
    ensures
      && Accepted(EXAMPLE_PAIRS, w, "b", "bob", EXAMPLE_BUY) && !Affordable(EXAMPLE_PAIRS, w, "b", "bob", EXAMPLE_BUY)
  {
    hide TradesFor;
    hide Paid;
    hide Accepted;
    hide BookOf;
    hide NewRow;
    BuyAccepted(w);
    BuyTrades(w);
    BuyUnpayable(w, funds);
  }
}
