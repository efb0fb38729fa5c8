/**
 What the order service promises its callers, in the terms of the request, the rows and the
 balances: which requests it takes, what becomes of every row, and who pays what.
 */
module OrderLaws {
  import opened MatchingFills
  import opened MatchingLaws
  import opened MatchingModel
  import opened MatchingRuns
  import opened OrderApply
  import opened OrderDrift
  import opened OrderLifecycle
  import opened OrderModel
  import opened OrderRefusals
  import opened OrderReserves
  import opened OrderRuns
  import opened OrderSafety
  import opened OrderSettlement
  import opened OrderSpare
  import opened OrderWallets
  import opened OrderWorld
  import opened Wallets
  import opened Wrappers

  // ----- which requests are taken

  /** What a request for a known pair asks the wallet to have: its price times its size, or its size. */
  function Needed(pair: Pair, req: Request): int {
    pair.convert(if req.side == "buy" then Buy else Sell, req.quantity, if req.price.Some? then req.price.value else 0)
  }

  /** The wallet that a request spends from. */
  function Spent(pair: Pair, user: string, req: Request): Account {
    Account(user, if req.side == "buy" then pair.quote else pair.base)
  }

  function Available(accounts: Accounts, a: Account): int { BalanceOf(accounts, a) - LockedOf(accounts, a) }

  /** The first rule that a request breaks, with the error that names it. */
  predicate Breaks(w: World, pairs: Pairs, user: string, req: Request, error: OrderError) {
    var sideOk, typeOk := req.side == "buy" || req.side == "sell", req.kind == "market" || req.kind == "limit";
    var priceOk := if req.kind == "market" then req.price.None? else req.price.Some? && req.price.value > 0;
    match error
    case InvalidSide => !sideOk
    case InvalidType => sideOk && !typeOk
    case PriceNotAllowed => sideOk && req.kind == "market" && !priceOk
    case PriceRequired => sideOk && req.kind == "limit" && !priceOk
    case PairNotFound => sideOk && typeOk && priceOk && req.pair !in pairs
    case _ =>
      && sideOk && typeOk && priceOk && req.pair in pairs
      && var pair := pairs[req.pair];
      var fiat, short := pair.base == "USD" || pair.quote == "USD", req.quantity < pair.minOrderSize;
      match error
      case PairSuspended => !pair.active
      case FiatNotTradable => pair.active && fiat
      case BelowMinOrderSize => pair.active && !fiat && short
      case InsufficientFunds =>
        && pair.active && !fiat && !short && (req.kind == "limit" || req.side == "sell")
        && Available(w.accounts, Spent(pair, user, req)) < Needed(pair, req)
      case _ => false
  }

  /** A request that breaks a rule is answered with the error of the first one it breaks, and changes nothing. */
  lemma BrokenRule(pairs: Pairs, w: World, id: string, user: string, req: Request, error: OrderError)
    requires Breaks(w, pairs, user, req, error)
    ensures CreateOrder(w, pairs, id, user, req) == Reply(w, Err(error))
  {
    hide Place;
    hide ApplyResult;
  }

  /** Everything that is asked of a request. */
  predicate Keeps(w: World, pairs: Pairs, user: string, req: Request) {
    && (req.side == "buy" || req.side == "sell")
    && (req.kind == "market" || req.kind == "limit")
    && (req.kind == "market" ==> req.price.None?) && (req.kind == "limit" ==> req.price.Some? && req.price.value > 0)
    && req.pair in pairs
    && var pair := pairs[req.pair];
    && pair.active && pair.base != "USD" && pair.quote != "USD" && req.quantity >= pair.minOrderSize
    && (req.kind == "limit" || req.side == "sell" ==>
          Needed(pair, req) <= Available(w.accounts, Spent(pair, user, req)))
  }

  /** A request is taken if and only if it keeps every rule and, for a limit order, its wallet exists. */
  lemma TakenExactly(pairs: Pairs, w: World, id: string, user: string, req: Request)
    ensures Accepted(pairs, w, id, user, req) <==>
      Keeps(w, pairs, user, req) && (req.kind == "limit" ==> Spent(pairs[req.pair], user, req) in w.accounts)
  {
  }

  /** A limit order for nothing out of a wallet that is not there keeps every rule, and is refused by the wallets. */
  lemma RefusedWithoutWallet(pairs: Pairs, w: World, id: string, user: string, req: Request)
    requires
      Keeps(w, pairs, user, req) && req.kind == "limit" && Spent(pairs[req.pair], user, req) !in w.accounts
    ensures CreateOrder(w, pairs, id, user, req) == Reply(w, Err(WalletRefused(WalletNotFound)))
  {
    hide Place;
    hide ApplyResult;
  }

  /** A request that changes anything, or succeeds, keeps every rule. */
  lemma ChangesOnlyIfKept(pairs: Pairs, w: World, id: string, user: string, req: Request)
    requires CreateOrder(w, pairs, id, user, req).world != w || CreateOrder(w, pairs, id, user, req).result.Ok?
    ensures Keeps(w, pairs, user, req)
  {
    hide Accepted;
    hide CreateOrder;
    TakenExactly(pairs, w, id, user, req);
    if !Accepted(pairs, w, id, user, req) {
      NotAccepted(pairs, w, id, user, req);
    }
  }

  /** A request either keeps every rule, or breaks some rule first. */
  lemma KeepsOrBreaks(pairs: Pairs, w: World, user: string, req: Request)
    ensures Keeps(w, pairs, user, req) <==> !exists error :: Breaks(w, pairs, user, req, error)
  {
    if !Keeps(w, pairs, user, req) {
      assert Breaks(w, pairs, user, req, InvalidSide) || Breaks(w, pairs, user, req, InvalidType) ||
        Breaks(w, pairs, user, req, PriceNotAllowed) || Breaks(w, pairs, user, req, PriceRequired) ||
        Breaks(w, pairs, user, req, PairNotFound) || Breaks(w, pairs, user, req, PairSuspended) ||
        Breaks(w, pairs, user, req, FiatNotTradable) || Breaks(w, pairs, user, req, BelowMinOrderSize) ||
        Breaks(w, pairs, user, req, InsufficientFunds);
    }
  }

  /** A limit order that is taken has locked what it may have to pay, and a market order nothing. */
  lemma LocksExactly(pairs: Pairs, w: World, id: string, user: string, req: Request, a: Account)
    requires Accepted(pairs, w, id, user, req)
    ensures var after := Reserved(w.accounts, pairs[req.pair], NewRow(id, user, req)).value;
      && after.Keys == w.accounts.Keys && BalanceOf(after, a) == BalanceOf(w.accounts, a)
      && LockedOf(after, a) == LockedOf(w.accounts, a) +
           if req.kind == "limit" && a == Spent(pairs[req.pair], user, req) then Needed(pairs[req.pair], req) else 0
  {
  }

  // ----- what becomes of the rows

  lemma CreatedShape(pairs: Pairs, w: World, id: string, user: string, req: Request)
    requires CreateOrder(w, pairs, id, user, req).result.Ok?
    ensures var r, reply := NewRow(id, user, req), CreateOrder(w, pairs, id, user, req);
      var p := Place(BookOf(w.books, req.pair), ToEngineOrder(r));
      && Accepted(pairs, w, id, user, req) && id in reply.world.rows
      && reply.result == Ok(Gained(r, Gain(p.trades, id), p.rested)) && reply.result == Ok(reply.world.rows[id])
  {
    hide Place;
    hide SettleAll;
    hide CancelMakers;
    hide Gained;
    hide Gain;
  }

  /** How a row ends that wants `quantity` and has `filled`: the status says no more and no less. */
  predicate StatusFits(r: Row) {
    && (r.status == Status.Filled <==> r.filled == r.quantity)
    && (r.status == PartiallyFilled <==> 0 < r.filled < r.quantity)
    && (r.filled == 0 < r.quantity ==> r.status == if r.kind == Limit then Open else Status.Cancelled)
  }

  /** The row of an order that goes through is as requested, filled by its trades; the reply is that row. */
  lemma CreatedRow(pairs: Pairs, w: World, id: string, user: string, req: Request)
    requires Safe(pairs, w) && id !in w.rows && CreateOrder(w, pairs, id, user, req).result.Ok?
    ensures var reply := CreateOrder(w, pairs, id, user, req);
      && id in reply.world.rows && reply.result == Ok(reply.world.rows[id])
      && var r := reply.world.rows[id];
      && r.id == id && r.user == user && r.pair == req.pair && r.quantity == req.quantity
      && r.side == (if req.side == "buy" then Buy else Sell)
      && r.kind == (if req.kind == "market" then Market else Limit)
      && (req.price.Some? ==> r.price == req.price.value)
      && r.lockedAmount == (if r.kind == Market then 0 else if r.side == Buy then r.quantity * r.price else r.quantity)
      && r.filled == Traded(TradesFor(w, id, user, req)) && 0 <= r.filled <= r.quantity && StatusFits(r)
  {
    hide CreateOrder;
    hide Place;
    hide Match;
    hide Submitted;
    hide SafeBy;
    hide Traded;
    hide Gain;
    hide Reserved;
    var booked :| SafeBy(pairs, w, booked);
    CreatedShape(pairs, w, id, user, req);
    BookedStored(pairs, w, booked);
    var r, b := NewRow(id, user, req), BookOf(w.books, req.pair);
    var accounts, high, low :=
      Reserved(w.accounts, pairs[req.pair], r).value, booked[id := r], Standing(w.rows, booked)[id := r];
    Arrives(pairs, w, booked, id, user, req);
    TakerFills(pairs, low, high, accounts, b, r);
  }

  /** What a taker gains is what its trades come to, and never more than it wants. */
  lemma TakerFills(pairs: Pairs, low: Rows, high: Rows, accounts: Accounts, b: Book, r: Row)
    requires Behind(pairs, low, high, accounts, b, r)
    ensures var p := Place(b, ToEngineOrder(r));
      && Gain(p.trades, r.id) == Traded(MatchOf(b, r).trades) && 0 <= Gain(p.trades, r.id) <= r.quantity
      && p.rested == (r.kind == Limit && Gain(p.trades, r.id) < r.quantity)
  {
    hide Match;
    hide Place;
    hide Covered;
    hide FitAll;
    hide Lags;
    hide RowsOk;
    var o, q := Arriving(b, r), b.Queue(Opposite(r.side));
    SubmittedMeets(pairs, high, accounts, b, r);
    TakerWritten(pairs, high, accounts, b, r);
    RestsIfUnfilled(pairs, low, high, accounts, b, r);
    MatchConserves(o, q);
    MatchTail(o, q);
  }

  /** What an order has sold or bought as the maker of some trades. */
  function MadeBy(trades: seq<Trade>, id: string): int {
    if trades == [] then 0
    else (if trades[0].makerId == id then trades[0].quantity else 0) + MadeBy(trades[1..], id)
  }

  lemma {:induction false} GainOfMaker(trades: seq<Trade>, id: string)
    requires forall i :: 0 <= i < |trades| ==> trades[i].takerId != id
    ensures Gain(trades, id) == MadeBy(trades, id)
    ensures (forall i :: 0 <= i < |trades| ==> trades[i].makerId != id) ==> MadeBy(trades, id) == 0
    decreases trades
  {
    if trades != [] {
      GainOfMaker(trades[1..], id);
    }
  }

  /** An order that goes through leaves the table with the match applied in full. */
  lemma CreatedApplies(pairs: Pairs, w: World, booked: Rows, id: string, user: string, req: Request)
    requires SafeBy(pairs, w, booked) && id !in w.rows && CreateOrder(w, pairs, id, user, req).result.Ok?
    ensures Accepted(pairs, w, id, user, req)
    ensures var r, reply := NewRow(id, user, req), CreateOrder(w, pairs, id, user, req);
      reply.world.rows == Applied(w.rows[id := r], r, Place(BookOf(w.books, req.pair), ToEngineOrder(r)))
  {
    hide Reserved;
    hide Applied;
    hide Place;
    hide Match;
    hide Covered;
    hide SettleAll;
    hide Mirrors;
    hide Lags;
    hide FitAll;
    hide Submitted;
    hide CreateOrder;
    hide ApplyResult;
    hide Paid;
    hide AdvanceAll;
    hide RowsOk;
    CreatedShape(pairs, w, id, user, req);
    CreatedExactly(pairs, w, id, user, req);
    assert req.pair in pairs;
    hide Rejection;
    var r, b, trades := NewRow(id, user, req), BookOf(w.books, req.pair), TradesFor(w, id, user, req);
    var rows, low, high := w.rows[id := r], Standing(w.rows, booked)[id := r], booked[id := r];
    var accounts := Reserved(w.accounts, pairs[req.pair], r).value;
    AffordableAfterLock(pairs, w, id, user, req);
    Arrives(pairs, w, booked, id, user, req);
    LowSpare(pairs, low, high, accounts, b, r);
    FitEach(pairs, low, req.pair, r, trades);
    SettleSame(accounts, rows, low, pairs[req.pair], r, trades);
    PaidApplied(pairs, rows, low, high, accounts, b, r);
    CreateUnfolds(pairs, w, id, user, req);
  }

  /** What a match makes of an order that was there before. */
  predicate Became(before: Row, after: Row, made: int, cancelled: bool) {
    && made >= 0 && after == before.(filled := before.filled + made, status := after.status)
    && after.status ==
         if cancelled then Status.Cancelled
         else if made == 0 then before.status
         else if after.filled >= after.quantity then Status.Filled
         else PartiallyFilled
  }

  lemma LowBecame(pairs: Pairs, low: Rows, high: Rows, accounts: Accounts, b: Book, r: Row, x: string)
    requires Behind(pairs, low, high, accounts, b, r) && x in low && x != r.id
    ensures var p := Place(b, ToEngineOrder(r));
      x in Applied(low, r, p) &&
      Became(low[x], Applied(low, r, p)[x], MadeBy(MatchOf(b, r).trades, x), HasId(p.cancelled, x))
  {
    hide Place;
    hide Match;
    hide Covered;
    hide WrittenBack;
    hide Applied;
    hide FitAll;
    hide BookStored;
    hide RowsOk;
    hide Lags;
    hide Gain;
    hide MadeBy;
    hide AdvanceAll;
    var p := Place(b, ToEngineOrder(r));
    RestsIfUnfilled(pairs, low, high, accounts, b, r);
    assert r.status == Pending && r.filled == 0;
    FitEach(pairs, low, r.pair, r, p.trades);
    GainOfMaker(p.trades, x);
    WrittenFits(pairs, low, r, p, x);
    AppliedRow(low, r, p, x);
  }

  lemma ApartBecame(pairs: Pairs, rows: Rows, low: Rows, high: Rows, accounts: Accounts, b: Book, r: Row, x: string)
    requires Behind(pairs, low, high, accounts, b, r) && PartOf(low, rows) && x in rows && x !in low
    ensures var p := Place(b, ToEngineOrder(r));
      x in Applied(rows, r, p) &&
      Became(rows[x], Applied(rows, r, p)[x], MadeBy(MatchOf(b, r).trades, x), HasId(p.cancelled, x))
  {
    hide Place;
    hide Match;
    hide Covered;
    hide WrittenBack;
    hide Applied;
    hide FitAll;
    hide BookStored;
    hide RowsOk;
    hide Lags;
    hide Gain;
    hide MadeBy;
    var p := Place(b, ToEngineOrder(r));
    RestsIfUnfilled(pairs, low, high, accounts, b, r);
    AppliedApart(pairs, rows, low, high, accounts, b, r, x);
    LowCancellable(pairs, low, high, accounts, b, r);
    WrittenKeys(low, r, p);
    AppliedRow(rows, r, p, x);
    FitEach(pairs, low, r.pair, r, p.trades);
    GainOfMaker(p.trades, x);
  }

  lemma RowBecame(pairs: Pairs, w: World, booked: Rows, id: string, user: string, req: Request, x: string)
    requires SafeBy(pairs, w, booked) && id !in w.rows && Accepted(pairs, w, id, user, req) && x in w.rows
    ensures var r := NewRow(id, user, req);
      var p := Place(BookOf(w.books, req.pair), ToEngineOrder(r));
      var after := Applied(w.rows[id := r], r, p);
      && after.Keys == w.rows.Keys + {id}
      && Became(w.rows[x], after[x], MadeBy(TradesFor(w, id, user, req), x), HasId(p.cancelled, x))
  {
    hide Place;
    hide Match;
    hide Applied;
    hide Behind;
    hide Became;
    hide Reserved;
    hide MadeBy;
    hide Lags;
    hide Covered;
    hide Mirrors;
    hide RowsOk;
    hide Submitted;
    assert req.pair in pairs;
    hide Rejection;
    var r, b := NewRow(id, user, req), BookOf(w.books, req.pair);
    var p, rows, low, high :=
      Place(b, ToEngineOrder(r)), w.rows[id := r], Standing(w.rows, booked)[id := r], booked[id := r];
    var accounts := Reserved(w.accounts, pairs[req.pair], r).value;
    Arrives(pairs, w, booked, id, user, req);
    AppliedRow(rows, r, p, id);
    if x in low {
      AppliedTable(pairs, w, booked, id, user, req);
      LowBecame(pairs, low, high, accounts, b, r, x);
    } else {
      ApartBecame(pairs, rows, low, high, accounts, b, r, x);
    }
  }

  /**
   Every other row has what its order traded as a maker added to its fill, and is filled, partially
   filled or as it was accordingly, or cancelled if the taker's own orders were in its way.
   */
  lemma OtherRow(pairs: Pairs, w: World, id: string, user: string, req: Request, x: string)
    requires Safe(pairs, w) && id !in w.rows && CreateOrder(w, pairs, id, user, req).result.Ok? && x in w.rows
    ensures var reply, p :=
      CreateOrder(w, pairs, id, user, req), Place(BookOf(w.books, req.pair), ToEngineOrder(NewRow(id, user, req)));
      && reply.world.rows.Keys == w.rows.Keys + {id}
      && Became(w.rows[x], reply.world.rows[x], MadeBy(TradesFor(w, id, user, req), x), HasId(p.cancelled, x))
  {
    hide Place;
    hide CreateOrder;
    hide Applied;
    hide SafeBy;
    hide Became;
    hide MadeBy;
    hide TradesFor;
    hide NewRow;
    hide Accepted;
    var booked :| SafeBy(pairs, w, booked);
    CreatedApplies(pairs, w, booked, id, user, req);
    RowBecame(pairs, w, booked, id, user, req, x);
  }

  // ----- at what price, and for how much

  /** No trade of a limit order is at a price that its owner did not agree to, and each is with somebody else. */
  lemma TradedAsAsked(pairs: Pairs, w: World, id: string, user: string, req: Request, i: nat)
    requires Safe(pairs, w) && id !in w.rows && Accepted(pairs, w, id, user, req) && i < |TradesFor(w, id, user, req)|
    ensures var t := TradesFor(w, id, user, req)[i];
      && t.takerId == id && t.takerUser == user && t.makerUser != user && t.quantity > 0
      && MadeFrom(if req.side == "buy" then BookOf(w.books, req.pair).asks else BookOf(w.books, req.pair).bids, t)
      && (req.kind == "limit" && req.side == "buy" ==> t.price <= req.price.value)
      && (req.kind == "limit" && req.side == "sell" ==> t.price >= req.price.value)
  {
    hide Match;
    var booked :| SafeBy(pairs, w, booked);
    var b := BookOf(w.books, req.pair);
    assert BookStored(booked, b, req.pair);
    hide SafeBy;
    var r, side := NewRow(id, user, req), Opposite(NewRow(id, user, req).side);
    QueueUnfilled(b, side);
    var o, q := Arriving(b, r), b.Queue(side);
    TradesWithinLimit(o, q);
    assert TradesFor(w, id, user, req) == Match(o, q).trades;
    assert Match(o, q).trades[i].takerId == o.id && Match(o, q).trades[i].makerUser != o.user;
  }

  /** How many decimals the smallest unit of a coin has. */
  lemma SmallestUnits(coin: string)
    ensures SmallestUnitFactor(coin) == Pow10(match coin
        case "BTC" => 8
        case "ETH" => 18
        case "BNB" => 18
        case "SOL" => 9
        case "USDT" => 6
        case _ => 2)
  {
    TenTimes(9);
    TenTimes(18);
    assert Pow10(18) == Pow10(9) * Pow10(9) by { PowSum(9, 9); }
  }

  lemma TenTimes(n: nat)
    requires n > 0
    ensures Pow10(n) == 10 * Pow10(n - 1)
  {
  }

  lemma {:induction false} PowSum(m: nat, n: nat)
    ensures Pow10(m + n) == Pow10(m) * Pow10(n)
    decreases m
  {
    if m > 0 {
      PowSum(m - 1, n);
      assert Pow10(m + n) == 10 * Pow10(m - 1 + n);
    }
  }

  /** Whole coins at a price of whole units come to exactly that many units of either coin, with nothing cut off. */
  lemma WholeCoins(base: string, quote: string, priceDecimals: nat, coins: nat, price: nat)
    ensures var convert, lots := CutOff(base, quote, priceDecimals), coins * 100_000_000;
      && convert(Sell, lots, price * Pow10(priceDecimals)) == coins * SmallestUnitFactor(base)
      && convert(Buy, lots, price * Pow10(priceDecimals)) == coins * price * SmallestUnitFactor(quote)
  {
    var d, f := Pow10(priceDecimals), SmallestUnitFactor(quote);
    var lots := coins * 100_000_000;
    assert lots * SmallestUnitFactor(base) == LOT_SCALE * (coins * SmallestUnitFactor(base));
    WholeQuotient(LOT_SCALE, coins * SmallestUnitFactor(base));
    WholeProduct(coins, price, d, f);
    WholeQuotient(LOT_SCALE * d, coins * price * f);
  }

  lemma WholeProduct(coins: int, price: int, d: int, f: int)
    ensures coins * 100_000_000 * (price * d) * f == LOT_SCALE * d * (coins * price * f)
  {
  }

  // ----- who pays what

  /** What a trade does to a balance: the buyer pays the seller the price, and the seller gives the buyer the size. */
  function Effect(pair: Pair, maker: Row, taker: Row, t: Trade, a: Account): int {
    var buyer, seller := if maker.side == Buy then maker.user else taker.user,
                         if maker.side == Buy then taker.user else maker.user;
    var paid, given := pair.convert(Buy, t.quantity, t.price), pair.convert(Sell, t.quantity, t.price);
    (if a == Account(buyer, pair.base) then given else 0) - (if a == Account(seller, pair.base) then given else 0) +
    (if a == Account(seller, pair.quote) then paid else 0) - (if a == Account(buyer, pair.quote) then paid else 0)
  }

  function Effects(pair: Pair, rows: Rows, taker: Row, trades: seq<Trade>, a: Account): int {
    if trades == [] || trades[0].makerId !in rows then 0
    else Effect(pair, rows[trades[0].makerId], taker, trades[0], a) + Effects(pair, rows, taker, trades[1..], a)
  }

  lemma ProcessBalance(accounts: Accounts, leg: Leg, a: Account)
    requires Process(accounts, leg).Ok?
    ensures BalanceOf(Process(accounts, leg).value, a) == BalanceOf(accounts, a) -
      (if a == leg.Source() then leg.spent else 0) + (if a == leg.Target() then leg.received else 0)
  {
  }

  /** A settled trade has done that to every balance. */
  lemma TradePays(accounts: Accounts, pair: Pair, maker: Row, taker: Row, t: Trade, a: Account)
    requires maker.side != taker.side
    requires Settle(accounts, MakerLeg(pair, maker, t), TakerLeg(pair, maker, taker, t)).Ok?
    ensures BalanceOf(Settle(accounts, MakerLeg(pair, maker, t), TakerLeg(pair, maker, taker, t)).value, a) ==
            BalanceOf(accounts, a) + Effect(pair, maker, taker, t, a)
  {
    hide Process;
    ProcessBalance(accounts, MakerLeg(pair, maker, t), a);
    ProcessBalance(Process(accounts, MakerLeg(pair, maker, t)).value, TakerLeg(pair, maker, taker, t), a);
  }

  /** The settlement has done that for the trades it settled, and for no others. */
  lemma {:induction false} SettledPays(accounts: Accounts, rows: Rows, pair: Pair, taker: Row, trades: seq<Trade>,
                                       a: Account)
    requires forall i :: 0 <= i < |trades| && trades[i].makerId in rows ==> rows[trades[i].makerId].side != taker.side
    ensures BalanceOf(SettleAll(accounts, rows, pair, taker, trades).accounts, a) == BalanceOf(accounts, a) +
            Effects(pair, rows, taker, trades[..SettledCount(accounts, rows, pair, taker, trades)], a)
    decreases trades
  {
    if trades != [] && trades[0].makerId in rows {
      hide Settle;
      hide Effect;
      hide MakerLeg;
      hide TakerLeg;
      hide BalanceOf;
      var t, maker := trades[0], rows[trades[0].makerId];
      var settled := Settle(accounts, MakerLeg(pair, maker, t), TakerLeg(pair, maker, taker, t));
      if settled.Ok? {
        TradePays(accounts, pair, maker, taker, t, a);
        SettledPays(settled.value, rows, pair, taker, trades[1..], a);
        var n := SettledCount(settled.value, rows, pair, taker, trades[1..]);
        assert trades[..n + 1][1..] == trades[1..][..n];
      }
    }
  }

  lemma UnlockedBalance(accounts: Accounts, pair: Pair, r: Row, a: Account)
    ensures BalanceOf(Unreserved(accounts, pair, r), a) == BalanceOf(accounts, a)
  {
  }

  lemma {:induction false} CancelledBalance(rows: Rows, accounts: Accounts, pair: Pair, cancelled: seq<Ord>, a: Account)
    ensures BalanceOf(CancelMakers(rows, accounts, pair, cancelled).accounts, a) == BalanceOf(accounts, a)
    decreases cancelled
  {
    if cancelled != [] && cancelled[0].id in rows {
      hide Unreserved;
      hide BalanceOf;
      var one := CancelOne(rows, accounts, pair, cancelled[0].id);
      UnlockedBalance(accounts, pair, rows[cancelled[0].id], a);
      CancelledBalance(one.rows, one.accounts, pair, cancelled[1..], a);
    }
  }

  /** The trades of an accepted order that are settled: all of them, or those before the first it cannot pay for. */
  function SettledFor(pairs: Pairs, w: World, id: string, user: string, req: Request): seq<Trade>
    requires Accepted(pairs, w, id, user, req)
  {
    if Affordable(pairs, w, id, user, req) then TradesFor(w, id, user, req) else PaidTrades(pairs, w, id, user, req)
  }

  lemma AppliedBalance(rows: Rows, accounts: Accounts, pair: Pair, taker: Row, p: Placed, a: Account)
    ensures BalanceOf(ApplyResult(rows, accounts, pair, taker, p).accounts, a) ==
            BalanceOf(SettleAll(accounts, rows, pair, taker, p.trades).accounts, a)
  {
    hide SettleAll;
    hide CancelMakers;
    hide MakersUpdated;
    hide BalanceOf;
    CancelledBalance(MakersUpdated(rows, taker.id, p.trades), SettleAll(accounts, rows, pair, taker, p.trades).accounts,
                     pair, p.cancelled, a);
  }

  /** How many trades an accepted order settles: as many as are listed for it. */
  lemma SettledAsListed(pairs: Pairs, w: World, booked: Rows, id: string, user: string, req: Request)
    requires SafeBy(pairs, w, booked) && id !in w.rows && Accepted(pairs, w, id, user, req)
    ensures var r, trades := NewRow(id, user, req), TradesFor(w, id, user, req);
      SettledFor(pairs, w, id, user, req) ==
      trades[..SettledCount(Reserved(w.accounts, pairs[req.pair], r).value, w.rows[id := r], pairs[req.pair], r,
                            trades)]
  {
    hide Place;
    hide Match;
    hide SafeBy;
    hide Reserved;
    hide SettleAll;
    hide SettledCount;
    hide Affordable;
    hide PaidTrades;
    hide AdvanceAll;
    hide Covered;
    hide CreateOrder;
    hide MakersPaid;
    hide CancelMakers;
    hide MakersUpdated;
    assert req.pair in pairs;
    BookedStored(pairs, w, booked);
    assert Safe(pairs, w);
    if Affordable(pairs, w, id, user, req) {
      CreatedExactly(pairs, w, id, user, req);
      CreateUnfolds(pairs, w, id, user, req);
      PlaceParts(BookOf(w.books, req.pair), ToEngineOrder(NewRow(id, user, req)));
      Settles(pairs, w, booked, id, user, req);
      assert TradesFor(w, id, user, req)[..|TradesFor(w, id, user, req)|] == TradesFor(w, id, user, req);
    } else {
      RefusedSettles(pairs, w, booked, id, user, req);
    }
  }

  /** What an accepted order does to every balance: what its settled trades do, refused or not, and nothing else. */
  lemma CreatedPays(pairs: Pairs, w: World, id: string, user: string, req: Request, a: Account)
    requires Safe(pairs, w) && id !in w.rows && Accepted(pairs, w, id, user, req)
    ensures var r := NewRow(id, user, req);
      BalanceOf(CreateOrder(w, pairs, id, user, req).world.accounts, a) == BalanceOf(w.accounts, a) +
      Effects(pairs[req.pair], w.rows[id := r], r, SettledFor(pairs, w, id, user, req), a)
  {
    hide Place;
    hide Match;
    hide SafeBy;
    hide SettleAll;
    hide SettledCount;
    hide SettledFor;
    hide ApplyResult;
    hide CreateOrder;
    hide Effects;
    hide BalanceOf;
    hide Behind;
    hide Covered;
    hide FitAll;
    hide Submitted;
    hide RowsOk;
    hide Reserved;
    assert req.pair in pairs;
    var booked :| SafeBy(pairs, w, booked);
    BookedStored(pairs, w, booked);
    var r, b, trades := NewRow(id, user, req), BookOf(w.books, req.pair), TradesFor(w, id, user, req);
    var rows, low := w.rows[id := r], Standing(w.rows, booked)[id := r];
    var accounts := Reserved(w.accounts, pairs[req.pair], r).value;
    SettledAsListed(pairs, w, booked, id, user, req);
    LocksExactly(pairs, w, id, user, req, a);
    MakersOpposite(pairs, w, booked, id, user, req);
    hide Accepted;
    CreateUnfolds(pairs, w, id, user, req);
    PlaceParts(b, ToEngineOrder(r));
    AppliedBalance(rows, accounts, pairs[req.pair], r, Place(b, ToEngineOrder(r)), a);
    SettledPays(accounts, rows, pairs[req.pair], r, trades, a);
  }

  lemma MakersOpposite(pairs: Pairs, w: World, booked: Rows, id: string, user: string, req: Request)
    requires SafeBy(pairs, w, booked) && id !in w.rows && Accepted(pairs, w, id, user, req)
    ensures var r, trades := NewRow(id, user, req), TradesFor(w, id, user, req);
      forall i :: 0 <= i < |trades| ==> trades[i].makerId in w.rows && w.rows[trades[i].makerId].side != r.side
  {
    hide Place;
    hide Match;
    hide Mirrors;
    hide Covered;
    hide Submitted;
    hide RowOk;
    hide FitAll;
    var r, low := NewRow(id, user, req), Standing(w.rows, booked)[id := NewRow(id, user, req)];
    Arrives(pairs, w, booked, id, user, req);
    FitEach(pairs, low, req.pair, r, TradesFor(w, id, user, req));
  }

  // ----- cancelling and cleaning up

  /** Whether an order rests in the book of its pair. */
  ghost predicate Rests(books: Books, r: Row) {
    HasId(BookOf(books, r.pair).bids, r.id) || HasId(BookOf(books, r.pair).asks, r.id)
  }

  /**
   Only its owner can cancel an order, as long as it is pending, open or partially filled and rests in
   the book; it is then cancelled in the table and out of the book, and no other row and no balance
   has changed.
   */
  lemma CancelsExactly(pairs: Pairs, w: World, user: string, id: string)
    requires Safe(pairs, w)
    ensures var reply := CancelOrder(w, pairs, user, id);
      if id !in w.rows || w.rows[id].user != user then reply == Reply(w, Err(OrderNotFound))
      else
        var r := w.rows[id];
        if (r.status != Pending && r.status != Open && r.status != PartiallyFilled) || !Rests(w.books, r) then
          && reply.result == Err(OrderNotCancellable)
          && reply.world.rows == w.rows && reply.world.accounts == w.accounts
          && forall p :: BookOf(reply.world.books, p) == BookOf(w.books, p)
        else
          var cancelled := r.(status := Status.Cancelled);
          && reply.result == Ok(cancelled) && reply.world.rows == w.rows[id := cancelled]
          && !Rests(reply.world.books, cancelled)
          && (forall p :: p != r.pair ==> BookOf(reply.world.books, p) == BookOf(w.books, p))
          && forall a :: BalanceOf(reply.world.accounts, a) == BalanceOf(w.accounts, a)
  {
    hide Safe;
    hide Cancel;
    hide Returned;
    hide Rests;
    hide BalanceOf;
    if id in w.rows && w.rows[id].user == user && w.rows[id].Live() {
      OutOfBook(pairs, w, id);
      forall a ensures BalanceOf(Returned(w.accounts, pairs, w.rows[id]), a) == BalanceOf(w.accounts, a) {
        ReturnedBalance(w.accounts, pairs, w.rows[id], a);
      }
    }
  }

  lemma ReturnedBalance(accounts: Accounts, pairs: Pairs, r: Row, a: Account)
    ensures BalanceOf(Returned(accounts, pairs, r), a) == BalanceOf(accounts, a)
  {
    hide Unreserved;
    if r.pair in pairs {
      UnlockedBalance(accounts, pairs[r.pair], r, a);
    }
  }

  /** The engine finds an order exactly if it rests, and takes it out. */
  lemma OutOfBook(pairs: Pairs, w: World, id: string)
    requires Safe(pairs, w) && id in w.rows
    ensures var r, c := w.rows[id], Cancel(BookOf(w.books, w.rows[id].pair), id);
      && r.id == id && !NeedsPair(pairs, r) && (c.order.Some? <==> Rests(w.books, r))
      && (c.order.None? ==> c.book == BookOf(w.books, r.pair))
      && (c.order.Some? ==> !Rests(w.books[r.pair := c.book], r.(status := Status.Cancelled)))
  {
    var booked :| SafeBy(pairs, w, booked);
    var r, b := w.rows[id], BookOf(w.books, w.rows[id].pair);
    assert RowOk(pairs, id, r);
    assert BookStored(booked, b, r.pair);
    hide SafeBy;
    var p := CancelledOut(b, id);
    FindHas(b.bids, id);
    FindHas(b.asks, id);
  }

  /** The clean-up cancels the pending, open and partially filled orders, and leaves all other rows and balances. */
  lemma {:induction false} CleansExactly(pairs: Pairs, rows: Rows, accounts: Accounts, ids: seq<string>, a: Account)
    requires LiveList(rows, ids) && forall x :: x in rows ==> rows[x].id == x
    ensures var done := Cleanup(rows, accounts, pairs, ids);
      && done.0.Keys == rows.Keys && BalanceOf(done.1, a) == BalanceOf(accounts, a)
      && forall x :: x in rows ==>
           var r := rows[x];
           done.0[x] == if r.status == Pending || r.status == Open || r.status == PartiallyFilled
                        then r.(status := Status.Cancelled) else r
    decreases ids
  {
    hide Unreserved;
    hide BalanceOf;
    if ids == [] {
      hide Cleanup;
      NoneLeft(rows);
      assert Cleanup(rows, accounts, pairs, ids) == (rows, accounts) by { CleanupNothing(pairs, rows, accounts); }
    } else {
      LiveListRest(rows, ids);
      hide LiveList;
      var r := rows[ids[0]];
      if r.pair in pairs { UnlockedBalance(accounts, pairs[r.pair], r, a); }
      CleansExactly(pairs, rows[ids[0] := r.(status := Status.Cancelled)], Returned(accounts, pairs, r), ids[1..], a);
    }
  }

  lemma CleanupNothing(pairs: Pairs, rows: Rows, accounts: Accounts)
    ensures Cleanup(rows, accounts, pairs, []) == (rows, accounts)
  {
  }
}
