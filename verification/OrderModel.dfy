/**
 Orders as the order service stores them, the amounts they stand for, and what creating and
 cancelling them does to the table, the wallets and the books.
 */
module OrderModel {
  import opened MatchingModel
  import opened OrderWallets
  import opened Wallets
  import opened Wrappers

  // ----- amounts

  /** Lots in one whole unit of a base coin. */
  const LOT_SCALE := 100_000_000

  /** Smallest units in one whole unit of a currency. */
  function SmallestUnitFactor(currency: string): (f: int)
    ensures f > 0
  {
    match currency
    case "BTC" => 100_000_000
    case "ETH" => 1_000_000_000_000_000_000
    case "BNB" => 1_000_000_000_000_000_000
    case "SOL" => 1_000_000_000
    case "USDT" => 1_000_000
    case _ => 100
  }

  function Pow10(n: nat): (p: int)
    ensures p > 0
  {
    if n == 0 then 1 else 10 * Pow10(n - 1)
  }

  /** What some lots at some price come to for a side, in the smallest unit of the coin that the side spends. */
  type Conversion = (Side, int, int) -> int

  /** The service's conversion, in whole numbers: lots, for a buy times ticks, cut off. */
  function CutOff(base: string, quote: string, priceDecimals: nat): Conversion {
    (side: Side, lots: int, price: int) =>
      if side == Buy then lots * price * SmallestUnitFactor(quote) / (LOT_SCALE * Pow10(priceDecimals))
      else lots * SmallestUnitFactor(base) / LOT_SCALE
  }

  datatype Pair = Pair(base: string, quote: string, active: bool, minOrderSize: nat, convert: Conversion)
  {
    /** The coin an order of a side spends, and so reserves. */
    function SpentCoin(side: Side): string { if side == Buy then quote else base }

    function ReceivedCoin(side: Side): string { if side == Buy then base else quote }

    /** What `lots` at `price` cost an order of a side. */
    function Cost(side: Side, lots: int, price: int): int { convert(side, lots, price) }
  }

  // ----- orders

  datatype Status = Pending | Open | PartiallyFilled | Filled | Cancelled

  /** A row of the order table; prices in ticks and sizes in lots. */
  datatype Row = Row(id: string, user: string, pair: string, side: Side, kind: Kind, price: int,
                     quantity: int, filled: int, lockedAmount: int, status: Status)
  {
    function Remaining(): int { quantity - filled }

    predicate Live() { status == Pending || status == Open || status == PartiallyFilled }
  }

  function ToEngineOrder(r: Row): Ord {
    Ord(r.id, r.user, r.side, r.kind, if r.kind == Market then 0 else r.price, r.quantity, r.filled, 0)
  }

  function DeriveStatus(r: Row, rested: bool): Status {
    if r.filled >= r.quantity then Filled
    else if r.filled > 0 then PartiallyFilled
    else if rested then Open
    else Status.Cancelled
  }

  datatype OrderError =
    | InvalidSide
    | InvalidType
    | PriceNotAllowed
    | PriceRequired
    | PairNotFound
    | PairSuspended
    | FiatNotTradable
    | BelowMinOrderSize
    | InsufficientFunds
    | OrderNotFound
    | OrderNotCancellable
    | Crashed
    | WalletRefused(error: WalletError)

  datatype Request = Request(pair: string, side: string, kind: string, quantity: int, price: Option<int>)
  {
    function Side(): Side { if side == "buy" then Buy else Sell }

    function Kind(): Kind { if kind == "market" then Market else Limit }

    /** The price of a limit request, and nothing for a market one. */
    function Price(): int { if price.Some? then price.value else 0 }
  }

  predicate IsFiatRail(coin: string) { coin == "USD" }

  type Rows = map<string, Row>

  type Books = map<string, Book>

  type Pairs = map<string, Pair>

  datatype World = World(rows: Rows, accounts: Accounts, books: Books)

  // ----- placing an order: checks, reservation, matching

  /** The error that stops a request before anything is reserved. */
  function Rejection(w: World, pairs: Pairs, user: string, req: Request): Option<OrderError> {
    if req.side != "buy" && req.side != "sell" then Some(InvalidSide)
    else if req.kind != "market" && req.kind != "limit" then Some(InvalidType)
    else if req.kind == "market" && req.price.Some? then Some(PriceNotAllowed)
    else if req.kind == "limit" && (req.price.None? || req.price.value <= 0) then Some(PriceRequired)
    else if req.pair !in pairs then Some(PairNotFound)
    else
      var pair := pairs[req.pair];
      if !pair.active then Some(PairSuspended)
      else if IsFiatRail(pair.base) || IsFiatRail(pair.quote) then Some(FiatNotTradable)
      else if req.quantity < pair.minOrderSize then Some(BelowMinOrderSize)
      else FundsCheck(w.accounts, pair, user, req)
  }

  /** A market buy is priced only when it matches, so it is not checked. */
  function FundsCheck(accounts: Accounts, pair: Pair, user: string, req: Request): Option<OrderError> {
    var needed := pair.Cost(req.Side(), req.quantity, req.Price());
    if (req.Kind() == Limit || req.Side() == Sell) &&
       AvailableOf(accounts, Account(user, pair.SpentCoin(req.Side()))) < needed
    then Some(InsufficientFunds)
    else None
  }

  function NewRow(id: string, user: string, req: Request): Row {
    var locked :=
      if req.Kind() == Market then 0
      else if req.Side() == Buy then req.quantity * req.Price()
      else req.quantity;
    Row(id, user, req.pair, req.Side(), req.Kind(), req.Price(), req.quantity, 0, locked, Pending)
  }

  /** The wallets after a limit order's funds have been locked; a market order locks nothing. */
  function Reserved(accounts: Accounts, pair: Pair, r: Row): Result<Accounts, WalletError> {
    if r.kind == Market then Ok(accounts)
    else Lock(accounts, Account(r.user, pair.SpentCoin(r.side)), pair.Cost(r.side, r.quantity, r.price))
  }

  // ----- applying the result of a match

  function MakerLeg(pair: Pair, maker: Row, t: Trade): Leg {
    Leg(maker.user, pair.SpentCoin(maker.side), pair.Cost(maker.side, t.quantity, t.price),
        pair.ReceivedCoin(maker.side), pair.Cost(Opposite(maker.side), t.quantity, t.price), true)
  }

  function TakerLeg(pair: Pair, maker: Row, taker: Row, t: Trade): Leg {
    Leg(taker.user, pair.ReceivedCoin(maker.side), pair.Cost(Opposite(maker.side), t.quantity, t.price),
        pair.SpentCoin(maker.side), pair.Cost(maker.side, t.quantity, t.price), taker.kind == Limit)
  }

  datatype Settled = Settled(accounts: Accounts, error: Option<OrderError>)

  /** Each trade is settled on its own; the first refusal ends it, and what was settled before stays. */
  function SettleAll(accounts: Accounts, rows: Rows, pair: Pair, taker: Row, trades: seq<Trade>): Settled
    decreases trades
  {
    if trades == [] then Settled(accounts, None)
    else if trades[0].makerId !in rows then Settled(accounts, Some(OrderNotFound))
    else
      var maker := rows[trades[0].makerId];
      match Settle(accounts, MakerLeg(pair, maker, trades[0]), TakerLeg(pair, maker, taker, trades[0]))
      case Err(e) => Settled(accounts, Some(WalletRefused(e)))
      case Ok(a) => SettleAll(a, rows, pair, taker, trades[1..])
  }

  /** What an order gained in these trades, as their maker or their taker. */
  function Gain(trades: seq<Trade>, id: string): int {
    if trades == [] then 0
    else (if trades[0].makerId == id then trades[0].quantity else 0) +
         (if trades[0].takerId == id then trades[0].quantity else 0) + Gain(trades[1..], id)
  }

  predicate HasTraded(trades: seq<Trade>, id: string) {
    exists i :: 0 <= i < |trades| && (trades[i].makerId == id || trades[i].takerId == id)
  }

  function Gained(r: Row, gain: int, rested: bool): Row {
    var r' := r.(filled := r.filled + gain);
    r'.(status := DeriveStatus(r', rested))
  }

  /** Every maker that traded has its fill and status updated. */
  function MakersUpdated(rows: Rows, taker: string, trades: seq<Trade>): Rows {
    map id | id in rows ::
      if HasTraded(trades, id) && id != taker then Gained(rows[id], Gain(trades, id), true) else rows[id]
  }

  /** What a cancelled order still has reserved. */
  function Unreserved(accounts: Accounts, pair: Pair, r: Row): Accounts {
    if r.kind == Limit && r.lockedAmount > 0 && r.Remaining() > 0 then
      Unlock(accounts, Account(r.user, pair.SpentCoin(r.side)), pair.Cost(r.side, r.Remaining(), r.price))
    else accounts
  }

  datatype Ledger = Ledger(rows: Rows, accounts: Accounts, error: Option<OrderError>)

  function CancelOne(rows: Rows, accounts: Accounts, pair: Pair, id: string): Ledger {
    if id !in rows then Ledger(rows, accounts, Some(OrderNotFound))
    else Ledger(rows[id := rows[id].(status := Status.Cancelled)], Unreserved(accounts, pair, rows[id]), None)
  }

  /** The taker's own resting orders that were in its way. */
  function CancelMakers(rows: Rows, accounts: Accounts, pair: Pair, cancelled: seq<Ord>): Ledger
    decreases cancelled
  {
    if cancelled == [] then Ledger(rows, accounts, None)
    else
      var one := CancelOne(rows, accounts, pair, cancelled[0].id);
      if one.error.Some? then one else CancelMakers(one.rows, one.accounts, pair, cancelled[1..])
  }

  function ApplyResult(rows: Rows, accounts: Accounts, pair: Pair, taker: Row, p: Placed): Ledger {
    var settled := SettleAll(accounts, rows, pair, taker, p.trades);
    if settled.error.Some? then Ledger(rows, settled.accounts, settled.error)
    else
      var done := CancelMakers(MakersUpdated(rows, taker.id, p.trades), settled.accounts, pair, p.cancelled);
      if done.error.Some? then done
      else done.(rows := done.rows[taker.id := Gained(taker, Gain(p.trades, taker.id), p.rested)])
  }

  datatype Reply<T> = Reply(world: World, result: Result<T, OrderError>)

  function CreateOrder(w: World, pairs: Pairs, id: string, user: string, req: Request): Reply<Row> {
    var rejection := Rejection(w, pairs, user, req);
    if rejection.Some? then Reply(w, Err(rejection.value))
    else
      var pair, taker := pairs[req.pair], NewRow(id, user, req);
      match Reserved(w.accounts, pair, taker)
      case Err(e) => Reply(w, Err(WalletRefused(e)))
      case Ok(accounts) =>
        var p := Place(BookOf(w.books, req.pair), ToEngineOrder(taker));
        var done := ApplyResult(w.rows[id := taker], accounts, pair, taker, p);
        Reply(World(done.rows, done.accounts, w.books[req.pair := p.book]),
                if done.error.Some? then Err(done.error.value) else Ok(Gained(taker, Gain(p.trades, id), p.rested)))
  }

  // ----- cancelling

  /** What an order still has reserved goes back, if its pair is known. */
  function Returned(accounts: Accounts, pairs: Pairs, r: Row): Accounts {
    if r.pair in pairs then Unreserved(accounts, pairs[r.pair], r) else accounts
  }

  /** The funds of a cancelled order can only be returned by looking at its pair; the service crashes if it has none. */
  predicate NeedsPair(pairs: Pairs, r: Row) {
    r.kind == Limit && r.lockedAmount > 0 && r.pair !in pairs
  }

  function CancelOrder(w: World, pairs: Pairs, user: string, id: string): Reply<Row> {
    if id !in w.rows || w.rows[id].user != user then Reply(w, Err(OrderNotFound))
    else if !w.rows[id].Live() then Reply(w, Err(OrderNotCancellable))
    else
      var r := w.rows[id];
      var c := Cancel(BookOf(w.books, r.pair), id);
      var books := w.books[r.pair := c.book];
      if c.order.None? then Reply(w.(books := books), Err(OrderNotCancellable))
      else
        Reply(World(w.rows[id := r.(status := Status.Cancelled)], Returned(w.accounts, pairs, r), books),
              if NeedsPair(pairs, r) then Err(Crashed) else Ok(r.(status := Status.Cancelled)))
  }

  /** The live orders of the table, each once: what the clean-up goes through. */
  predicate LiveList(rows: Rows, ids: seq<string>) {
    && (forall i :: 0 <= i < |ids| ==> ids[i] in rows && rows[ids[i]].Live())
    && (forall i, j :: 0 <= i < j < |ids| ==> ids[i] != ids[j])
    && (forall id :: id in rows && rows[id].Live() ==> id in ids)
  }

  /** The clean-up at startup, for the live orders in some order of the table: each one's reserve is released. */
  function Cleanup(rows: Rows, accounts: Accounts, pairs: Pairs, ids: seq<string>): (Rows, Accounts)
    decreases ids
  {
    if ids == [] || ids[0] !in rows then (rows, accounts)
    else
      var r := rows[ids[0]];
      Cleanup(rows[r.id := r.(status := Status.Cancelled)], Returned(accounts, pairs, r), pairs, ids[1..])
  }
}
