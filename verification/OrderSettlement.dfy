/** Settling the trades of one match, with the fills of the orders followed trade by trade. */
module OrderSettlement {
  import opened MatchingModel
  import opened OrderModel
  import opened OrderReserves
  import opened OrderWallets
  import opened Wallets
  import opened Wrappers

  /** A row after one of its trades; the table itself is only brought up to date after settlement. */
  function Advance(rows: Rows, id: string, quantity: int): Rows {
    if id in rows then rows[id := rows[id].(filled := rows[id].filled + quantity)] else rows
  }

  /** The rows of both orders after a trade. */
  function TradedRows(rows: Rows, t: Trade): Rows {
    Advance(Advance(rows, t.makerId, t.quantity), t.takerId, t.quantity)
  }

  function AdvanceAll(rows: Rows, trades: seq<Trade>): Rows
    decreases trades
  {
    if trades == [] then rows
    else
      var t := trades[0];
      AdvanceAll(Advance(Advance(rows, t.makerId, t.quantity), t.takerId, t.quantity), trades[1..])
  }

  /** A trade its two orders can make: the maker rests at the price traded, and both want that much. */
  predicate Fits(rows: Rows, pair: string, taker: Row, t: Trade) {
    && t.makerId in rows && t.makerId != taker.id && t.takerId == taker.id && Wants(rows, pair, taker, t)
    && var m := rows[t.makerId];
    && m.pair == pair && m.user != taker.user && m.side == Opposite(taker.side)
    && m.kind == Limit && m.Live() && m.price == t.price && t.quantity <= m.Remaining()
  }

  predicate Wants(rows: Rows, pair: string, taker: Row, t: Trade) {
    && taker.id in rows
    && var k := rows[taker.id];
    && k == taker.(filled := k.filled) && k.pair == pair && k.status == Pending
    && 0 < t.quantity <= k.Remaining() && (k.kind == Limit && k.side == Buy ==> t.price <= k.price)
  }

  predicate FitAll(rows: Rows, pair: string, taker: Row, trades: seq<Trade>)
    decreases trades
  {
    trades != [] ==>
      Fits(rows, pair, taker, trades[0]) && FitAll(AdvanceAll(rows, trades[..1]), pair, taker, trades[1..])
  }

  /** Rows that differ in their fills only. */
  predicate SameButFills(rows: Rows, advanced: Rows) {
    rows.Keys == advanced.Keys && forall id :: id in rows ==> advanced[id] == rows[id].(filled := advanced[id].filled)
  }

  /** What a taker that had nothing locked has available after a trade; what it gets is of use only in the same coin. */
  function AvailableAfter(pair: Pair, side: Side, available: int, t: Trade): int {
    available - pair.Cost(side, t.quantity, t.price) +
    if pair.base == pair.quote then pair.Cost(Opposite(side), t.quantity, t.price) else 0
  }

  /** Whether such a taker can pay for these trades, one after the other. */
  predicate Payable(pair: Pair, side: Side, available: int, trades: seq<Trade>)
    decreases trades
  {
    trades != [] ==>
      && pair.Cost(side, trades[0].quantity, trades[0].price) <= available
      && Payable(pair, side, AvailableAfter(pair, side, available, trades[0]), trades[1..])
  }

  /** How many of these trades such a taker can pay for, one after the other, before one that it cannot pay for. */
  function PayableCount(pair: Pair, side: Side, available: int, trades: seq<Trade>): (k: nat)
    ensures k <= |trades|
    decreases trades
  {
    if trades == [] || pair.Cost(side, trades[0].quantity, trades[0].price) > available then 0
    else 1 + PayableCount(pair, side, AvailableAfter(pair, side, available, trades[0]), trades[1..])
  }

  /** What such a taker pays in these trades. */
  function TotalCost(pair: Pair, side: Side, trades: seq<Trade>): int {
    if trades == [] then 0
    else pair.Cost(side, trades[0].quantity, trades[0].price) + TotalCost(pair, side, trades[1..])
  }

  /** Having the total cost is enough, and if the pair has two coins it is also needed. */
  lemma {:induction false} PayableTotal(pair: Pair, side: Side, available: int, trades: seq<Trade>)
    requires
      && Sound(pair) && available >= 0
      && forall i :: 0 <= i < |trades| ==> trades[i].quantity >= 0 && trades[i].price >= 0
    ensures TotalCost(pair, side, trades) >= 0
    ensures TotalCost(pair, side, trades) <= available ==> Payable(pair, side, available, trades)
    ensures pair.base != pair.quote && Payable(pair, side, available, trades) ==>
      TotalCost(pair, side, trades) <= available
    decreases trades
  {
    if trades != [] {
      var t, after := trades[0], AvailableAfter(pair, side, available, trades[0]);
      CostBetter(pair, side, t.quantity, t.price, t.price);
      CostBetter(pair, Opposite(side), t.quantity, t.price, t.price);
      PayableTotal(pair, side, if after >= 0 then after else 0, trades[1..]);
      if after >= 0 && TotalCost(pair, side, trades) <= available {
        var least := available - pair.Cost(side, t.quantity, t.price);
        assert TotalCost(pair, side, trades[1..]) <= least <= after;
      }
    }
  }

  /** A leg that pays for a fill out of what its order had locked. */
  lemma LockedLeg(pairs: Pairs, rows: Rows, accounts: Accounts, id: string, quantity: int, price: int, leg: Leg)
    requires Covered(pairs, rows, accounts) && id in rows && rows[id].Live() && rows[id].kind == Limit
    requires 0 <= quantity <= rows[id].Remaining() && 0 <= price && (rows[id].side == Buy ==> price <= rows[id].price)
    requires leg.unlock && leg.Source() == SourceOf(pairs, rows[id]) && leg.received >= 0
    requires leg.spent == pairs[rows[id].pair].Cost(rows[id].side, quantity, price)
    ensures Funded(accounts, leg) && Process(accounts, leg).Ok?
    ensures Covered(pairs, Advance(rows, id, quantity), Process(accounts, leg).value)
  {
    hide Pair.Cost;
    hide Process;
    hide Owed;
    var r := rows[id];
    var pair := pairs[r.pair];
    ReserveLocked(pairs, rows, accounts, id);
    CostBetter(pair, r.side, quantity, price, r.price);
    CostSplit(pair, r.side, r.Remaining(), quantity, r.price);
    ProcessFunded(accounts, leg);
    var r' := r.(filled := r.filled + quantity);
    assert r'.Remaining() == r.Remaining() - quantity;
    Shrink(pairs, rows, accounts, id, r', Process(accounts, leg).value, leg.spent);
  }

  /** A leg of a market order, paid out of what is available. */
  lemma FreeLeg(pairs: Pairs, rows: Rows, accounts: Accounts, id: string, quantity: int, leg: Leg)
    requires
      && Covered(pairs, rows, accounts) && id in rows && rows[id].kind == Market && !leg.unlock && Funded(accounts, leg)
    requires 0 <= quantity <= rows[id].Remaining()
    ensures Process(accounts, leg).Ok? && Covered(pairs, Advance(rows, id, quantity), Process(accounts, leg).value)
  {
    hide Pair.Cost;
    hide Process;
    hide Owed;
    ProcessFunded(accounts, leg);
    var r := rows[id];
    Shrink(pairs, rows, accounts, id, r.(filled := r.filled + quantity), Process(accounts, leg).value, 0);
  }

  /** The maker's leg always goes through, and leaves the taker's wallets alone. */
  lemma MakerPays(pairs: Pairs, rows: Rows, accounts: Accounts, pair: string, taker: Row, t: Trade)
    requires Covered(pairs, rows, accounts) && Fits(rows, pair, taker, t)
    ensures var leg := MakerLeg(pairs[pair], rows[t.makerId], t);
      && Funded(accounts, leg) && Process(accounts, leg).Ok?
      && Covered(pairs, Advance(rows, t.makerId, t.quantity), Process(accounts, leg).value)
      && (forall c :: AvailableOf(Process(accounts, leg).value, Account(taker.user, c)) ==
           AvailableOf(accounts, Account(taker.user, c)))
      && (forall c :: Account(taker.user, c) in Process(accounts, leg).value <==> Account(taker.user, c) in accounts)
  {
    var m := rows[t.makerId];
    var leg := MakerLeg(pairs[pair], m, t);
    assert RowOk(pairs, t.makerId, m);
    CostBetter(pairs[pair], Opposite(m.side), t.quantity, t.price, t.price);
    LockedLeg(pairs, rows, accounts, t.makerId, t.quantity, t.price, leg);
    ProcessFunded(accounts, leg);
  }

  /** The taker's leg goes through if its order had locked the funds, or if they are available. */
  lemma TakerPays(pairs: Pairs, rows: Rows, accounts: Accounts, pair: string, taker: Row, maker: Row, t: Trade)
    requires
      && Covered(pairs, rows, accounts) && Wants(rows, pair, taker, t) && t.price > 0
      && maker.side == Opposite(taker.side)
    requires taker.kind == Market ==>
      SourceOf(pairs, taker) in accounts &&
        pairs[pair].Cost(taker.side, t.quantity, t.price) <= AvailableOf(accounts, SourceOf(pairs, taker))
    ensures var leg := TakerLeg(pairs[pair], maker, taker, t);
      && Funded(accounts, leg) && Process(accounts, leg).Ok?
      && Covered(pairs, Advance(rows, taker.id, t.quantity), Process(accounts, leg).value)
      && (taker.kind == Market ==>
            AvailableOf(Process(accounts, leg).value, leg.Source()) ==
            AvailableAfter(pairs[pair], taker.side, AvailableOf(accounts, leg.Source()), t))
      && accounts.Keys <= Process(accounts, leg).value.Keys
  {
    var k := rows[taker.id];
    var leg := TakerLeg(pairs[pair], maker, taker, t);
    assert RowOk(pairs, taker.id, k);
    CostBetter(pairs[pair], maker.side, t.quantity, t.price, t.price);
    CostBetter(pairs[pair], taker.side, t.quantity, t.price, t.price);
    if taker.kind == Limit {
      LockedLeg(pairs, rows, accounts, taker.id, t.quantity, t.price, leg);
    } else {
      FreeLeg(pairs, rows, accounts, taker.id, t.quantity, leg);
    }
    ProcessFunded(accounts, leg);
  }

  // ----- all trades of a match

  /** The funds for these trades are there: locked before by a limit taker, available to a market one. */
  predicate Paid(pairs: Pairs, accounts: Accounts, pair: string, taker: Row, trades: seq<Trade>)
    requires pair in pairs && taker.pair == pair
  {
    taker.kind == Limit || trades == [] ||
    (SourceOf(pairs, taker) in accounts &&
     Payable(pairs[pair], taker.side, AvailableOf(accounts, SourceOf(pairs, taker)), trades))
  }

  /** What fits trade by trade has positive sizes and prices, and different makers than the taker. */
  lemma {:induction false} FitEach(pairs: Pairs, rows: Rows, pair: string, taker: Row, trades: seq<Trade>)
    requires RowsOk(pairs, rows) && FitAll(rows, pair, taker, trades)
    ensures forall i :: 0 <= i < |trades| ==>
      && trades[i].quantity > 0 && trades[i].price > 0 && trades[i].makerId in rows && trades[i].makerId != taker.id
      && trades[i].takerId == taker.id
      && rows[trades[i].makerId].pair == pair && rows[trades[i].makerId].side == Opposite(taker.side)
    decreases trades
  {
    if trades != [] {
      var rows' := AdvanceAll(rows, trades[..1]);
      AdvanceOne(rows, trades);
      assert RowOk(pairs, trades[0].makerId, rows[trades[0].makerId]);
      forall id | id in rows' ensures RowOk(pairs, id, rows'[id]) { assert RowOk(pairs, id, rows[id]); }
      FitEach(pairs, rows', pair, taker, trades[1..]);
    }
  }

  lemma AdvanceOne(rows: Rows, trades: seq<Trade>)
    requires trades != []
    ensures var t := trades[0];
      AdvanceAll(rows, trades[..1]) == Advance(Advance(rows, t.makerId, t.quantity), t.takerId, t.quantity)
  {
    assert trades[..1][1..] == [];
  }

  /** One trade whose taker can pay is settled, with nothing clamped, and the reserves stay covered. */
  lemma SettleOne(pairs: Pairs, rows: Rows, accounts: Accounts, pair: string, taker: Row, t: Trade)
    requires Covered(pairs, rows, accounts) && Fits(rows, pair, taker, t)
    requires taker.kind == Market ==>
      SourceOf(pairs, taker) in accounts &&
        pairs[pair].Cost(taker.side, t.quantity, t.price) <= AvailableOf(accounts, SourceOf(pairs, taker))
    ensures var m, k := MakerLeg(pairs[pair], rows[t.makerId], t), TakerLeg(pairs[pair], rows[t.makerId], taker, t);
      && Funded(accounts, m) && Funded(Process(accounts, m).value, k) && Settle(accounts, m, k).Ok?
      && Covered(pairs, Advance(Advance(rows, t.makerId, t.quantity), t.takerId, t.quantity),
           Settle(accounts, m, k).value)
      && (taker.kind == Market ==> k.Source() in Settle(accounts, m, k).value)
      && (taker.kind == Market ==>
            AvailableOf(Settle(accounts, m, k).value, k.Source()) ==
            AvailableAfter(pairs[pair], taker.side, AvailableOf(accounts, k.Source()), t))
  {
    hide Process;
    hide Pair.Cost;
    MakerPays(pairs, rows, accounts, pair, taker, t);
    assert RowOk(pairs, t.makerId, rows[t.makerId]);
    var maker := rows[t.makerId];
    var a := Process(accounts, MakerLeg(pairs[pair], maker, t)).value;
    TakerPays(pairs, Advance(rows, t.makerId, t.quantity), a, pair, taker, maker, t);
  }

  /** No leg of the settlement takes more than was locked or available for it, so nothing is clamped to zero. */
  predicate NothingClamped(accounts: Accounts, rows: Rows, pair: Pair, taker: Row, trades: seq<Trade>)
    decreases trades
  {
    trades != [] && trades[0].makerId in rows ==>
      var maker := rows[trades[0].makerId];
      var m, k := MakerLeg(pair, maker, trades[0]), TakerLeg(pair, maker, taker, trades[0]);
      && Funded(accounts, m) && Process(accounts, m).Ok? && Funded(Process(accounts, m).value, k)
      && (Settle(accounts, m, k).Ok? ==> NothingClamped(Settle(accounts, m, k).value, rows, pair, taker, trades[1..]))
  }

  /** After the first trade the rest still fits, and the rows still differ in their fills only. */
  lemma FitRest(table: Rows, rows: Rows, pair: string, taker: Row, trades: seq<Trade>)
    requires SameButFills(table, rows) && trades != [] && FitAll(rows, pair, taker, trades)
    ensures var t := trades[0];
      var rows' := Advance(Advance(rows, t.makerId, t.quantity), t.takerId, t.quantity);
      && SameButFills(table, rows') && FitAll(rows', pair, taker, trades[1..])
      && AdvanceAll(rows, trades) == AdvanceAll(rows', trades[1..])
  {
    AdvanceOne(rows, trades);
  }

  /** If the taker can pay, every trade is settled, nothing is clamped, and the reserves stay covered. */
  lemma {:induction false} SettleAllPaid(pairs: Pairs, table: Rows, rows: Rows, accounts: Accounts, pair: string,
          taker: Row, trades: seq<Trade>)
    requires SameButFills(table, rows) && Covered(pairs, rows, accounts) && pair in pairs && taker.pair == pair
    requires FitAll(rows, pair, taker, trades) && Paid(pairs, accounts, pair, taker, trades)
    ensures var s := SettleAll(accounts, table, pairs[pair], taker, trades);
      s.error == None && Covered(pairs, AdvanceAll(rows, trades), s.accounts)
    ensures NothingClamped(accounts, table, pairs[pair], taker, trades)
    decreases trades
  {
    if trades != [] {
      hide Covered;
      hide Pair.Cost;
      hide Process;
      hide Settle;
      hide FitAll;
      hide SameButFills;
      hide Funded;
      FitFirst(table, rows, pair, taker, trades);
      FitRest(table, rows, pair, taker, trades);
      SettleOne(pairs, rows, accounts, pair, taker, trades[0]);
      var t := trades[0];
      var m, k := MakerLeg(pairs[pair], table[t.makerId], t), TakerLeg(pairs[pair], table[t.makerId], taker, t);
      var rows' := Advance(Advance(rows, t.makerId, t.quantity), t.takerId, t.quantity);
      SettleAllPaid(pairs, table, rows', Settle(accounts, m, k).value, pair, taker, trades[1..]);
    }
  }

  lemma FitFirst(table: Rows, rows: Rows, pair: string, taker: Row, trades: seq<Trade>)
    requires SameButFills(table, rows) && trades != [] && FitAll(rows, pair, taker, trades)
    ensures Fits(rows, pair, taker, trades[0]) && trades[0].makerId in table
    ensures forall p: Pair ::
      MakerLeg(p, table[trades[0].makerId], trades[0]) == MakerLeg(p, rows[trades[0].makerId], trades[0])
    ensures forall p: Pair ::
      TakerLeg(p, table[trades[0].makerId], taker, trades[0]) == TakerLeg(p, rows[trades[0].makerId], taker, trades[0])
  {
  }

  /** If a market taker cannot pay, some trade is refused, and the settlement ends there. */
  lemma {:induction false} SettleAllUnpaid(pairs: Pairs, table: Rows, rows: Rows, accounts: Accounts, pair: string,
          taker: Row, trades: seq<Trade>)
    requires SameButFills(table, rows) && Covered(pairs, rows, accounts) && pair in pairs && taker.pair == pair
    requires FitAll(rows, pair, taker, trades) && !Paid(pairs, accounts, pair, taker, trades)
    ensures SettleAll(accounts, table, pairs[pair], taker, trades).error ==
            Some(WalletRefused(if SourceOf(pairs, taker) in accounts then InsufficientBalance else WalletNotFound))
    decreases trades
  {
    hide Covered;
    hide Pair.Cost;
    hide FitAll;
    hide SameButFills;
    hide Funded;
    FitFirst(table, rows, pair, taker, trades);
    FitRest(table, rows, pair, taker, trades);
    MakerPays(pairs, rows, accounts, pair, taker, trades[0]);
    var t := trades[0];
    var m, k := MakerLeg(pairs[pair], table[t.makerId], t), TakerLeg(pairs[pair], table[t.makerId], taker, t);
    var rows' := Advance(Advance(rows, t.makerId, t.quantity), t.takerId, t.quantity);
    if SourceOf(pairs, taker) in accounts &&
      pairs[pair].Cost(taker.side, t.quantity, t.price) <= AvailableOf(accounts, k.Source()) {
      SettleOne(pairs, rows, accounts, pair, taker, t);
      hide Process;
      var a := Settle(accounts, m, k).value;
      assert k.Source() == SourceOf(pairs, taker);
      assert !Payable(pairs[pair], taker.side, AvailableOf(a, k.Source()), trades[1..]);
      SettleAllUnpaid(pairs, table, rows', a, pair, taker, trades[1..]);
    }
  }

  // ----- as many trades as can be paid

  /** How many trades are settled before the first refusal. */
  function SettledCount(accounts: Accounts, rows: Rows, pair: Pair, taker: Row, trades: seq<Trade>): (k: nat)
    ensures k <= |trades|
    decreases trades
  {
    if trades == [] || trades[0].makerId !in rows then 0
    else
      var maker := rows[trades[0].makerId];
      match Settle(accounts, MakerLeg(pair, maker, trades[0]), TakerLeg(pair, maker, taker, trades[0]))
      case Err(_) => 0
      case Ok(a) => 1 + SettledCount(a, rows, pair, taker, trades[1..])
  }

  /** What the maker of a trade pays, if it pays out of this wallet. */
  function MakerPaid(pair: Pair, rows: Rows, t: Trade, a: Account): int {
    if t.makerId in rows && MakerLeg(pair, rows[t.makerId], t).Source() == a
    then pair.Cost(rows[t.makerId].side, t.quantity, t.price)
    else 0
  }

  function MakersPaid(pair: Pair, rows: Rows, trades: seq<Trade>, a: Account): int {
    if trades == [] then 0 else MakerPaid(pair, rows, trades[0], a) + MakersPaid(pair, rows, trades[1..], a)
  }

  /** A settled trade of a market taker takes off the locked funds what its maker pays. */
  lemma SettleOneLocked(pairs: Pairs, rows: Rows, accounts: Accounts, pair: string, taker: Row, t: Trade)
    requires Covered(pairs, rows, accounts) && Fits(rows, pair, taker, t)
    requires taker.kind == Market ==>
      && SourceOf(pairs, taker) in accounts
      && pairs[pair].Cost(taker.side, t.quantity, t.price) <= AvailableOf(accounts, SourceOf(pairs, taker))
    ensures var m, k := MakerLeg(pairs[pair], rows[t.makerId], t), TakerLeg(pairs[pair], rows[t.makerId], taker, t);
      && Settle(accounts, m, k).Ok? && accounts.Keys <= Settle(accounts, m, k).value.Keys
      && (forall a :: taker.kind == Market ==>
            LockedOf(Settle(accounts, m, k).value, a) == LockedOf(accounts, a) - MakerPaid(pairs[pair], rows, t, a))
  {
    hide Process;
    hide Pair.Cost;
    hide Funded;
    SettleOne(pairs, rows, accounts, pair, taker, t);
    MakerPays(pairs, rows, accounts, pair, taker, t);
    var m, k := MakerLeg(pairs[pair], rows[t.makerId], t), TakerLeg(pairs[pair], rows[t.makerId], taker, t);
    ProcessFunded(accounts, m);
    ProcessFunded(Process(accounts, m).value, k);
  }

  lemma PrefixAdvances(rows: Rows, trades: seq<Trade>, k: nat)
    requires 0 < k <= |trades|
    ensures var t := trades[0];
      AdvanceAll(rows, trades[..k]) ==
      AdvanceAll(Advance(Advance(rows, t.makerId, t.quantity), t.takerId, t.quantity), trades[1..][..k - 1])
    ensures forall pair: Pair, table, a ::
      MakersPaid(pair, table, trades[..k], a) ==
      MakerPaid(pair, table, trades[0], a) + MakersPaid(pair, table, trades[1..][..k - 1], a)
  {
    assert trades[..k][1..] == trades[1..][..k - 1] && trades[..k][0] == trades[0];
  }

  /** What has been settled when the settlement ends is covered; only a market taker can end it early. */
  lemma {:induction false} SettlePrefix(pairs: Pairs, table: Rows, rows: Rows, accounts: Accounts,
                                        pair: string, taker: Row, trades: seq<Trade>)
    requires SameButFills(table, rows) && Covered(pairs, rows, accounts) && pair in pairs && taker.pair == pair
    requires FitAll(rows, pair, taker, trades)
    ensures var s, k := SettleAll(accounts, table, pairs[pair], taker, trades),
                        SettledCount(accounts, table, pairs[pair], taker, trades);
      && Covered(pairs, AdvanceAll(rows, trades[..k]), s.accounts) && accounts.Keys <= s.accounts.Keys
      && (s.error == None <==> k == |trades|) && (taker.kind == Limit ==> k == |trades|)
      && (forall a :: taker.kind == Market ==>
            LockedOf(s.accounts, a) == LockedOf(accounts, a) - MakersPaid(pairs[pair], table, trades[..k], a))
    decreases trades
  {
    hide Covered;
    hide Pair.Cost;
    hide FitAll;
    hide SameButFills;
    hide Funded;
    hide AdvanceAll;
    hide MakersPaid;
    if trades == [] {
      NothingAdvanced(rows, trades);
    } else {
      FitFirst(table, rows, pair, taker, trades);
      FitRest(table, rows, pair, taker, trades);
      MakerPays(pairs, rows, accounts, pair, taker, trades[0]);
      var t := trades[0];
      var m, k := MakerLeg(pairs[pair], table[t.makerId], t), TakerLeg(pairs[pair], table[t.makerId], taker, t);
      var rows' := Advance(Advance(rows, t.makerId, t.quantity), t.takerId, t.quantity);
      if taker.kind == Limit || (k.Source() in accounts && k.spent <= AvailableOf(accounts, k.Source())) {
        assert k.Source() == SourceOf(pairs, taker);
        SettleOne(pairs, rows, accounts, pair, taker, t);
        SettleOneLocked(pairs, rows, accounts, pair, taker, t);
        hide Process;
        SettlePrefix(pairs, table, rows', Settle(accounts, m, k).value, pair, taker, trades[1..]);
        PrefixAdvances(rows, trades, SettledCount(accounts, table, pairs[pair], taker, trades));
      } else {
        NothingAdvanced(rows, trades);
      }
    }
  }

  /** One trade of a market taker is settled if and only if the taker can pay for it. */
  lemma SettlesIfPayable(pairs: Pairs, rows: Rows, accounts: Accounts, pair: string, taker: Row, t: Trade)
    requires Covered(pairs, rows, accounts) && Fits(rows, pair, taker, t) && taker.kind == Market
    requires pair in pairs && taker.pair == pair
    ensures var m, k := MakerLeg(pairs[pair], rows[t.makerId], t), TakerLeg(pairs[pair], rows[t.makerId], taker, t);
      && (Settle(accounts, m, k).Ok? <==>
          SourceOf(pairs, taker) in accounts &&
          pairs[pair].Cost(taker.side, t.quantity, t.price) <= AvailableOf(accounts, SourceOf(pairs, taker)))
      && (Settle(accounts, m, k).Ok? ==>
          && SourceOf(pairs, taker) in Settle(accounts, m, k).value
          && AvailableOf(Settle(accounts, m, k).value, SourceOf(pairs, taker)) ==
             AvailableAfter(pairs[pair], taker.side, AvailableOf(accounts, SourceOf(pairs, taker)), t)
          && Covered(pairs, Advance(Advance(rows, t.makerId, t.quantity), t.takerId, t.quantity),
                     Settle(accounts, m, k).value))
  {
    hide Covered;
    hide Pair.Cost;
    hide Funded;
    MakerPays(pairs, rows, accounts, pair, taker, t);
    var k := TakerLeg(pairs[pair], rows[t.makerId], taker, t);
    assert k.Source() == SourceOf(pairs, taker);
    if k.Source() in accounts && k.spent <= AvailableOf(accounts, k.Source()) {
      SettleOne(pairs, rows, accounts, pair, taker, t);
    }
  }

  lemma CountsUnfold(accounts: Accounts, rows: Rows, pair: Pair, taker: Row, trades: seq<Trade>, available: int)
    requires trades != [] && trades[0].makerId in rows
    ensures var t := trades[0];
      var settled := Settle(accounts, MakerLeg(pair, rows[t.makerId], t), TakerLeg(pair, rows[t.makerId], taker, t));
      && SettledCount(accounts, rows, pair, taker, trades) ==
         (if settled.Err? then 0 else 1 + SettledCount(settled.value, rows, pair, taker, trades[1..]))
      && PayableCount(pair, taker.side, available, trades) ==
         (if pair.Cost(taker.side, t.quantity, t.price) > available then 0
          else 1 + PayableCount(pair, taker.side, AvailableAfter(pair, taker.side, available, t), trades[1..]))
  {
    hide Settle;
    hide Pair.Cost;
    hide AvailableAfter;
    hide MakerLeg;
    hide TakerLeg;
  }

  /** The same for the first of some trades, with the makers' rows as they are in the table. */
  lemma FirstSettles(pairs: Pairs, table: Rows, rows: Rows, accounts: Accounts, pair: string, taker: Row,
                     trades: seq<Trade>)
    requires SameButFills(table, rows) && Covered(pairs, rows, accounts) && pair in pairs && taker.pair == pair
    requires FitAll(rows, pair, taker, trades) && taker.kind == Market && trades != []
    ensures trades[0].makerId in table
    ensures var t := trades[0];
      var maker, rows' := table[t.makerId], TradedRows(rows, t);
      var settled := Settle(accounts, MakerLeg(pairs[pair], maker, t), TakerLeg(pairs[pair], maker, taker, t));
      && (settled.Ok? <==>
          SourceOf(pairs, taker) in accounts &&
          pairs[pair].Cost(taker.side, t.quantity, t.price) <= AvailableOf(accounts, SourceOf(pairs, taker)))
      && (settled.Ok? ==>
          && SourceOf(pairs, taker) in settled.value
          && AvailableOf(settled.value, SourceOf(pairs, taker)) ==
             AvailableAfter(pairs[pair], taker.side, AvailableOf(accounts, SourceOf(pairs, taker)), t)
          && Covered(pairs, rows', settled.value) && SameButFills(table, rows')
          && FitAll(rows', pair, taker, trades[1..]))
  {
    hide Covered;
    hide Pair.Cost;
    hide FitAll;
    hide Fits;
    hide SameButFills;
    hide Settle;
    hide MakerLeg;
    hide TakerLeg;
    hide AvailableAfter;
    hide AvailableOf;
    hide Advance;
    hide AdvanceAll;
    FitFirst(table, rows, pair, taker, trades);
    FitRest(table, rows, pair, taker, trades);
    SettlesIfPayable(pairs, rows, accounts, pair, taker, trades[0]);
  }

  /** What is settled for a market taker is what it can pay for, out of a wallet that it has. */
  lemma {:induction false} SettledExactly(pairs: Pairs, table: Rows, rows: Rows, accounts: Accounts, pair: string,
          taker: Row, trades: seq<Trade>)
    requires SameButFills(table, rows) && Covered(pairs, rows, accounts) && pair in pairs && taker.pair == pair
    requires FitAll(rows, pair, taker, trades) && taker.kind == Market
    ensures SettledCount(accounts, table, pairs[pair], taker, trades) ==
            if SourceOf(pairs, taker) in accounts
            then PayableCount(pairs[pair], taker.side, AvailableOf(accounts, SourceOf(pairs, taker)), trades)
            else 0
    decreases trades
  {
    if trades != [] {
      hide Covered;
      hide Pair.Cost;
      hide FitAll;
      hide SameButFills;
      hide Settle;
      hide MakerLeg;
      hide TakerLeg;
      hide AvailableAfter;
      hide AvailableOf;
      hide SettledCount;
      hide PayableCount;
      hide TradedRows;
      FirstSettles(pairs, table, rows, accounts, pair, taker, trades);
      CountsUnfold(accounts, table, pairs[pair], taker, trades, AvailableOf(accounts, SourceOf(pairs, taker)));
      var t := trades[0];
      var m, k := MakerLeg(pairs[pair], table[t.makerId], t), TakerLeg(pairs[pair], table[t.makerId], taker, t);
      if Settle(accounts, m, k).Ok? {
        SettledExactly(pairs, table, TradedRows(rows, t), Settle(accounts, m, k).value, pair, taker, trades[1..]);
      }
    }
  }

  /** What makers pay is read off their rows, and off no others. */
  lemma {:induction false} MakersPaidSame(pair: Pair, rows: Rows, id: string, r: Row, trades: seq<Trade>, a: Account)
    requires forall i :: 0 <= i < |trades| ==> trades[i].makerId != id
    ensures MakersPaid(pair, rows[id := r], trades, a) == MakersPaid(pair, rows, trades, a)
    decreases trades
  {
    if trades != [] {
      MakersPaidSame(pair, rows, id, r, trades[1..], a);
    }
  }

  lemma NothingAdvanced(rows: Rows, trades: seq<Trade>)
    ensures AdvanceAll(rows, trades[..0]) == rows
    ensures forall pair: Pair, table, a :: MakersPaid(pair, table, trades[..0], a) == 0
  {
    assert trades[..0] == [];
  }
}
