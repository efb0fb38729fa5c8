/** Locked funds cover what the live orders may still have to pay. */
module OrderReserves {
  import opened MapSums
  import opened MatchingModel
  import opened OrderModel
  import opened OrderWallets
  import opened Wallets

  // ----- cut-off amounts: the parts never come to more than the whole

  lemma TimesMono(d: int, a: int, b: int)
    requires d > 0 && a <= b
    ensures d * a <= d * b
  {
  }

  /** The quotient is the largest whole number that fits. */
  lemma FloorLargest(x: int, d: int, q: int)
    requires d > 0 && d * q <= x
    ensures q <= x / d
  {
    var f := x / d;
    assert x < d * f + d;
    assert d * (f + 1) == d * f + d;
    if q > f {
      TimesMono(d, f + 1, q);
    }
  }

  lemma FloorSum(x: int, y: int, d: int)
    requires x >= 0 && y >= 0 && d > 0
    ensures 0 <= x / d && 0 <= y / d && x / d + y / d <= (x + y) / d
  {
    var p, q := x / d, y / d;
    assert d * p <= x && d * q <= y && d * (p + q) == d * p + d * q;
    FloorLargest(x + y, d, p + q);
    FloorLargest(x, d, 0);
    FloorLargest(y, d, 0);
  }

  lemma CutOffSum(u: int, v: int, f: int, d: int)
    requires u >= 0 && v >= 0 && f > 0 && d > 0
    ensures 0 <= u * f / d && 0 <= v * f / d && u * f / d + v * f / d <= (u + v) * f / d
  {
    assert u * f >= 0 && v * f >= 0;
    assert (u + v) * f == u * f + v * f;
    FloorSum(u * f, v * f, d);
  }

  /** A part of an order and the rest of it never come to more than the whole. */
  predicate Splits(pair: Pair, side: Side, lots: int, part: int, price: int) {
    0 <= part <= lots && 0 <= price ==>
      && 0 <= pair.Cost(side, part, price) && 0 <= pair.Cost(side, lots - part, price)
      && pair.Cost(side, part, price) + pair.Cost(side, lots - part, price) <= pair.Cost(side, lots, price)
  }

  /** A fill at a price no worse than a limit never comes to more than it would at the limit. */
  predicate Betters(pair: Pair, side: Side, lots: int, price: int, limit: int) {
    0 <= lots && 0 <= price && (side == Buy ==> price <= limit) ==>
      0 <= pair.Cost(side, lots, price) <= pair.Cost(side, lots, limit)
  }

  /** A conversion on which reserves can rest. */
  ghost predicate Sound(pair: Pair) {
    && (forall side, lots, part, price :: Splits(pair, side, lots, part, price))
    && (forall side, lots, price, limit :: Betters(pair, side, lots, price, limit))
  }

  /** The service's cut-off conversion is sound. */
  lemma CutOffSound(pair: Pair, priceDecimals: nat)
    requires pair.convert == CutOff(pair.base, pair.quote, priceDecimals)
    ensures Sound(pair)
  {
    forall side, lots, part, price ensures Splits(pair, side, lots, part, price) {
      if 0 <= part <= lots && 0 <= price {
        CutOffSplits(pair.base, pair.quote, priceDecimals, side, lots, part, price);
      }
    }
    forall side, lots, price, limit ensures Betters(pair, side, lots, price, limit) {
      if 0 <= lots && 0 <= price && (side == Buy ==> price <= limit) {
        CutOffBetter(pair.base, pair.quote, priceDecimals, side, lots, price, limit);
      }
    }
  }

  lemma CutOffSplits(base: string, quote: string, priceDecimals: nat, side: Side, lots: int, part: int, price: int)
    requires 0 <= part <= lots && 0 <= price
    ensures var c := CutOff(base, quote, priceDecimals);
      && 0 <= c(side, part, price) && 0 <= c(side, lots - part, price)
      && c(side, part, price) + c(side, lots - part, price) <= c(side, lots, price)
  {
    assert part * price >= 0 && (lots - part) * price >= 0;
    assert part * price + (lots - part) * price == lots * price;
    CutOffSum(part * price, (lots - part) * price, SmallestUnitFactor(quote), LOT_SCALE * Pow10(priceDecimals));
    CutOffSum(part, lots - part, SmallestUnitFactor(base), LOT_SCALE);
  }

  lemma CutOffBetter(base: string, quote: string, priceDecimals: nat, side: Side, lots: int, price: int, limit: int)
    requires 0 <= lots && 0 <= price && (side == Buy ==> price <= limit)
    ensures var c := CutOff(base, quote, priceDecimals); 0 <= c(side, lots, price) <= c(side, lots, limit)
  {
    CutOffSum(lots, 0, SmallestUnitFactor(base), LOT_SCALE);
    if side == Buy {
      assert 0 <= lots * price && 0 <= lots * (limit - price);
      assert lots * price + lots * (limit - price) == lots * limit;
      CutOffSum(lots * price, lots * (limit - price), SmallestUnitFactor(quote), LOT_SCALE * Pow10(priceDecimals));
    }
  }

  /** A part of an order at its own price, together with the rest, costs at most the whole. */
  lemma CostSplit(pair: Pair, side: Side, lots: int, part: int, price: int)
    requires Sound(pair) && 0 <= part <= lots && price >= 0
    ensures 0 <= pair.Cost(side, part, price) && 0 <= pair.Cost(side, lots - part, price)
    ensures pair.Cost(side, part, price) + pair.Cost(side, lots - part, price) <= pair.Cost(side, lots, price)
  {
    assert Splits(pair, side, lots, part, price);
  }

  /** Trading at a price no worse than an order's own costs no more than was reserved for it. */
  lemma CostBetter(pair: Pair, side: Side, lots: int, price: int, limit: int)
    requires Sound(pair) && lots >= 0 && 0 <= price && (side == Buy ==> price <= limit)
    ensures 0 <= pair.Cost(side, lots, price) <= pair.Cost(side, lots, limit)
  {
    assert Betters(pair, side, lots, price, limit);
  }

  lemma CostNothing(pair: Pair, side: Side, price: int)
    requires Sound(pair) && price >= 0
    ensures pair.Cost(side, 0, price) == 0
  {
    CostSplit(pair, side, 0, 0, price);
  }

  // ----- what is reserved

  function SourceOf(pairs: Pairs, r: Row): Account
    requires r.pair in pairs
  {
    Account(r.user, pairs[r.pair].SpentCoin(r.side))
  }

  /** What a live limit order may still have to pay: its remaining size at its own price, cut off. */
  function Reserve(pairs: Pairs, r: Row): int
    requires r.pair in pairs
  {
    if r.Live() && r.kind == Limit then pairs[r.pair].Cost(r.side, r.Remaining(), r.price) else 0
  }

  function Owes(pairs: Pairs, r: Row, a: Account): int {
    if r.pair in pairs && a == SourceOf(pairs, r) then Reserve(pairs, r) else 0
  }

  /** The reserves of all orders that draw on one wallet, across all pairs. */
  ghost function Owed(pairs: Pairs, rows: Rows, a: Account): int {
    Sum(map id | id in rows :: Owes(pairs, rows[id], a))
  }

  /** What a wallet has locked beyond what its orders may still have to pay. */
  ghost function Spare(pairs: Pairs, rows: Rows, accounts: Accounts, a: Account): int {
    LockedOf(accounts, a) - Owed(pairs, rows, a)
  }

  ghost predicate RowOk(pairs: Pairs, id: string, r: Row) {
    && r.id == id && r.pair in pairs && Sound(pairs[r.pair]) && 0 <= r.filled <= r.quantity
    && (r.kind == Limit ==> r.price > 0 && r.lockedAmount == if r.side == Buy then r.quantity * r.price else r.quantity)
  }

  ghost predicate AllSound(pairs: Pairs) {
    forall p :: p in pairs ==> Sound(pairs[p])
  }

  ghost predicate RowsOk(pairs: Pairs, rows: Rows) {
    AllSound(pairs) && forall id :: id in rows ==> RowOk(pairs, id, rows[id])
  }

  ghost predicate Covered(pairs: Pairs, rows: Rows, accounts: Accounts) {
    && Solvent(accounts) && RowsOk(pairs, rows)
    && (forall a :: Owed(pairs, rows, a) <= LockedOf(accounts, a))
    && (forall id :: id in rows && rows[id].Live() && rows[id].kind == Limit ==> SourceOf(pairs, rows[id]) in accounts)
  }

  lemma OwedUpdate(pairs: Pairs, rows: Rows, id: string, r: Row, a: Account)
    ensures Owed(pairs, rows[id := r], a) ==
            Owed(pairs, rows, a) - (if id in rows then Owes(pairs, rows[id], a) else 0) + Owes(pairs, r, a)
  {
    var m := map x | x in rows :: Owes(pairs, rows[x], a);
    SumUpdate(m, id, Owes(pairs, r, a));
    var rows' := rows[id := r];
    assert (map x | x in rows' :: Owes(pairs, rows'[x], a)) == m[id := Owes(pairs, r, a)];
  }

  lemma OwesNonNegative(pairs: Pairs, id: string, r: Row, a: Account)
    requires RowOk(pairs, id, r)
    ensures Owes(pairs, r, a) >= 0
  {
    if r.kind == Limit {
      CostSplit(pairs[r.pair], r.side, r.Remaining(), r.Remaining(), r.price);
    }
  }

  /** One order's reserve is locked in its wallet. */
  lemma ReserveLocked(pairs: Pairs, rows: Rows, accounts: Accounts, id: string)
    requires Covered(pairs, rows, accounts) && id in rows
    ensures Reserve(pairs, rows[id]) <= LockedOf(accounts, SourceOf(pairs, rows[id]))
  {
    var a := SourceOf(pairs, rows[id]);
    var m := map x | x in rows :: Owes(pairs, rows[x], a);
    forall x | x in m ensures m[x] >= 0 {
      OwesNonNegative(pairs, x, rows[x], a);
    }
    SumAtLeast(m, id);
  }

  /** An order may shrink as long as at least what it no longer owes leaves the locked part, and no more. */
  lemma Shrink(pairs: Pairs, rows: Rows, accounts: Accounts, id: string, r: Row, after: Accounts, less: int)
    requires
      && Covered(pairs, rows, accounts) && id in rows && RowOk(pairs, id, r)
      && SourceOf(pairs, r) == SourceOf(pairs, rows[id])
    requires Solvent(after) && accounts.Keys <= after.Keys
    requires r.Live() && r.kind == Limit ==> rows[id].Live() && rows[id].kind == Limit
    requires forall a :: LockedOf(after, a) == LockedOf(accounts, a) - if a == SourceOf(pairs, r) then less else 0
    requires less <= Reserve(pairs, rows[id]) - Reserve(pairs, r)
    ensures Covered(pairs, rows[id := r], after)
  {
    forall a ensures Owed(pairs, rows[id := r], a) <= LockedOf(after, a) {
      OwedUpdate(pairs, rows, id, r, a);
    }
  }

  /** A row that is filled further, or no longer live, owes no more than before. */
  predicate Lessened(r: Row, less: Row) {
    less == r.(filled := less.filled, status := less.status) && r.filled <= less.filled && (less.Live() ==> r.Live())
  }

  lemma LessOwed(pairs: Pairs, id: string, r: Row, less: Row, a: Account)
    requires RowOk(pairs, id, r) && RowOk(pairs, id, less) && Lessened(r, less)
    ensures Owes(pairs, less, a) <= Owes(pairs, r, a)
  {
    if r.kind == Limit {
      CostSplit(pairs[r.pair], r.side, r.Remaining(), less.Remaining(), r.price);
    }
  }

  /** What covers some rows covers any part of them, filled further or not. */
  lemma CoveredLess(pairs: Pairs, rows: Rows, less: Rows, accounts: Accounts)
    requires Covered(pairs, rows, accounts) && RowsOk(pairs, less) && less.Keys <= rows.Keys
    requires forall id :: id in less ==> Lessened(rows[id], less[id])
    ensures Covered(pairs, less, accounts)
  {
    hide Pair.Cost;
    hide RowOk;
    forall a ensures Owed(pairs, less, a) <= LockedOf(accounts, a) {
      forall id | id in rows ensures Owes(pairs, rows[id], a) >= 0 { OwesNonNegative(pairs, id, rows[id], a); }
      forall id | id in less ensures Owes(pairs, less[id], a) <= Owes(pairs, rows[id], a) {
        LessOwed(pairs, id, rows[id], less[id], a);
      }
      SumLess(map id | id in less :: Owes(pairs, less[id], a), map id | id in rows :: Owes(pairs, rows[id], a));
    }
  }
}
