/** What every run of the order service keeps: covered reserves, and a table that agrees with the books. */
module OrderRuns {
  import opened MatchingModel
  import opened MatchingRuns
  import opened OrderModel
  import opened OrderReserves
  import opened OrderSettlement
  import opened OrderSimulation
  import opened OrderWallets
  import opened Wallets
  import opened Wrappers

  // ----- reserving

  /** Locking a new order's funds covers its reserve. */
  lemma ReservedCovers(pairs: Pairs, rows: Rows, accounts: Accounts, r: Row)
    requires
      && Covered(pairs, rows, accounts) && r.id !in rows && RowOk(pairs, r.id, r) && r.filled == 0
      && r.status == Pending
    requires Reserved(accounts, pairs[r.pair], r).Ok?
    ensures Covered(pairs, rows[r.id := r], Reserved(accounts, pairs[r.pair], r).value)
    ensures forall a ::
      Spare(pairs, rows[r.id := r], Reserved(accounts, pairs[r.pair], r).value, a) == Spare(pairs, rows, accounts, a)
  {
    hide Pair.Cost;
    hide Owed;
    var after, rows' := Reserved(accounts, pairs[r.pair], r).value, rows[r.id := r];
    if r.kind == Limit {
      LimitReserve(pairs, r);
      OwesNonNegative(pairs, r.id, r, SourceOf(pairs, r));
    }
    forall a
      ensures
        && Spare(pairs, rows', after, a) == Spare(pairs, rows, accounts, a)
        && Owed(pairs, rows', a) <= LockedOf(after, a)
    {
      OwedUpdate(pairs, rows, r.id, r, a);
    }
  }

  lemma LimitReserve(pairs: Pairs, r: Row)
    requires RowOk(pairs, r.id, r) && r.kind == Limit && r.filled == 0 && r.status == Pending
    ensures Reserve(pairs, r) == pairs[r.pair].Cost(r.side, r.quantity, r.price)
  {
  }

  // ----- releasing

  /** Releasing a live order's reserve takes exactly that much off the locked funds. */
  lemma ReleaseKeeps(pairs: Pairs, rows: Rows, accounts: Accounts, id: string)
    requires Covered(pairs, rows, accounts) && id in rows
    ensures var after := if rows[id].Live() then Unreserved(accounts, pairs[rows[id].pair], rows[id]) else accounts;
      && Covered(pairs, rows[id := rows[id].(status := Status.Cancelled)], after)
      && after.Keys == accounts.Keys
      && (forall a :: LockedOf(after, a) == LockedOf(accounts, a) - Owes(pairs, rows[id], a))
      && (forall a :: Spare(pairs, rows[id := rows[id].(status := Status.Cancelled)], after, a) ==
                      Spare(pairs, rows, accounts, a))
  {
    hide Pair.Cost;
    hide Owed;
    var r := rows[id];
    assert RowOk(pairs, id, r);
    var after := if r.Live() then Unreserved(accounts, pairs[r.pair], r) else accounts;
    ReserveLocked(pairs, rows, accounts, id);
    OwesNonNegative(pairs, id, r, SourceOf(pairs, r));
    if r.kind == Limit { CostNothing(pairs[r.pair], r.side, r.price); }
    UnreservedExact(pairs, accounts, r);
    Shrink(pairs, rows, accounts, id, r.(status := Status.Cancelled), after, Reserve(pairs, r));
    forall a ensures Owes(pairs, r.(status := Status.Cancelled), a) == 0 {}
    forall a
      ensures Spare(pairs, rows[id := r.(status := Status.Cancelled)], after, a) == Spare(pairs, rows, accounts, a)
    {
      OwedUpdate(pairs, rows, id, r.(status := Status.Cancelled), a);
    }
  }

  /** An unlock of no more than what is locked is not clamped. */
  lemma UnreservedExact(pairs: Pairs, accounts: Accounts, r: Row)
    requires
      && Solvent(accounts) && RowOk(pairs, r.id, r) && 0 <= Reserve(pairs, r) <= LockedOf(accounts, SourceOf(pairs, r))
    requires r.kind == Limit ==> pairs[r.pair].Cost(r.side, 0, r.price) == 0
    requires r.Live() && r.kind == Limit ==> SourceOf(pairs, r) in accounts
    ensures var after := if r.Live() then Unreserved(accounts, pairs[r.pair], r) else accounts;
      && Solvent(after) && after.Keys == accounts.Keys
      && (forall a :: LockedOf(after, a) == LockedOf(accounts, a) - if a == SourceOf(pairs, r) then Reserve(pairs, r)
           else 0)
  {
    hide Pair.Cost;
    if r.Live() && r.kind == Limit && r.Remaining() > 0 {
      assert r.quantity * r.price > 0;
    }
  }

  // ----- the table after a match

  /** Gains are what the trades advanced. */
  lemma {:induction false} AdvanceGain(pairs: Pairs, rows: Rows, pair: string, taker: Row, trades: seq<Trade>,
          id: string)
    requires RowsOk(pairs, rows) && FitAll(rows, pair, taker, trades) && id in rows
    ensures AdvanceAll(rows, trades).Keys == rows.Keys && RowsOk(pairs, AdvanceAll(rows, trades))
    ensures AdvanceAll(rows, trades)[id] == rows[id].(filled := rows[id].filled + Gain(trades, id))
    ensures Gain(trades, id) >= 0 && (HasTraded(trades, id) <==> Gain(trades, id) > 0)
    ensures HasTraded(trades, id) && id != taker.id ==> rows[id].Live() && rows[id].kind == Limit
    decreases trades
  {
    if trades != [] {
      var t := trades[0];
      var rows' := TradedRows(rows, t);
      hide RowsOk;
      hide FitAll;
      hide Fits;
      hide TradedRows;
      FitRest(rows, rows, pair, taker, trades);
      TradedRowsOk(pairs, rows, pair, taker, trades, id);
      AdvanceGain(pairs, rows', pair, taker, trades[1..], id);
      TradedCons(trades, id);
    }
  }

  /** The first trade adds its size to both of its orders. */
  lemma TradedRowsOk(pairs: Pairs, rows: Rows, pair: string, taker: Row, trades: seq<Trade>, id: string)
    requires RowsOk(pairs, rows) && trades != [] && FitAll(rows, pair, taker, trades) && id in rows
    ensures var t := trades[0];
      var rows' := TradedRows(rows, t);
      && RowsOk(pairs, rows') && rows'.Keys == rows.Keys && t.quantity > 0
      && t.takerId == taker.id && (t.makerId == id ==> rows[id].Live() && rows[id].kind == Limit)
      && rows' == Advance(Advance(rows, t.makerId, t.quantity), t.takerId, t.quantity)
      && rows'[id] == rows[id].(filled := rows[id].filled +
           (if t.makerId == id then t.quantity else 0) + (if t.takerId == id then t.quantity else 0))
  {
    var t := trades[0];
    var rows' := TradedRows(rows, t);
    assert Fits(rows, pair, taker, t);
    forall x | x in rows' ensures RowOk(pairs, x, rows'[x]) { assert RowOk(pairs, x, rows[x]); }
  }

  lemma TradedCons(trades: seq<Trade>, id: string)
    requires trades != []
    ensures HasTraded(trades, id) <==> trades[0].makerId == id || trades[0].takerId == id || HasTraded(trades[1..], id)
  {
    if HasTraded(trades[1..], id) {
      var i :| 0 <= i < |trades[1..]| && (trades[1..][i].makerId == id || trades[1..][i].takerId == id);
      assert trades[i + 1] == trades[1..][i];
    }
    if HasTraded(trades, id) && trades[0].makerId != id && trades[0].takerId != id {
      var i :| 0 <= i < |trades| && (trades[i].makerId == id || trades[i].takerId == id);
      assert trades[1..][i - 1] == trades[i];
    }
  }

  /** The table with every fill and status of the match written back, the taker's among them. */
  ghost function WrittenBack(rows: Rows, taker: Row, p: Placed): Rows
    requires taker.id in rows
  {
    MakersUpdated(rows, taker.id, p.trades)[taker.id := Gained(taker, Gain(p.trades, taker.id), p.rested)]
  }

  /** New statuses owe what the advanced rows owe. */
  lemma StatusesKeep(pairs: Pairs, rows: Rows, after: Rows, accounts: Accounts)
    requires Covered(pairs, rows, accounts) && rows.Keys == after.Keys
    requires forall id :: id in rows ==> after[id] == rows[id].(status := after[id].status)
    requires forall id :: id in rows ==>
      after[id].Live() == rows[id].Live() || (rows[id].Live() && (rows[id].Remaining() == 0 || rows[id].kind == Market))
    ensures Covered(pairs, after, accounts) && forall a :: Owed(pairs, after, a) == Owed(pairs, rows, a)
  {
    hide Pair.Cost;
    forall a ensures Owed(pairs, after, a) == Owed(pairs, rows, a) {
      forall id | id in rows ensures Owes(pairs, after[id], a) == Owes(pairs, rows[id], a) {
        assert RowOk(pairs, id, rows[id]);
        if rows[id].kind == Limit { CostNothing(pairs[rows[id].pair], rows[id].side, rows[id].price); }
      }
      assert (map id | id in after :: Owes(pairs, after[id], a)) == (map id | id in rows :: Owes(pairs, rows[id], a));
    }
    forall id | id in after ensures RowOk(pairs, id, after[id]) { assert RowOk(pairs, id, rows[id]); }
    forall id | id in after && after[id].Live() && after[id].kind == Limit
      ensures SourceOf(pairs, after[id]) in accounts
    {
      assert rows[id].Live();
    }
  }

  // ----- self-trade prevention

  ghost function CancelledRows(rows: Rows, cancelled: seq<Ord>): Rows {
    map id | id in rows :: if HasId(cancelled, id) then rows[id].(status := Status.Cancelled) else rows[id]
  }

  /** Each of these orders is a live one of the table and of this pair. */
  ghost predicate Cancellable(rows: Rows, cancelled: seq<Ord>, pair: string) {
    DistinctIds(cancelled) &&
    forall i :: 0 <= i < |cancelled| ==>
      cancelled[i].id in rows && rows[cancelled[i].id].Live() && rows[cancelled[i].id].pair == pair
  }

  /** Cancelling the makers marks exactly them, releases their reserves, and keeps the rest covered. */
  lemma {:induction false} CancelMakersKeeps(pairs: Pairs, rows: Rows, accounts: Accounts, cancelled: seq<Ord>,
          pair: string)
    requires Covered(pairs, rows, accounts) && Cancellable(rows, cancelled, pair) && pair in pairs
    ensures var done := CancelMakers(rows, accounts, pairs[pair], cancelled);
      && done.error == None && done.rows == CancelledRows(rows, cancelled) && Covered(pairs, done.rows, done.accounts)
      && forall a :: Spare(pairs, done.rows, done.accounts, a) == Spare(pairs, rows, accounts, a)
    decreases cancelled
  {
    if cancelled == [] {
      assert CancelledRows(rows, cancelled) == rows;
    } else {
      hide Covered;
      hide Cancellable;
      hide CancelledRows;
      hide Unreserved;
      hide Spare;
      var id := cancelled[0].id;
      CancellableRest(rows, cancelled, pair);
      ReleaseKeeps(pairs, rows, accounts, id);
      var one := CancelOne(rows, accounts, pairs[pair], id);
      CancelMakersKeeps(pairs, one.rows, one.accounts, cancelled[1..], pair);
      CancelledRest(rows, cancelled);
    }
  }

  lemma CancelledRest(rows: Rows, cancelled: seq<Ord>)
    requires cancelled != [] && cancelled[0].id in rows
    ensures CancelledRows(rows, cancelled) ==
            CancelledRows(rows[cancelled[0].id := rows[cancelled[0].id].(status := Status.Cancelled)], cancelled[1..])
  {
    forall x | x in rows ensures HasId(cancelled, x) <==> cancelled[0].id == x || HasId(cancelled[1..], x) {
      HasIdCons(cancelled, x);
    }
  }

  lemma CancellableRest(rows: Rows, cancelled: seq<Ord>, pair: string)
    requires cancelled != [] && Cancellable(rows, cancelled, pair)
    ensures var id := cancelled[0].id; id in rows && rows[id].Live() && rows[id].pair == pair
    ensures Cancellable(rows[cancelled[0].id := rows[cancelled[0].id].(status := Status.Cancelled)], cancelled[1..],
      pair)
  {
    var rows' := rows[cancelled[0].id := rows[cancelled[0].id].(status := Status.Cancelled)];
    forall i | 0 <= i < |cancelled[1..]|
      ensures
        && cancelled[1..][i].id in rows' && rows'[cancelled[1..][i].id].Live()
        && rows'[cancelled[1..][i].id].pair == pair
    {
      assert cancelled[i + 1].id != cancelled[0].id;
    }
    forall i, j | 0 <= i < j < |cancelled[1..]| ensures cancelled[1..][i].id != cancelled[1..][j].id {
      assert cancelled[i + 1].id != cancelled[j + 1].id;
    }
  }

  /** Cancelling others does not look at the taker's row. */
  lemma {:induction false} CancelMakersApart(rows: Rows, accounts: Accounts, pair: Pair, cancelled: seq<Ord>,
          id: string, r: Row)
    requires id in rows && !HasId(cancelled, id)
    ensures var done, done' :=
      CancelMakers(rows, accounts, pair, cancelled), CancelMakers(rows[id := r], accounts, pair, cancelled);
      done'.accounts == done.accounts && done'.error == done.error && done'.rows == done.rows[id := r]
    decreases cancelled
  {
    if cancelled != [] {
      HasIdCons(cancelled, id);
      var c := cancelled[0].id;
      if c in rows {
        var next := rows[c := rows[c].(status := Status.Cancelled)];
        assert rows[id := r][c := rows[c].(status := Status.Cancelled)] == next[id := r];
        CancelMakersApart(next, Unreserved(accounts, pair, rows[c]), pair, cancelled[1..], id, r);
      }
    }
  }
}
