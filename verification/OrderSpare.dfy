/**
 What every wallet has locked beyond what the stored orders may still have to pay, event by event
 along every run, runs with refused settlements and restarts included.
 */
module OrderSpare {
  import opened MapSums
  import opened MatchingModel
  import opened OrderApply
  import opened OrderDrift
  import opened OrderLifecycle
  import opened OrderModel
  import opened OrderRefusals
  import opened OrderReserves
  import opened OrderRuns
  import opened OrderSafety
  import opened OrderSettlement
  import opened OrderWallets
  import opened OrderWorld
  import opened Wallets
  import opened Wrappers

  // ----- a table and the part of it that a match is about

  /** Rows that a table has as well. */
  predicate PartOf(part: Rows, rows: Rows) {
    forall x :: x in part ==> x in rows && rows[x] == part[x]
  }

  /** What is owed changes by as much in a table as in the part of it that changes. */
  lemma OwedChange(pairs: Pairs, rows: Rows, rows': Rows, part: Rows, part': Rows, a: Account)
    requires rows'.Keys == rows.Keys && part'.Keys == part.Keys && PartOf(part, rows) && PartOf(part', rows')
    requires forall x :: x in rows && x !in part ==> rows'[x] == rows[x]
    ensures Owed(pairs, rows', a) - Owed(pairs, rows, a) == Owed(pairs, part', a) - Owed(pairs, part, a)
  {
    hide Owes;
    SumChange(map x | x in rows :: Owes(pairs, rows[x], a), map x | x in rows' :: Owes(pairs, rows'[x], a),
              map x | x in part :: Owes(pairs, part[x], a), map x | x in part' :: Owes(pairs, part'[x], a));
  }

  lemma {:induction false} DriftSame(pairs: Pairs, rows: Rows, part: Rows, trades: seq<Trade>, a: Account)
    requires
      && PartOf(part, rows)
      && forall i :: 0 <= i < |trades| ==> trades[i].makerId in part && trades[i].takerId in part
    ensures Drift(pairs, rows, trades, a) == Drift(pairs, part, trades, a)
    decreases trades
  {
    if trades != [] {
      hide Slack;
      var t := trades[0];
      assert t.makerId in part && t.takerId in part;
      DriftSame(pairs, TradedRows(rows, t), TradedRows(part, t), trades[1..], a);
    }
  }

  lemma {:induction false} MakersPaidPart(pair: Pair, rows: Rows, part: Rows, trades: seq<Trade>, a: Account)
    requires PartOf(part, rows) && forall i :: 0 <= i < |trades| ==> trades[i].makerId in part
    ensures MakersPaid(pair, rows, trades, a) == MakersPaid(pair, part, trades, a)
    decreases trades
  {
    if trades != [] {
      hide MakerLeg;
      assert trades[0].makerId in part;
      MakersPaidPart(pair, rows, part, trades[1..], a);
    }
  }

  /** A match leaves alone the rows of orders that do not rest. */
  lemma AppliedApart(pairs: Pairs, rows: Rows, low: Rows, high: Rows, accounts: Accounts, b: Book, r: Row, x: string)
    requires Behind(pairs, low, high, accounts, b, r) && PartOf(low, rows) && x in rows && x !in low
    ensures Applied(rows, r, Place(b, ToEngineOrder(r)))[x] == rows[x]
  {
    hide Place;
    hide Match;
    hide Covered;
    hide WrittenBack;
    hide Applied;
    hide FitAll;
    hide BookStored;
    hide RowsOk;
    hide Lags;
    var p := Place(b, ToEngineOrder(r));
    RestsIfUnfilled(pairs, low, high, accounts, b, r);
    LowCancellable(pairs, low, high, accounts, b, r);
    WrittenKeys(low, r, p);
    FitEach(pairs, low, r.pair, r, p.trades);
    WrittenApart(rows, r, p, x);
    AppliedRow(rows, r, p, x);
  }

  // ----- an order that its wallet can pay for

  /** Settling, writing back and cancelling change the spare funds by the drift of the fills. */
  lemma LowSpare(pairs: Pairs, low: Rows, high: Rows, accounts: Accounts, b: Book, r: Row)
    requires Behind(pairs, low, high, accounts, b, r) && Covered(pairs, low, accounts)
    requires Paid(pairs, accounts, r.pair, r, MatchOf(b, r).trades)
    ensures var p, trades := Place(b, ToEngineOrder(r)), MatchOf(b, r).trades;
      var s := SettleAll(accounts, low, pairs[r.pair], r, trades);
      && s.error == None && Covered(pairs, AdvanceAll(low, trades), s.accounts)
      && var done := CancelMakers(WrittenBack(low, r, p), s.accounts, pairs[r.pair], p.cancelled);
      forall a :: Spare(pairs, Applied(low, r, p), done.accounts, a) ==
        Spare(pairs, low, accounts, a) + Drift(pairs, low, trades, a)
  {
    hide Place;
    hide Match;
    hide Covered;
    hide WrittenBack;
    hide FitAll;
    hide BookStored;
    hide AdvanceAll;
    hide SettleAll;
    hide Lags;
    hide Cancellable;
    hide Paid;
    hide Drift;
    hide Owed;
    hide RowsOk;
    var p, trades := Place(b, ToEngineOrder(r)), MatchOf(b, r).trades;
    SettleAllPaid(pairs, low, low, accounts, r.pair, r, trades);
    SettleAllSpare(pairs, low, low, accounts, r.pair, r, trades);
    var s := SettleAll(accounts, low, pairs[r.pair], r, trades).accounts;
    LowCovered(pairs, low, high, accounts, b, r, s);
    LowCancellable(pairs, low, high, accounts, b, r);
    CancelMakersKeeps(pairs, WrittenBack(low, r, p), s, p.cancelled, r.pair);
  }

  /** Reserving for a new order changes no spare funds. */
  lemma ReservedSpare(pairs: Pairs, w: World, booked: Rows, id: string, user: string, req: Request)
    requires SafeBy(pairs, w, booked) && id !in w.rows && Accepted(pairs, w, id, user, req)
    ensures var r := NewRow(id, user, req);
      forall a :: Spare(pairs, w.rows[id := r], Reserved(w.accounts, pairs[req.pair], r).value, a) ==
        Spare(pairs, w.rows, w.accounts, a)
  {
    hide Reserved;
    hide Mirrors;
    hide Owed;
    var r, some := NewRow(id, user, req), Standing(w.rows, booked);
    assert RowOk(pairs, id, r);
    hide RowOk;
    ReservedCovers(pairs, some, w.accounts, r);
    forall a
      ensures Spare(pairs, w.rows[id := r], Reserved(w.accounts, pairs[req.pair], r).value, a) ==
              Spare(pairs, w.rows, w.accounts, a)
    {
      OwedUpdate(pairs, w.rows, id, r, a);
      OwedUpdate(pairs, some, id, r, a);
      var after := Reserved(w.accounts, pairs[req.pair], r).value;
      assert Spare(pairs, some[id := r], after, a) == Spare(pairs, some, w.accounts, a);
    }
  }

  /** The whole table changes as the part of it does that the match is about. */
  lemma AppliedChange(pairs: Pairs, w: World, booked: Rows, id: string, user: string, req: Request, a: Account)
    requires SafeBy(pairs, w, booked) && id !in w.rows && Accepted(pairs, w, id, user, req)
    ensures var r, trades := NewRow(id, user, req), TradesFor(w, id, user, req);
      var p, rows, low :=
        Place(BookOf(w.books, req.pair), ToEngineOrder(r)), w.rows[id := r], Standing(w.rows, booked)[id := r];
      && Owed(pairs, Applied(rows, r, p), a) - Owed(pairs, rows, a) ==
         Owed(pairs, Applied(low, r, p), a) - Owed(pairs, low, a)
      && Drift(pairs, rows, trades, a) == Drift(pairs, low, trades, a)
  {
    hide Reserved;
    hide Place;
    hide Match;
    hide Covered;
    hide Mirrors;
    hide FitAll;
    hide Applied;
    hide Submitted;
    hide Lags;
    hide Drift;
    hide Owed;
    hide RowsOk;
    var r, b, trades := NewRow(id, user, req), BookOf(w.books, req.pair), TradesFor(w, id, user, req);
    var p, rows, low, high :=
      Place(b, ToEngineOrder(r)), w.rows[id := r], Standing(w.rows, booked)[id := r], booked[id := r];
    var accounts := Reserved(w.accounts, pairs[req.pair], r).value;
    hide Accepted;
    Arrives(pairs, w, booked, id, user, req);
    AppliedTable(pairs, w, booked, id, user, req);
    AppliedRow(rows, r, p, id);
    assert r.pair == req.pair;
    forall x | x in rows && x !in low ensures Applied(rows, r, p)[x] == rows[x] {
      AppliedApart(pairs, rows, low, high, accounts, b, r, x);
    }
    OwedChange(pairs, rows, Applied(rows, r, p), low, Applied(low, r, p), a);
    FitEach(pairs, low, req.pair, r, trades);
    DriftSame(pairs, rows, low, trades, a);
  }

  /** An affordable order goes through, and adds the drift of its match to the spare funds. */
  lemma AffordedSpare(pairs: Pairs, w: World, booked: Rows, id: string, user: string, req: Request)
    requires SafeBy(pairs, w, booked) && id !in w.rows && Accepted(pairs, w, id, user, req)
    requires Affordable(pairs, w, id, user, req)
    ensures CreateOrder(w, pairs, id, user, req).result.Ok?
    ensures var after := CreateOrder(w, pairs, id, user, req).world;
      forall a :: WorldSpare(pairs, after, a) ==
        WorldSpare(pairs, w, a) + Drift(pairs, w.rows[id := NewRow(id, user, req)], TradesFor(w, id, user, req), a)
  {
    hide Reserved;
    hide Applied;
    hide Place;
    hide Match;
    hide Covered;
    hide SettleAll;
    hide Mirrors;
    hide Lags;
    hide FitAll;
    hide Submitted;
    hide CreateOrder;
    hide ApplyResult;
    hide Paid;
    hide Drift;
    hide Owed;
    hide AdvanceAll;
    hide RowsOk;
    assert req.pair in pairs;
    hide Rejection;
    var r, b, trades := NewRow(id, user, req), BookOf(w.books, req.pair), TradesFor(w, id, user, req);
    var p, rows, low, high :=
      Place(b, ToEngineOrder(r)), w.rows[id := r], Standing(w.rows, booked)[id := r], booked[id := r];
    var accounts := Reserved(w.accounts, pairs[req.pair], r).value;
    AffordableAfterLock(pairs, w, id, user, req);
    Arrives(pairs, w, booked, id, user, req);
    LowSpare(pairs, low, high, accounts, b, r);
    FitEach(pairs, low, req.pair, r, trades);
    SettleSame(accounts, rows, low, pairs[req.pair], r, trades);
    PaidApplied(pairs, rows, low, high, accounts, b, r);
    ReservedSpare(pairs, w, booked, id, user, req);
    CreateUnfolds(pairs, w, id, user, req);
    hide Behind;
    forall a
      ensures WorldSpare(pairs, CreateOrder(w, pairs, id, user, req).world, a) ==
              WorldSpare(pairs, w, a) + Drift(pairs, rows, trades, a)
    {
      AppliedChange(pairs, w, booked, id, user, req, a);
    }
  }

  // ----- an order that its wallet cannot pay for

  /** The settlement ends where the taker cannot pay, and until then the makers pay out of what they have locked. */
  lemma RefusedSettles(pairs: Pairs, w: World, booked: Rows, id: string, user: string, req: Request)
    requires SafeBy(pairs, w, booked) && id !in w.rows && Accepted(pairs, w, id, user, req)
    requires !Affordable(pairs, w, id, user, req)
    ensures var r, paid := NewRow(id, user, req), PaidTrades(pairs, w, id, user, req);
      var s := SettleAll(w.accounts, w.rows[id := r], pairs[req.pair], r, TradesFor(w, id, user, req));
      && s.error == Some(WalletRefused(
           if SourceOf(pairs, r) in w.accounts then InsufficientBalance else WalletNotFound))
      && r.kind == Market && Reserved(w.accounts, pairs[req.pair], r) == Ok(w.accounts)
      && paid == TradesFor(w, id, user, req)[..SettledCount(w.accounts, w.rows[id := r], pairs[req.pair], r,
                                                            TradesFor(w, id, user, req))]
      && forall a :: LockedOf(s.accounts, a) == LockedOf(w.accounts, a) - MakersPaid(pairs[req.pair], w.rows, paid, a)
  {
    hide Place;
    hide Match;
    hide Covered;
    hide SettleAll;
    hide SettledCount;
    hide MakersPaid;
    hide Mirrors;
    hide Lags;
    hide FitAll;
    hide Submitted;
    hide AdvanceAll;
    hide RowsOk;
    assert req.pair in pairs;
    hide Rejection;
    hide PayableCount;
    var r, trades := NewRow(id, user, req), TradesFor(w, id, user, req);
    var rows, low := w.rows[id := r], Standing(w.rows, booked)[id := r];
    Arrives(pairs, w, booked, id, user, req);
    FitEach(pairs, low, req.pair, r, trades);
    hide Behind;
    hide SafeBy;
    SettleSame(w.accounts, rows, low, pairs[req.pair], r, trades);
    SettleAllUnpaid(pairs, low, low, w.accounts, req.pair, r, trades);
    SettlePrefix(pairs, low, low, w.accounts, req.pair, r, trades);
    SettledExactly(pairs, low, low, w.accounts, req.pair, r, trades);
    var paid := PaidTrades(pairs, w, id, user, req);
    assert paid == trades[..SettledCount(w.accounts, low, pairs[req.pair], r, trades)];
    hide PaidTrades;
    hide TradesFor;
    forall a ensures MakersPaid(pairs[req.pair], low, paid, a) == MakersPaid(pairs[req.pair], w.rows, paid, a) {
      MakersPaidPart(pairs[req.pair], rows, low, paid, a);
      MakersPaidSame(pairs[req.pair], w.rows, id, r, paid, a);
    }
  }

  /** Any other accepted order is refused, and what was settled before is taken off the makers' spare funds. */
  lemma RefusedSpare(pairs: Pairs, w: World, booked: Rows, id: string, user: string, req: Request)
    requires SafeBy(pairs, w, booked) && id !in w.rows && Accepted(pairs, w, id, user, req)
    requires !Affordable(pairs, w, id, user, req)
    ensures var reply := CreateOrder(w, pairs, id, user, req);
      && reply.result == Err(WalletRefused(
           if SourceOf(pairs, NewRow(id, user, req)) in w.accounts then InsufficientBalance else WalletNotFound))
      && reply.world.rows == w.rows[id := NewRow(id, user, req)]
      && forall a :: WorldSpare(pairs, reply.world, a) ==
           WorldSpare(pairs, w, a) - MakersPaid(pairs[req.pair], w.rows, PaidTrades(pairs, w, id, user, req), a)
  {
    hide Place;
    hide Match;
    hide Covered;
    hide SettleAll;
    hide MakersPaid;
    hide SafeBy;
    hide CreateOrder;
    assert req.pair in pairs;
    hide Rejection;
    hide Owed;
    hide PaidTrades;
    hide CancelMakers;
    hide MakersUpdated;
    var r := NewRow(id, user, req);
    RefusedSettles(pairs, w, booked, id, user, req);
    CreateUnfolds(pairs, w, id, user, req);
    PlaceParts(BookOf(w.books, req.pair), ToEngineOrder(r));
    forall a ensures Owed(pairs, w.rows[id := r], a) == Owed(pairs, w.rows, a) { OwedUpdate(pairs, w.rows, id, r, a); }
  }

  /** From any safe world, an accepted order goes through if and only if it is affordable. */
  lemma CreatedExactly(pairs: Pairs, w: World, id: string, user: string, req: Request)
    requires Safe(pairs, w) && id !in w.rows && Accepted(pairs, w, id, user, req)
    ensures CreateOrder(w, pairs, id, user, req).result.Ok? <==> Affordable(pairs, w, id, user, req)
  {
    hide SafeBy;
    hide CreateOrder;
    hide Affordable;
    hide Accepted;
    var booked :| SafeBy(pairs, w, booked);
    if Affordable(pairs, w, id, user, req) {
      AffordedSpare(pairs, w, booked, id, user, req);
    } else {
      RefusedSpare(pairs, w, booked, id, user, req);
    }
  }

  /** From any safe world, an accepted sale out of a wallet that exists is never refused. */
  lemma SaleCreated(pairs: Pairs, w: World, id: string, user: string, req: Request)
    requires Safe(pairs, w) && id !in w.rows && Accepted(pairs, w, id, user, req)
    requires req.side == "sell" && Account(user, pairs[req.pair].base) in w.accounts
    ensures CreateOrder(w, pairs, id, user, req).result.Ok?
  {
    hide SafeBy;
    hide CreateOrder;
    hide WorldOk;
    hide Paid;
    var booked :| SafeBy(pairs, w, booked);
    var v := World(booked, w.accounts, w.books);
    BookedOk(pairs, w, booked);
    assert booked.Keys <= w.rows.Keys by { BookedStored(pairs, w, booked); }
    assert Accepted(pairs, v, id, user, req);
    SaleAffordable(pairs, v, id, user, req);
    CreatedExactly(pairs, w, id, user, req);
  }

  lemma BookedStored(pairs: Pairs, w: World, booked: Rows)
    requires SafeBy(pairs, w, booked)
    ensures booked.Keys <= w.rows.Keys
  {
  }

  // ----- cancelling

  /** Cancelling changes no spare funds, whether the order still rests or not. */
  lemma CancelSpare(pairs: Pairs, w: World, user: string, id: string)
    requires Safe(pairs, w)
    ensures forall a :: WorldSpare(pairs, CancelOrder(w, pairs, user, id).world, a) == WorldSpare(pairs, w, a)
  {
    hide SafeBy;
    hide Cancel;
    hide Returned;
    hide Owed;
    var booked :| SafeBy(pairs, w, booked);
    if id in w.rows && w.rows[id].user == user && w.rows[id].Live() {
      FoundIfResting(pairs, w, booked, id);
      if id in booked {
        RestingReleased(pairs, w, booked, id);
        var r := w.rows[id].(status := Status.Cancelled);
        forall a
          ensures WorldSpare(pairs, CancelOrder(w, pairs, user, id).world, a) == WorldSpare(pairs, w, a)
        {
          OwedUpdate(pairs, w.rows, id, r, a);
        }
      }
    }
  }

  /** The reserve of a resting order is locked, and released in full. */
  lemma RestingReleased(pairs: Pairs, w: World, booked: Rows, id: string)
    requires SafeBy(pairs, w, booked) && id in booked
    ensures id in w.rows
    ensures forall a :: LockedOf(Returned(w.accounts, pairs, w.rows[id]), a) ==
                        LockedOf(w.accounts, a) - Owes(pairs, w.rows[id], a)
    ensures forall a :: Owes(pairs, w.rows[id].(status := Status.Cancelled), a) == 0
  {
    hide Covered;
    hide Unreserved;
    hide Mirrors;
    assert RowOk(pairs, id, w.rows[id]) && Lags(w.rows[id], booked[id]);
    ReleaseKeeps(pairs, Standing(w.rows, booked), w.accounts, id);
  }

  // ----- starting up

  function AtLeastNothing(x: int): int { if x < 0 then 0 else x }

  /** Releasing an order's reserve takes it off what is locked, or all that is locked if that is less. */
  lemma ReleasedLocked(pairs: Pairs, accounts: Accounts, r: Row)
    requires Solvent(accounts) && RowOk(pairs, r.id, r) && r.Live()
    ensures Solvent(Returned(accounts, pairs, r))
    ensures forall a :: Owes(pairs, r, a) >= 0 && Owes(pairs, r.(status := Status.Cancelled), a) == 0
    ensures forall a :: LockedOf(Returned(accounts, pairs, r), a) ==
                        AtLeastNothing(LockedOf(accounts, a) - Owes(pairs, r, a))
  {
    hide Pair.Cost;
    UnreservedSolvent(pairs, accounts, r);
    if r.kind == Limit {
      CostSplit(pairs[r.pair], r.side, r.Remaining(), r.Remaining(), r.price);
      CostNothing(pairs[r.pair], r.side, r.price);
      assert r.Remaining() > 0 ==> r.quantity * r.price > 0;
    }
  }

  lemma OwedNonNegative(pairs: Pairs, rows: Rows, a: Account)
    requires RowsOk(pairs, rows)
    ensures Owed(pairs, rows, a) >= 0
  {
    hide RowOk;
    hide Owes;
    forall x | x in rows ensures Owes(pairs, rows[x], a) >= 0 { OwesNonNegative(pairs, x, rows[x], a); }
    SumNonNegative(map x | x in rows :: Owes(pairs, rows[x], a));
  }

  /**
   The clean-up, on any table and any solvent wallets: no order stays live, and of what is locked
   stays what is more than the orders of the table owed.
   */
  lemma {:induction false} CleanupSpare(pairs: Pairs, rows: Rows, accounts: Accounts, ids: seq<string>)
    requires Solvent(accounts) && RowsOk(pairs, rows) && LiveList(rows, ids)
    ensures var done := Cleanup(rows, accounts, pairs, ids);
      && Solvent(done.1) && RowsOk(pairs, done.0) && (forall id :: id in done.0 ==> !done.0[id].Live())
      && (forall a :: LockedOf(done.1, a) == AtLeastNothing(LockedOf(accounts, a) - Owed(pairs, rows, a)))
    decreases ids
  {
    hide Owed;
    hide LockedOf;
    hide LiveList;
    hide Solvent;
    hide Returned;
    hide RowOk;
    if ids == [] {
      NoneLeft(rows);
      NothingOwed(pairs, rows);
      forall a ensures LockedOf(accounts, a) >= 0 { LockedNonNegative(accounts, a); }
    } else {
      LiveListRest(rows, ids);
      var r := rows[ids[0]];
      var rows', after := CancelRow(rows, ids[0]), Returned(accounts, pairs, r);
      assert RowOk(pairs, ids[0], r);
      assert r.id == ids[0] by { RowNamed(pairs, ids[0], r); }
      ReleasedLocked(pairs, accounts, r);
      CancelledRowsOk(pairs, rows, ids[0]);
      CleanupSpare(pairs, rows', after, ids[1..]);
      forall a
        ensures AtLeastNothing(LockedOf(after, a) - Owed(pairs, rows', a)) ==
                AtLeastNothing(LockedOf(accounts, a) - Owed(pairs, rows, a))
      {
        OwedUpdate(pairs, rows, ids[0], r.(status := Status.Cancelled), a);
        OwedNonNegative(pairs, rows', a);
      }
    }
  }

  lemma RowNamed(pairs: Pairs, id: string, r: Row)
    requires RowOk(pairs, id, r)
    ensures r.id == id
  {
  }

  lemma NothingStored(rows: Rows)
    ensures forall p :: BookStored(rows, BookOf(map[], p), p)
  {
  }

  lemma LockedNonNegative(accounts: Accounts, a: Account)
    requires Solvent(accounts)
    ensures LockedOf(accounts, a) >= 0
  {
  }

  /** A restart puts everything right: whatever has been refused before, table and books agree and all is covered. */
  lemma RestartRestores(pairs: Pairs, w: World, live: seq<string>)
    requires Safe(pairs, w) && LiveList(w.rows, live)
    ensures WorldOk(pairs, After(pairs, w, Restart(live)))
    ensures forall a :: WorldSpare(pairs, After(pairs, w, Restart(live)), a) == AtLeastNothing(WorldSpare(pairs, w, a))
  {
    hide Mirrors;
    hide Owed;
    hide LockedOf;
    hide RowOk;
    hide Cleanup;
    hide LiveList;
    hide BookStored;
    hide Solvent;
    var booked :| SafeBy(pairs, w, booked);
    CleanupSpare(pairs, w.rows, w.accounts, live);
    var w' := After(pairs, w, Restart(live));
    NothingOwed(pairs, w'.rows);
    forall a ensures Owed(pairs, w'.rows, a) == 0 <= LockedOf(w'.accounts, a) { LockedNonNegative(w'.accounts, a); }
    NothingStored(w'.rows);
  }

  // ----- runs

  /** New ids are new, and the clean-up goes through the live orders of the table. */
  predicate Regular(w: World, e: Event) {
    Proper(w, e) && (e.Restart? ==> LiveList(w.rows, e.live))
  }

  ghost predicate RegularRun(pairs: Pairs, w: World, events: seq<Event>)
    decreases events
  {
    events != [] ==> Regular(w, events[0]) && RegularRun(pairs, After(pairs, w, events[0]), events[1..])
  }

  /**
   What an event makes of a wallet's spare funds: an order that goes through adds the drift of its
   fills, a refused one takes what the makers of its first trades pay, and a restart makes up what is short.
   */
  ghost function SpareAfter(pairs: Pairs, w: World, e: Event, a: Account, spare: int): int {
    match e
    case Create(id, user, req) =>
      if !Accepted(pairs, w, id, user, req) then spare
      else if Affordable(pairs, w, id, user, req)
      then spare + Drift(pairs, w.rows[id := NewRow(id, user, req)], TradesFor(w, id, user, req), a)
      else spare - MakersPaid(pairs[req.pair], w.rows, PaidTrades(pairs, w, id, user, req), a)
    case CancelBy(_, _) => spare
    case Restart(_) => AtLeastNothing(spare)
  }

  ghost function SpareAfterAll(pairs: Pairs, w: World, events: seq<Event>, a: Account, spare: int): int
    decreases events
  {
    if events == [] then spare
    else SpareAfterAll(pairs, After(pairs, w, events[0]), events[1..], a, SpareAfter(pairs, w, events[0], a, spare))
  }

  lemma StepSpareExactly(pairs: Pairs, w: World, e: Event, a: Account)
    requires Safe(pairs, w) && Regular(w, e)
    ensures WorldSpare(pairs, After(pairs, w, e), a) == SpareAfter(pairs, w, e, a, WorldSpare(pairs, w, a))
  {
    hide SafeBy;
    hide CreateOrder;
    hide CancelOrder;
    hide Cleanup;
    hide WorldSpare;
    hide Drift;
    hide MakersPaid;
    hide PaidTrades;
    hide TradesFor;
    hide Affordable;
    hide LiveList;
    hide AtLeastNothing;
    match e
    case Create(id, user, req) =>
      if Accepted(pairs, w, id, user, req) {
        var booked :| SafeBy(pairs, w, booked);
        hide Accepted;
        if Affordable(pairs, w, id, user, req) {
          AffordedSpare(pairs, w, booked, id, user, req);
        } else {
          RefusedSpare(pairs, w, booked, id, user, req);
        }
      } else {
        NotAccepted(pairs, w, id, user, req);
      }
    case CancelBy(user, id) =>
      CancelSpare(pairs, w, user, id);
    case Restart(live) =>
      RestartRestores(pairs, w, live);
  }

  /** Along every run, refusals included, the spare funds of every wallet are known exactly. */
  lemma {:induction false} RunSpareExactly(pairs: Pairs, w: World, events: seq<Event>, a: Account)
    requires Safe(pairs, w) && RegularRun(pairs, w, events)
    ensures Safe(pairs, RunOf(pairs, w, events))
    ensures WorldSpare(pairs, RunOf(pairs, w, events), a) ==
            SpareAfterAll(pairs, w, events, a, WorldSpare(pairs, w, a))
    decreases events
  {
    if events != [] {
      hide Safe;
      hide After;
      hide SpareAfter;
      hide WorldSpare;
      StepSafe(pairs, w, events[0]);
      StepSpareExactly(pairs, w, events[0], a);
      RunSpareExactly(pairs, After(pairs, w, events[0]), events[1..], a);
    }
  }
}
