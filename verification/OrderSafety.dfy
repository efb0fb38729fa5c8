/**
 What holds along every run of the order service, runs with settlements that the wallets refuse
 included: whatever rests in the books is paid for, even where the table has lost track of it.
 */
module OrderSafety {
  import opened MatchingModel
  import opened MatchingRuns
  import opened OrderApply
  import opened OrderLifecycle
  import opened OrderModel
  import opened OrderReserves
  import opened OrderRuns
  import opened OrderSettlement
  import opened OrderSimulation
  import opened OrderWallets
  import opened OrderWorld
  import opened Wallets
  import opened Wrappers

  /** A table that lists the resting orders, and no others, exactly as the books have them. */
  ghost predicate Mirrors(booked: Rows, books: Books) {
    Simulates(booked, books) && forall id :: id in booked ==> booked[id].Live() && booked[id].kind == Limit
  }

  lemma MirrorsHas(booked: Rows, other: Rows, books: Books, id: string)
    requires Mirrors(booked, books) && Mirrors(other, books) && id in booked
    ensures id in other && other[id] == booked[id]
  {
    var b, p := BookOf(books, booked[id].pair), booked[id].pair;
    var q := b.Queue(booked[id].side);
    assert BookStored(booked, b, p) && BookStored(other, b, p);
    assert QueueStored(booked, q, p) && QueueStored(other, q, p);
    var i :| 0 <= i < |q| && q[i].id == id;
    assert Stored(booked[q[i].id], q[i], p) && Stored(other[q[i].id], q[i], p);
  }

  /** There is only one such table. */
  lemma MirrorsOnce(booked: Rows, other: Rows, books: Books)
    requires Mirrors(booked, books) && Mirrors(other, books)
    ensures booked == other
  {
    forall id ensures id in booked <==> id in other {
      if id in booked { MirrorsHas(booked, other, books, id); }
      if id in other { MirrorsHas(other, booked, books, id); }
    }
    forall id | id in booked ensures booked[id] == other[id] { MirrorsHas(booked, other, books, id); }
  }

  /** The stored row of a resting order, which may not know of its latest fills. */
  predicate Lags(r: Row, booked: Row) {
    r.Live() && booked == r.(filled := booked.filled, status := booked.status) && r.filled <= booked.filled
  }

  /** The stored rows of the resting orders. */
  function Standing(rows: Rows, booked: Rows): Rows
    requires booked.Keys <= rows.Keys
  {
    map id | id in booked :: rows[id]
  }

  ghost predicate SafeBy(pairs: Pairs, w: World, booked: Rows) {
    && Mirrors(booked, w.books) && RowsOk(pairs, w.rows) && RowsOk(pairs, booked) && booked.Keys <= w.rows.Keys
    && (forall id :: id in booked ==> Lags(w.rows[id], booked[id]))
    && Covered(pairs, Standing(w.rows, booked), w.accounts)
  }

  /** Every resting order has a stored row, and the locked funds cover what those rows may still have to pay. */
  ghost predicate Safe(pairs: Pairs, w: World) {
    exists booked :: SafeBy(pairs, w, booked)
  }

  /** What the books say rests agrees with itself and is covered. */
  lemma BookedOk(pairs: Pairs, w: World, booked: Rows)
    requires SafeBy(pairs, w, booked)
    ensures WorldOk(pairs, World(booked, w.accounts, w.books))
  {
    hide Simulates;
    CoveredLess(pairs, Standing(w.rows, booked), booked, w.accounts);
  }

  /** So wallets are solvent, and what is locked covers the resting orders by the books' own remaining sizes. */
  lemma SafeMeans(pairs: Pairs, w: World, booked: Rows)
    requires Safe(pairs, w) && Mirrors(booked, w.books)
    ensures Solvent(w.accounts)
    ensures forall a :: Owed(pairs, booked, a) <= LockedOf(w.accounts, a)
    ensures forall p :: BookOk(BookOf(w.books, p))
  {
    hide Mirrors;
    hide Owed;
    var other :| SafeBy(pairs, w, other);
    MirrorsOnce(booked, other, w.books);
    BookedOk(pairs, w, other);
    forall p ensures BookOk(BookOf(w.books, p)) { assert BookStored(other, BookOf(w.books, p), p); }
  }

  /** An id that is new to the table is new to the books, as the engine asks of it. */
  lemma NewIdRestsNowhere(pairs: Pairs, w: World, id: string, pair: string)
    requires Safe(pairs, w) && id !in w.rows
    ensures !HasId(BookOf(w.books, pair).bids, id) && !HasId(BookOf(w.books, pair).asks, id)
  {
    var booked :| SafeBy(pairs, w, booked);
    assert BookStored(booked, BookOf(w.books, pair), pair);
  }

  /** The live limit orders of a table that agrees with the books are all that rests there. */
  function LiveLimits(rows: Rows): Rows {
    map id | id in rows && rows[id].Live() && rows[id].kind == Limit :: rows[id]
  }

  lemma LiveMirrors(rows: Rows, books: Books)
    requires Simulates(rows, books)
    ensures Mirrors(LiveLimits(rows), books)
  {
    var live := LiveLimits(rows);
    forall p ensures BookStored(live, BookOf(books, p), p) {
      var b := BookOf(books, p);
      assert BookStored(rows, b, p);
      forall i | 0 <= i < |b.bids| ensures b.bids[i].id in live && Stored(live[b.bids[i].id], b.bids[i], p) {
        assert Stored(rows[b.bids[i].id], b.bids[i], p);
      }
      forall i | 0 <= i < |b.asks| ensures b.asks[i].id in live && Stored(live[b.asks[i].id], b.asks[i], p) {
        assert Stored(rows[b.asks[i].id], b.asks[i], p);
      }
    }
  }

  /** A world whose table agrees with its books is safe. */
  lemma OkIsSafe(pairs: Pairs, w: World)
    requires WorldOk(pairs, w)
    ensures Safe(pairs, w)
  {
    hide Simulates;
    var booked := LiveLimits(w.rows);
    LiveMirrors(w.rows, w.books);
    CoveredLess(pairs, w.rows, Standing(w.rows, booked), w.accounts);
    assert SafeBy(pairs, w, booked);
  }

  // ----- tables that lag behind one another

  /** Trades that fit a table fit one that lags behind it. */
  lemma {:induction false} FitLag(low: Rows, high: Rows, pair: string, taker: Row, trades: seq<Trade>)
    requires low.Keys == high.Keys && forall id :: id in low ==> Lags(low[id], high[id])
    requires taker.id in low && low[taker.id] == high[taker.id] && FitAll(high, pair, taker, trades)
    ensures FitAll(low, pair, taker, trades)
    decreases trades
  {
    if trades != [] {
      var t := trades[0];
      FitRest(high, high, pair, taker, trades);
      assert Fits(high, pair, taker, t) && Lags(low[t.makerId], high[t.makerId]);
      assert Fits(low, pair, taker, t);
      forall id | id in low ensures Lags(TradedRows(low, t)[id], TradedRows(high, t)[id]) {
        assert Lags(low[id], high[id]);
      }
      FitLag(TradedRows(low, t), TradedRows(high, t), pair, taker, trades[1..]);
      FitCons(low, pair, taker, t, trades[1..]);
      assert [t] + trades[1..] == trades;
    }
  }

  /** Settlement looks at the makers' rows and at no others. */
  lemma {:induction false} SettleSame(accounts: Accounts, rows: Rows, other: Rows, pair: Pair, taker: Row,
          trades: seq<Trade>)
    requires forall i :: 0 <= i < |trades| ==>
      trades[i].makerId in rows && trades[i].makerId in other && rows[trades[i].makerId] == other[trades[i].makerId]
    ensures SettleAll(accounts, rows, pair, taker, trades) == SettleAll(accounts, other, pair, taker, trades)
    ensures SettledCount(accounts, rows, pair, taker, trades) == SettledCount(accounts, other, pair, taker, trades)
    decreases trades
  {
    if trades != [] {
      hide Settle;
      assert trades[0].makerId in rows;
      var maker := rows[trades[0].makerId];
      var settled := Settle(accounts, MakerLeg(pair, maker, trades[0]), TakerLeg(pair, maker, taker, trades[0]));
      if settled.Ok? {
        forall i | 0 <= i < |trades[1..]|
          ensures trades[1..][i].makerId in rows && trades[1..][i].makerId in other
          ensures rows[trades[1..][i].makerId] == other[trades[1..][i].makerId]
        {
          assert trades[1..][i] == trades[i + 1];
        }
        SettleSame(settled.value, rows, other, pair, taker, trades[1..]);
      }
    }
  }

  /** Cancelling makers looks at their rows and at no others. */
  lemma {:induction false} CancelSame(rows: Rows, other: Rows, accounts: Accounts, pair: Pair, cancelled: seq<Ord>)
    requires DistinctIds(cancelled) && forall i :: 0 <= i < |cancelled| ==>
      cancelled[i].id in rows && cancelled[i].id in other && rows[cancelled[i].id] == other[cancelled[i].id]
    ensures var done := CancelMakers(rows, accounts, pair, cancelled);
      && done.error == None && done.rows == CancelledRows(rows, cancelled)
      && done.accounts == CancelMakers(other, accounts, pair, cancelled).accounts
    decreases cancelled
  {
    if cancelled == [] {
      assert CancelledRows(rows, cancelled) == rows;
    } else {
      hide Unreserved;
      hide CancelledRows;
      var c := cancelled[0].id;
      assert c in rows && c in other;
      var one, one' := CancelOne(rows, accounts, pair, c), CancelOne(other, accounts, pair, c);
      forall i | 0 <= i < |cancelled[1..]|
        ensures cancelled[1..][i].id in one.rows && cancelled[1..][i].id in one'.rows
        ensures one.rows[cancelled[1..][i].id] == one'.rows[cancelled[1..][i].id]
      {
        assert cancelled[1..][i] == cancelled[i + 1];
      }
      forall i, j | 0 <= i < j < |cancelled[1..]| ensures cancelled[1..][i].id != cancelled[1..][j].id {
        assert cancelled[i + 1].id != cancelled[j + 1].id;
      }
      CancelSame(one.rows, one'.rows, one.accounts, pair, cancelled[1..]);
      CancelledRest(rows, cancelled);
    }
  }

  lemma {:induction false} AdvanceOthers(rows: Rows, trades: seq<Trade>, id: string)
    requires id in rows && forall i :: 0 <= i < |trades| ==> trades[i].makerId != id && trades[i].takerId != id
    ensures id in AdvanceAll(rows, trades) && AdvanceAll(rows, trades)[id] == rows[id]
    decreases trades
  {
    if trades != [] {
      var t := trades[0];
      assert t.makerId != id && t.takerId != id;
      forall i | 0 <= i < |trades[1..]| ensures trades[1..][i].makerId != id && trades[1..][i].takerId != id {
        assert trades[1..][i] == trades[i + 1];
      }
      AdvanceOthers(TradedRows(rows, t), trades[1..], id);
    }
  }

  // ----- an order that is accepted

  /** A new order that is about to be matched, and a table that lags behind the one the books are mirrored by. */
  ghost predicate Behind(pairs: Pairs, low: Rows, high: Rows, accounts: Accounts, b: Book, r: Row) {
    && Submitted(pairs, high, accounts, b, r) && RowsOk(pairs, low) && low.Keys == high.Keys && low[r.id] == r
    && FitAll(low, r.pair, r, MatchOf(b, r).trades) && forall x :: x in low ==> Lags(low[x], high[x])
  }

  /** The order meets the books as they are; the stored rows of the orders it may meet lag behind, and are covered. */
  lemma Arrives(pairs: Pairs, w: World, booked: Rows, id: string, user: string, req: Request)
    requires SafeBy(pairs, w, booked) && id !in w.rows && Accepted(pairs, w, id, user, req)
    ensures var r, trades := NewRow(id, user, req), TradesFor(w, id, user, req);
      var accounts, high, low :=
        Reserved(w.accounts, pairs[req.pair], r).value, booked[id := r], Standing(w.rows, booked)[id := r];
      && Submitted(pairs, high, accounts, BookOf(w.books, req.pair), r) && Covered(pairs, low, accounts)
      && Behind(pairs, low, high, accounts, BookOf(w.books, req.pair), r) && FitAll(high, req.pair, r, trades)
      && RowsOk(pairs, w.rows[id := r])
  {
    hide Simulates;
    hide Reserved;
    hide Match;
    hide Owed;
    hide FitAll;
    var r, b := NewRow(id, user, req), BookOf(w.books, req.pair);
    var v := World(booked, w.accounts, w.books);
    var accounts, high, low :=
      Reserved(w.accounts, pairs[req.pair], r).value, booked[id := r], Standing(w.rows, booked)[id := r];
    BookedOk(pairs, w, booked);
    assert Rejection(v, pairs, user, req) == Rejection(w, pairs, user, req);
    NewSubmitted(pairs, v, id, user, req);
    assert RowOk(pairs, id, high[id]);
    ReservedCovers(pairs, Standing(w.rows, booked), w.accounts, r);
    SubmittedMeets(pairs, high, accounts, b, r);
    MatchFits(high, r, Arriving(b, r), b.Queue(Opposite(r.side)), req.pair);
    FitLag(low, high, req.pair, r, TradesFor(w, id, user, req));
    forall x | x in w.rows && x != id ensures RowOk(pairs, x, w.rows[x]) {}
  }

  /** The books after the match are mirrored by what the match makes of the table that mirrored them before. */
  lemma NextMirrors(pairs: Pairs, w: World, booked: Rows, id: string, user: string, req: Request)
    requires SafeBy(pairs, w, booked) && id !in w.rows && Accepted(pairs, w, id, user, req)
    ensures var r := NewRow(id, user, req);
      var p, high := Place(BookOf(w.books, req.pair), ToEngineOrder(r)), booked[id := r];
      var next := LiveLimits(Applied(high, r, p));
      && Mirrors(next, w.books[req.pair := p.book]) && RowsOk(pairs, next) && next.Keys <= high.Keys
  {
    hide Simulates;
    hide Reserved;
    hide Applied;
    hide Place;
    hide Match;
    hide Covered;
    hide BookStored;
    hide FitAll;
    var r, b := NewRow(id, user, req), BookOf(w.books, req.pair);
    var p, high := Place(b, ToEngineOrder(r)), booked[id := r];
    var accounts := Reserved(w.accounts, pairs[req.pair], r).value;
    assert Simulates(booked, w.books);
    hide Accepted;
    hide Mirrors;
    hide SafeBy;
    hide Submitted;
    hide Behind;
    hide WrittenBack;
    hide WrittenFrom;
    hide AdvanceAll;
    Arrives(pairs, w, booked, id, user, req);
    AppliedSimulates(pairs, World(booked, w.accounts, w.books), accounts, r);
    LiveMirrors(Applied(high, r, p), w.books[req.pair := p.book]);
    AppliedRow(high, r, p, id);
    assert AllSound(pairs);
    forall x | x in LiveLimits(Applied(high, r, p)) ensures RowOk(pairs, x, Applied(high, r, p)[x]) {
      AppliedRowOk(pairs, high, accounts, b, r, x);
    }
  }

  lemma AppliedRowOk(pairs: Pairs, rows: Rows, accounts: Accounts, b: Book, taker: Row, x: string)
    requires Submitted(pairs, rows, accounts, b, taker) && x in rows
    ensures RowOk(pairs, x, Applied(rows, taker, Place(b, ToEngineOrder(taker)))[x])
  {
    assert taker.id in rows;
    hide Submitted;
    hide Applied;
    hide Place;
    hide Match;
    hide WrittenBack;
    hide AdvanceAll;
    hide HasTraded;
    WrittenRow(pairs, rows, accounts, b, taker, x);
    AppliedRow(rows, taker, Place(b, ToEngineOrder(taker)), x);
  }

  /** Writing back a match leaves a table behind another as far behind as it was. */
  lemma WrittenLags(pairs: Pairs, low: Rows, high: Rows, r: Row, p: Placed, x: string)
    requires
      && RowsOk(pairs, low) && RowsOk(pairs, high) && FitAll(low, r.pair, r, p.trades)
      && FitAll(high, r.pair, r, p.trades)
    requires r.id in low && r.id in high && low[r.id] == r == high[r.id] && r.status == Pending && r.filled == 0
    requires p.rested == (r.kind == Limit && Gain(p.trades, r.id) < r.quantity)
    requires x in low && x in high && Lags(low[x], high[x])
    ensures var written, written' := WrittenBack(low, r, p)[x], WrittenBack(high, r, p)[x];
      RowOk(pairs, x, written) && (written'.Live() ==> Lags(written, written'))
  {
    hide FitAll;
    hide Gain;
    hide HasTraded;
    hide AdvanceAll;
    assert RowOk(pairs, x, low[x]) && RowOk(pairs, x, high[x]);
    hide RowsOk;
    WrittenFits(pairs, low, r, p, x);
    WrittenFits(pairs, high, r, p, x);
    hide WrittenBack;
  }

  /** An order that is live after the match is as the match has written it back, and no less filled than before. */
  lemma AppliedLive(pairs: Pairs, rows: Rows, accounts: Accounts, b: Book, taker: Row, x: string)
    requires Submitted(pairs, rows, accounts, b, taker) && x in rows
    ensures var p := Place(b, ToEngineOrder(taker));
      var r := Applied(rows, taker, p)[x];
      && r == rows[x].(filled := r.filled, status := r.status) && rows[x].filled <= r.filled
      && (r.Live() ==> rows[x].Live() && r == WrittenBack(rows, taker, p)[x] && !HasId(p.cancelled, x))
  {
    hide Match;
    hide Place;
    hide Covered;
    hide AdvanceAll;
    hide BookStored;
    hide WrittenBack;
    hide Applied;
    hide Gain;
    hide HasTraded;
    var p := Place(b, ToEngineOrder(taker));
    AppliedSame(pairs, rows, accounts, b, taker, x);
    AppliedRow(rows, taker, p, x);
    SubmittedMeets(pairs, rows, accounts, b, taker);
    TakerWritten(pairs, rows, accounts, b, taker);
    MatchFits(rows, taker, Arriving(b, taker), b.Queue(Opposite(taker.side)), taker.pair);
    WrittenFits(pairs, rows, taker, p, x);
  }

  /** The settlement pays for trades in turn until one is refused, and what remains is covered. */
  lemma Settles(pairs: Pairs, w: World, booked: Rows, id: string, user: string, req: Request)
    requires SafeBy(pairs, w, booked) && id !in w.rows && Accepted(pairs, w, id, user, req)
    ensures var r, trades := NewRow(id, user, req), TradesFor(w, id, user, req);
      var accounts, low := Reserved(w.accounts, pairs[req.pair], r).value, Standing(w.rows, booked)[id := r];
      var s := SettleAll(accounts, w.rows[id := r], pairs[req.pair], r, trades);
      var k := SettledCount(accounts, w.rows[id := r], pairs[req.pair], r, trades);
      && Covered(pairs, AdvanceAll(low, trades[..k]), s.accounts)
      && (s.error == None <==> k == |trades|) && (r.kind == Limit ==> k == |trades|)
  {
    hide Simulates;
    hide Reserved;
    hide Match;
    hide Place;
    hide Covered;
    hide FitAll;
    hide SettleAll;
    hide SettledCount;
    hide AdvanceAll;
    hide Mirrors;
    assert req.pair in pairs;
    hide Rejection;
    var r, trades := NewRow(id, user, req), TradesFor(w, id, user, req);
    var accounts, low := Reserved(w.accounts, pairs[req.pair], r).value, Standing(w.rows, booked)[id := r];
    Arrives(pairs, w, booked, id, user, req);
    FitEach(pairs, low, req.pair, r, trades);
    SettleSame(accounts, w.rows[id := r], low, pairs[req.pair], r, trades);
    SettlePrefix(pairs, low, low, accounts, req.pair, r, trades);
  }

  lemma MirrorsRest(booked: Rows, books: Books, id: string)
    requires Mirrors(booked, books) && id in booked
    ensures HasId(BookOf(books, booked[id].pair).Queue(booked[id].side), id)
  {
    assert LiveRests(booked, books);
  }

  /** The maker of a trade that is not the last is queued no more. */
  lemma MakerUnqueued(pairs: Pairs, rows: Rows, accounts: Accounts, b: Book, taker: Row, i: nat)
    requires Submitted(pairs, rows, accounts, b, taker) && i + 1 < |MatchOf(b, taker).trades|
    ensures var t, p := MatchOf(b, taker).trades[i], Place(b, ToEngineOrder(taker));
      && t.takerId == taker.id && t.makerId in rows && rows[t.makerId].pair == taker.pair
      && rows[t.makerId].side == Opposite(taker.side) && !HasId(p.book.Queue(Opposite(taker.side)), t.makerId)
  {
    hide Match;
    hide Place;
    hide Covered;
    hide FitAll;
    hide BookStored;
    var q := b.Queue(Opposite(taker.side));
    SubmittedMeets(pairs, rows, accounts, b, taker);
    MatchFits(rows, taker, Arriving(b, taker), q, taker.pair);
    hide Submitted;
    hide RowsOk;
    FitEach(pairs, rows, taker.pair, taker, MatchOf(b, taker).trades);
    EarlierMakersGone(Arriving(b, taker), q, i);
    PlaceParts(b, ToEngineOrder(taker));
  }

  /** The maker of a trade that is not the last rests no more. */
  lemma MakerGone(pairs: Pairs, w: World, booked: Rows, id: string, user: string, req: Request, i: nat)
    requires SafeBy(pairs, w, booked) && id !in w.rows && Accepted(pairs, w, id, user, req)
    requires i + 1 < |TradesFor(w, id, user, req)|
    ensures var r, trades := NewRow(id, user, req), TradesFor(w, id, user, req);
      var p, high := Place(BookOf(w.books, req.pair), ToEngineOrder(r)), booked[id := r];
      trades[i].makerId !in LiveLimits(Applied(high, r, p)) && trades[i].takerId == id
  {
    hide Reserved;
    hide Applied;
    hide Place;
    hide Match;
    hide Covered;
    hide FitAll;
    var r, b := NewRow(id, user, req), BookOf(w.books, req.pair);
    var p, high := Place(b, ToEngineOrder(r)), booked[id := r];
    var accounts := Reserved(w.accounts, pairs[req.pair], r).value;
    var x := TradesFor(w, id, user, req)[i].makerId;
    hide Accepted;
    hide SafeBy;
    hide Submitted;
    hide Mirrors;
    hide RowsOk;
    Arrives(pairs, w, booked, id, user, req);
    NextMirrors(pairs, w, booked, id, user, req);
    MakerUnqueued(pairs, high, accounts, b, r, i);
    if x in LiveLimits(Applied(high, r, p)) {
      AppliedLive(pairs, high, accounts, b, r, x);
      MirrorsRest(LiveLimits(Applied(high, r, p)), w.books[req.pair := p.book], x);
    }
  }

  // ----- a settlement that is refused

  /** The rows that still rest have not been settled, so that what they may have to pay is still locked. */
  lemma UnsettledCovered(pairs: Pairs, w: World, booked: Rows, id: string, user: string, req: Request)
    requires SafeBy(pairs, w, booked) && id !in w.rows && Accepted(pairs, w, id, user, req)
    requires var r := NewRow(id, user, req);
      SettleAll(Reserved(w.accounts, pairs[req.pair], r).value, w.rows[id := r], pairs[req.pair], r,
                TradesFor(w, id, user, req)).error.Some?
    ensures var r := NewRow(id, user, req);
      var p := Place(BookOf(w.books, req.pair), ToEngineOrder(r));
      var next := LiveLimits(Applied(booked[id := r], r, p));
      && r.kind == Market && next.Keys <= booked.Keys
      && (forall x :: x in next ==> x != id && Lags(w.rows[x], next[x]))
      && Covered(pairs, Standing(w.rows, next),
                 SettleAll(Reserved(w.accounts, pairs[req.pair], r).value, w.rows[id := r], pairs[req.pair], r,
                           TradesFor(w, id, user, req)).accounts)
  {
    hide Reserved;
    hide Applied;
    hide Place;
    hide Match;
    hide Covered;
    hide FitAll;
    hide SettleAll;
    hide SettledCount;
    hide AdvanceAll;
    hide Mirrors;
    hide RowsOk;
    var r, b, trades := NewRow(id, user, req), BookOf(w.books, req.pair), TradesFor(w, id, user, req);
    var p, high, low := Place(b, ToEngineOrder(r)), booked[id := r], Standing(w.rows, booked)[id := r];
    var accounts, next := Reserved(w.accounts, pairs[req.pair], r).value, LiveLimits(Applied(high, r, p));
    var k := SettledCount(accounts, w.rows[id := r], pairs[req.pair], r, trades);
    Settles(pairs, w, booked, id, user, req);
    Arrives(pairs, w, booked, id, user, req);
    AppliedRow(high, r, p, id);
    AppliedLive(pairs, high, accounts, b, r, id);
    hide Accepted;
    hide TradesFor;
    hide Submitted;
    forall x | x in next
      ensures x != id && x in booked && Lags(w.rows[x], next[x]) && !HasMaker(trades[..k], id, x)
    {
      AppliedLive(pairs, high, accounts, b, r, x);
      forall i | 0 <= i < k ensures trades[..k][i].makerId != x && trades[..k][i].takerId == id {
        MakerGone(pairs, w, booked, id, user, req, i);
      }
    }
    UnsettledLess(pairs, low, trades[..k], id, Standing(w.rows, next),
                  SettleAll(accounts, w.rows[id := r], pairs[req.pair], r, trades).accounts);
  }

  /** Some trade was made by the order, or not taken by the taker. */
  predicate HasMaker(trades: seq<Trade>, taker: string, id: string) {
    exists i :: 0 <= i < |trades| && (trades[i].makerId == id || trades[i].takerId != taker)
  }

  lemma UnsettledLess(pairs: Pairs, rows: Rows, trades: seq<Trade>, taker: string, left: Rows, accounts: Accounts)
    requires Covered(pairs, AdvanceAll(rows, trades), accounts)
    requires forall x :: x in left ==> x in rows && left[x] == rows[x] && x != taker && !HasMaker(trades, taker, x)
    ensures Covered(pairs, left, accounts)
  {
    hide AdvanceAll;
    hide Owed;
    forall x | x in left ensures x in AdvanceAll(rows, trades) && AdvanceAll(rows, trades)[x] == left[x] {
      forall i | 0 <= i < |trades| ensures trades[i].makerId != x && trades[i].takerId != x {
        assert !HasMaker(trades, taker, x);
      }
      AdvanceOthers(rows, trades, x);
    }
    CoveredLess(pairs, AdvanceAll(rows, trades), left, accounts);
  }

  lemma RefusedSafe(pairs: Pairs, w: World, booked: Rows, id: string, user: string, req: Request)
    requires SafeBy(pairs, w, booked) && id !in w.rows && Accepted(pairs, w, id, user, req)
    requires var r := NewRow(id, user, req);
      SettleAll(Reserved(w.accounts, pairs[req.pair], r).value, w.rows[id := r], pairs[req.pair], r,
                TradesFor(w, id, user, req)).error.Some?
    ensures Safe(pairs, CreateOrder(w, pairs, id, user, req).world)
  {
    hide Reserved;
    hide Applied;
    hide Place;
    hide Match;
    hide Covered;
    hide SettleAll;
    hide Mirrors;
    hide FitAll;
    hide Submitted;
    hide CreateOrder;
    hide Behind;
    hide Lags;
    hide RowsOk;
    var r, b := NewRow(id, user, req), BookOf(w.books, req.pair);
    var p := Place(b, ToEngineOrder(r));
    var next := LiveLimits(Applied(booked[id := r], r, p));
    hide Accepted;
    Arrives(pairs, w, booked, id, user, req);
    NextMirrors(pairs, w, booked, id, user, req);
    UnsettledCovered(pairs, w, booked, id, user, req);
    CreateUnfolds(pairs, w, id, user, req);
    PlaceParts(b, ToEngineOrder(r));
    var w' := CreateOrder(w, pairs, id, user, req).world;
    assert Standing(w'.rows, next) == Standing(w.rows, next);
    assert SafeBy(pairs, w', next);
  }

  // ----- a settlement that goes through

  /** A new order rests exactly if it is a limit order that has not gained all it wanted. */
  lemma RestsIfUnfilled(pairs: Pairs, low: Rows, high: Rows, accounts: Accounts, b: Book, r: Row)
    requires Behind(pairs, low, high, accounts, b, r)
    ensures var p := Place(b, ToEngineOrder(r));
      && p.trades == MatchOf(b, r).trades && p.cancelled == MatchOf(b, r).cancelled
      && p.rested == (r.kind == Limit && Gain(p.trades, r.id) < r.quantity)
      && FitAll(high, r.pair, r, p.trades) && RowsOk(pairs, high)
  {
    hide Place;
    hide Match;
    hide Covered;
    hide Gain;
    hide FitAll;
    hide BookStored;
    TakerWritten(pairs, high, accounts, b, r);
    SubmittedMeets(pairs, high, accounts, b, r);
    MatchFits(high, r, Arriving(b, r), b.Queue(Opposite(r.side)), r.pair);
  }

  /** One stored row after a match that is paid for: unchanged if it did not rest, and else no nearer to the books. */
  lemma AppliedAt(pairs: Pairs, rows: Rows, low: Rows, high: Rows, accounts: Accounts, b: Book, r: Row, x: string)
    requires Behind(pairs, low, high, accounts, b, r) && RowsOk(pairs, rows) && x in rows
    requires forall y :: y in low ==> y in rows && rows[y] == low[y]
    ensures var p := Place(b, ToEngineOrder(r));
      && RowOk(pairs, x, Applied(rows, r, p)[x])
      && (x in low ==> Applied(low, r, p)[x] == Applied(rows, r, p)[x])
      && (x in low && Applied(high, r, p)[x].Live() ==> Lags(Applied(low, r, p)[x], Applied(high, r, p)[x]))
  {
    hide Place;
    hide Match;
    hide Covered;
    hide Gain;
    hide WrittenBack;
    hide Applied;
    hide FitAll;
    hide BookStored;
    var p, trades := Place(b, ToEngineOrder(r)), MatchOf(b, r).trades;
    RestsIfUnfilled(pairs, low, high, accounts, b, r);
    assert r.status == Pending && r.filled == 0 && r.id in high && high[r.id] == r;
    hide Submitted;
    FitEach(pairs, low, r.pair, r, trades);
    AppliedRow(rows, r, p, x);
    assert RowOk(pairs, x, rows[x]);
    if x in low {
      AppliedRow(low, r, p, x);
      AppliedRow(high, r, p, x);
      AppliedLive(pairs, high, accounts, b, r, x);
      WrittenLags(pairs, low, high, r, p, x);
      WrittenSame(rows, low, r, p, x);
    } else {
      WrittenApart(rows, r, p, x);
    }
  }

  lemma AppliedTable(pairs: Pairs, w: World, booked: Rows, id: string, user: string, req: Request)
    requires SafeBy(pairs, w, booked) && id !in w.rows && Accepted(pairs, w, id, user, req)
    ensures var r := NewRow(id, user, req);
      var p, rows, low :=
        Place(BookOf(w.books, req.pair), ToEngineOrder(r)), w.rows[id := r], Standing(w.rows, booked)[id := r];
      var next := LiveLimits(Applied(booked[id := r], r, p));
      && RowsOk(pairs, Applied(rows, r, p)) && Applied(low, r, p).Keys == low.Keys
      && next.Keys <= Applied(low, r, p).Keys <= Applied(rows, r, p).Keys
      && (forall x :: x in low ==> Applied(low, r, p)[x] == Applied(rows, r, p)[x])
      && forall x :: x in next ==> Lags(Applied(rows, r, p)[x], next[x])
  {
    hide Reserved;
    hide Place;
    hide Match;
    hide Covered;
    hide Mirrors;
    hide FitAll;
    hide Applied;
    hide Submitted;
    hide Lags;
    var r, b := NewRow(id, user, req), BookOf(w.books, req.pair);
    var p, rows, low, high :=
      Place(b, ToEngineOrder(r)), w.rows[id := r], Standing(w.rows, booked)[id := r], booked[id := r];
    var accounts := Reserved(w.accounts, pairs[req.pair], r).value;
    hide Accepted;
    Arrives(pairs, w, booked, id, user, req);
    AppliedRow(rows, r, p, id);
    AppliedRow(low, r, p, id);
    AppliedRow(high, r, p, id);
    hide RowOk;
    forall x | x in rows
      ensures RowOk(pairs, x, Applied(rows, r, p)[x])
      ensures x in low ==> Applied(low, r, p)[x] == Applied(rows, r, p)[x]
      ensures x in low && Applied(high, r, p)[x].Live() ==> Lags(Applied(low, r, p)[x], Applied(high, r, p)[x])
    {
      AppliedAt(pairs, rows, low, high, accounts, b, r, x);
    }
  }

  lemma WrittenSame(rows: Rows, other: Rows, r: Row, p: Placed, x: string)
    requires x in rows && x in other && rows[x] == other[x] && r.id in rows && r.id in other
    ensures WrittenBack(rows, r, p)[x] == WrittenBack(other, r, p)[x]
  {
  }

  lemma WrittenApart(rows: Rows, r: Row, p: Placed, x: string)
    requires x in rows && r.id in rows && x != r.id && !HasTraded(p.trades, x)
    ensures WrittenBack(rows, r, p)[x] == rows[x]
  {
  }

  lemma CancelLags(pairs: Pairs, low: Rows, high: Rows, r: Row, p: Placed, x: string)
    requires
      && RowsOk(pairs, low) && RowsOk(pairs, high) && FitAll(low, r.pair, r, p.trades)
      && FitAll(high, r.pair, r, p.trades)
    requires r.id in low && r.id in high && low[r.id] == r == high[r.id] && r.status == Pending && r.filled == 0
    requires p.rested == (r.kind == Limit && Gain(p.trades, r.id) < r.quantity)
    requires x in low && x in high && Lags(low[x], high[x]) && WrittenBack(high, r, p)[x].Live()
    ensures WrittenBack(low, r, p)[x].Live() && WrittenBack(low, r, p)[x].pair == WrittenBack(high, r, p)[x].pair
  {
    hide WrittenBack;
    hide FitAll;
    hide Gain;
    hide RowsOk;
    WrittenLags(pairs, low, high, r, p, x);
  }

  /** Written back, the rows that lag behind are still covered. */
  lemma LowCovered(pairs: Pairs, low: Rows, high: Rows, accounts: Accounts, b: Book, r: Row, settled: Accounts)
    requires Behind(pairs, low, high, accounts, b, r)
    requires Covered(pairs, AdvanceAll(low, MatchOf(b, r).trades), settled)
    ensures Covered(pairs, WrittenBack(low, r, Place(b, ToEngineOrder(r))), settled)
    ensures forall a :: Owed(pairs, WrittenBack(low, r, Place(b, ToEngineOrder(r))), a) ==
                        Owed(pairs, AdvanceAll(low, MatchOf(b, r).trades), a)
  {
    hide Place;
    hide Match;
    hide Covered;
    hide Gain;
    hide WrittenBack;
    hide FitAll;
    hide BookStored;
    hide AdvanceAll;
    hide Lags;
    hide HasTraded;
    var p, after := Place(b, ToEngineOrder(r)), AdvanceAll(low, MatchOf(b, r).trades);
    TakerWritten(pairs, high, accounts, b, r);
    RestsIfUnfilled(pairs, low, high, accounts, b, r);
    assert r.status == Pending && r.filled == 0;
    hide Submitted;
    WrittenKeys(low, r, p);
    WrittenFits(pairs, low, r, p, r.id);
    forall x | x in after
      ensures var written := WrittenBack(low, r, p)[x];
        && written == after[x].(status := written.status)
        && (written.Live() == after[x].Live() ||
            (after[x].Live() && (after[x].Remaining() == 0 || after[x].kind == Market)))
    {
      WrittenFits(pairs, low, r, p, x);
    }
    hide RowsOk;
    StatusesKeep(pairs, after, WrittenBack(low, r, p), settled);
  }

  /** The makers to be cancelled are live among them. */
  lemma LowCancellable(pairs: Pairs, low: Rows, high: Rows, accounts: Accounts, b: Book, r: Row)
    requires Behind(pairs, low, high, accounts, b, r)
    ensures var p := Place(b, ToEngineOrder(r));
      Cancellable(WrittenBack(low, r, p), p.cancelled, r.pair) && !HasId(p.cancelled, r.id)
  {
    hide Place;
    hide Match;
    hide Covered;
    hide Gain;
    hide WrittenBack;
    hide FitAll;
    hide BookStored;
    hide RowsOk;
    var p := Place(b, ToEngineOrder(r));
    RestsIfUnfilled(pairs, low, high, accounts, b, r);
    WrittenKeys(low, r, p);
    WrittenKeys(high, r, p);
    CancelledLive(pairs, high, accounts, b, r);
    forall i | 0 <= i < |p.cancelled|
      ensures var x := p.cancelled[i].id;
        x in low && WrittenBack(low, r, p)[x].Live() && WrittenBack(low, r, p)[x].pair == r.pair
    {
      CancelLags(pairs, low, high, r, p, p.cancelled[i].id);
    }
  }

  /** If the settlement goes through, the result is applied in full, and what rests is covered. */
  lemma PaidApplied(pairs: Pairs, rows: Rows, low: Rows, high: Rows, accounts: Accounts, b: Book, r: Row)
    requires Behind(pairs, low, high, accounts, b, r) && (forall y :: y in low ==> y in rows && rows[y] == low[y])
    requires var s := SettleAll(accounts, rows, pairs[r.pair], r, MatchOf(b, r).trades);
      s.error == None && Covered(pairs, AdvanceAll(low, MatchOf(b, r).trades), s.accounts)
    ensures var p := Place(b, ToEngineOrder(r));
      var done := ApplyResult(rows, accounts, pairs[r.pair], r, p);
      var s := SettleAll(accounts, rows, pairs[r.pair], r, MatchOf(b, r).trades).accounts;
      && done.error == None && done.rows == Applied(rows, r, p) && Covered(pairs, Applied(low, r, p), done.accounts)
      && done.accounts == CancelMakers(WrittenBack(low, r, p), s, pairs[r.pair], p.cancelled).accounts
  {
    hide Place;
    hide Match;
    hide Covered;
    hide WrittenBack;
    hide FitAll;
    hide BookStored;
    hide AdvanceAll;
    hide SettleAll;
    hide Lags;
    hide Cancellable;
    var p, s := Place(b, ToEngineOrder(r)), SettleAll(accounts, rows, pairs[r.pair], r, MatchOf(b, r).trades).accounts;
    TakerWritten(pairs, high, accounts, b, r);
    LowCovered(pairs, low, high, accounts, b, r, s);
    LowCancellable(pairs, low, high, accounts, b, r);
    hide Behind;
    CancelMakersKeeps(pairs, WrittenBack(low, r, p), s, p.cancelled, r.pair);
    CancelledAgree(rows, low, r, p);
    CancelSame(WrittenBack(rows, r, p), WrittenBack(low, r, p), s, pairs[r.pair], p.cancelled);
    ApplyUnfolds(rows, accounts, pairs[r.pair], r, p);
  }

  lemma CancelledAgree(rows: Rows, low: Rows, r: Row, p: Placed)
    requires r.id in rows && r.id in low && (forall y :: y in low ==> y in rows && rows[y] == low[y])
    requires Cancellable(WrittenBack(low, r, p), p.cancelled, r.pair)
    ensures var written, written' := WrittenBack(rows, r, p), WrittenBack(low, r, p);
      DistinctIds(p.cancelled) && forall i :: 0 <= i < |p.cancelled| ==>
        && p.cancelled[i].id in written && p.cancelled[i].id in written'
        && written[p.cancelled[i].id] == written'[p.cancelled[i].id]
  {
    hide WrittenBack;
    WrittenKeys(rows, r, p);
    WrittenKeys(low, r, p);
    forall i | 0 <= i < |p.cancelled|
      ensures var x := p.cancelled[i].id; x in low && WrittenBack(rows, r, p)[x] == WrittenBack(low, r, p)[x]
    {
      WrittenSame(rows, low, r, p, p.cancelled[i].id);
    }
  }

  lemma PaidSafe(pairs: Pairs, w: World, booked: Rows, id: string, user: string, req: Request)
    requires SafeBy(pairs, w, booked) && id !in w.rows && Accepted(pairs, w, id, user, req)
    requires var r := NewRow(id, user, req);
      SettleAll(Reserved(w.accounts, pairs[req.pair], r).value, w.rows[id := r], pairs[req.pair], r,
                TradesFor(w, id, user, req)).error.None?
    ensures Safe(pairs, CreateOrder(w, pairs, id, user, req).world) && CreateOrder(w, pairs, id, user, req).result.Ok?
  {
    hide Reserved;
    hide Applied;
    hide Place;
    hide Match;
    hide Covered;
    hide SettleAll;
    hide SettledCount;
    hide AdvanceAll;
    hide Mirrors;
    hide Behind;
    hide CreateOrder;
    hide ApplyResult;
    hide Lags;
    hide RowsOk;
    var r, b := NewRow(id, user, req), BookOf(w.books, req.pair);
    var p, rows, low, high :=
      Place(b, ToEngineOrder(r)), w.rows[id := r], Standing(w.rows, booked)[id := r], booked[id := r];
    var next, accounts := LiveLimits(Applied(high, r, p)), Reserved(w.accounts, pairs[req.pair], r).value;
    var trades := TradesFor(w, id, user, req);
    hide Accepted;
    Arrives(pairs, w, booked, id, user, req);
    NextMirrors(pairs, w, booked, id, user, req);
    Settles(pairs, w, booked, id, user, req);
    assert trades[..|trades|] == trades;
    PaidApplied(pairs, rows, low, high, accounts, b, r);
    AppliedTable(pairs, w, booked, id, user, req);
    CreateUnfolds(pairs, w, id, user, req);
    var w' := CreateOrder(w, pairs, id, user, req).world;
    PartCovered(pairs, Applied(low, r, p), Standing(w'.rows, next), w'.accounts);
    assert SafeBy(pairs, w', next);
  }

  lemma PartCovered(pairs: Pairs, rows: Rows, part: Rows, accounts: Accounts)
    requires Covered(pairs, rows, accounts) && forall x :: x in part ==> x in rows && part[x] == rows[x]
    ensures Covered(pairs, part, accounts)
  {
    hide Owed;
    CoveredLess(pairs, rows, part, accounts);
  }

  /** An accepted order leaves a safe world, settled or refused, and a limit order is never refused. */
  lemma CreateSafe(pairs: Pairs, w: World, id: string, user: string, req: Request)
    requires Safe(pairs, w) && id !in w.rows && Accepted(pairs, w, id, user, req)
    ensures Safe(pairs, CreateOrder(w, pairs, id, user, req).world)
    ensures req.kind == "limit" ==> CreateOrder(w, pairs, id, user, req).result.Ok?
  {
    hide SafeBy;
    hide SettleAll;
    hide SettledCount;
    hide CreateOrder;
    hide Covered;
    hide TradesFor;
    hide AdvanceAll;
    hide Reserved;
    var booked :| SafeBy(pairs, w, booked);
    var r := NewRow(id, user, req);
    var accounts, trades := Reserved(w.accounts, pairs[req.pair], r).value, TradesFor(w, id, user, req);
    hide Safe;
    hide Accepted;
    Settles(pairs, w, booked, id, user, req);
    if SettleAll(accounts, w.rows[id := r], pairs[req.pair], r, trades).error.None? {
      PaidSafe(pairs, w, booked, id, user, req);
    } else {
      RefusedSafe(pairs, w, booked, id, user, req);
    }
  }

  // ----- cancelling and starting up

  /** Only a resting order is found by the engine. */
  lemma FoundIfResting(pairs: Pairs, w: World, booked: Rows, id: string)
    requires SafeBy(pairs, w, booked) && id in w.rows
    ensures var b := BookOf(w.books, w.rows[id].pair);
      && (Cancel(b, id).order.Some? <==> id in booked)
      && (id in booked ==> booked[id].pair == w.rows[id].pair && HasId(b.Queue(booked[id].side), id))
      && (id !in booked ==> Cancel(b, id).book == b)
  {
    var b := BookOf(w.books, w.rows[id].pair);
    assert BookStored(booked, b, w.rows[id].pair);
    FindHas(b.bids, id);
    FindHas(b.asks, id);
    if id in booked {
      assert Lags(w.rows[id], booked[id]);
      CancelFinds(booked, b, w.rows[id].pair, id);
    } else {
      assert forall i :: 0 <= i < |b.bids| ==> b.bids[i].id in booked;
      assert forall i :: 0 <= i < |b.asks| ==> b.asks[i].id in booked;
    }
  }

  lemma CancelSafe(pairs: Pairs, w: World, user: string, id: string)
    requires Safe(pairs, w)
    ensures Safe(pairs, CancelOrder(w, pairs, user, id).world)
  {
    hide SafeBy;
    hide Cancel;
    hide Returned;
    var booked :| SafeBy(pairs, w, booked);
    if id in w.rows && w.rows[id].user == user && w.rows[id].Live() {
      FoundIfResting(pairs, w, booked, id);
      if id in booked {
        CancelledSafe(pairs, w, booked, user, id);
      } else {
        var w' := CancelOrder(w, pairs, user, id).world;
        assert forall p :: BookOf(w'.books, p) == BookOf(w.books, p);
        SameBooks(pairs, w, w', booked);
      }
    }
  }

  lemma SameBooks(pairs: Pairs, w: World, w': World, booked: Rows)
    requires SafeBy(pairs, w, booked) && w'.rows == w.rows && w'.accounts == w.accounts
    requires forall p :: BookOf(w'.books, p) == BookOf(w.books, p)
    ensures Safe(pairs, w')
  {
    hide Covered;
    hide BookStored;
    forall p ensures BookStored(booked, BookOf(w'.books, p), p) { assert BookStored(booked, BookOf(w.books, p), p); }
    assert SafeBy(pairs, w', booked);
  }

  function CancelRow(rows: Rows, id: string): Rows
    requires id in rows
  {
    rows[id := rows[id].(status := Status.Cancelled)]
  }

  /** What is left once an order is cancelled, taken off the books, and its reserve released. */
  lemma WithoutOne(pairs: Pairs, w: World, w': World, booked: Rows, id: string)
    requires SafeBy(pairs, w, booked) && id in booked && w'.rows == CancelRow(w.rows, id)
    requires Mirrors(LiveLimits(CancelRow(booked, id)), w'.books)
    requires Covered(pairs, CancelRow(Standing(w.rows, booked), id), w'.accounts)
    ensures Safe(pairs, w')
  {
    hide Mirrors;
    hide Covered;
    hide RowOk;
    var next := LiveLimits(CancelRow(booked, id));
    forall x | x in next ensures x in booked && x != id && next[x] == booked[x] {}
    PartCovered(pairs, CancelRow(Standing(w.rows, booked), id), Standing(w'.rows, next), w'.accounts);
    CancelledRowsOk(pairs, w.rows, id);
    assert RowsOk(pairs, next);
    hide RowsOk;
    assert SafeBy(pairs, w', next);
  }

  lemma CancelledRowsOk(pairs: Pairs, rows: Rows, id: string)
    requires RowsOk(pairs, rows) && id in rows
    ensures RowsOk(pairs, CancelRow(rows, id))
  {
    forall x | x in rows ensures RowOk(pairs, x, CancelRow(rows, id)[x]) { assert RowOk(pairs, x, rows[x]); }
  }

  lemma CancelledSafe(pairs: Pairs, w: World, booked: Rows, user: string, id: string)
    requires SafeBy(pairs, w, booked) && id in booked && id in w.rows && w.rows[id].user == user && w.rows[id].Live()
    ensures Safe(pairs, CancelOrder(w, pairs, user, id).world)
  {
    hide Simulates;
    hide Cancel;
    hide Unreserved;
    hide Covered;
    FoundIfResting(pairs, w, booked, id);
    assert RowOk(pairs, id, w.rows[id]) && Lags(w.rows[id], booked[id]);
    CancelledSimulates(World(booked, w.accounts, w.books), id);
    ReleaseKeeps(pairs, Standing(w.rows, booked), w.accounts, id);
    var w' := CancelOrder(w, pairs, user, id).world;
    LiveMirrors(CancelRow(booked, id), w'.books);
    hide Mirrors;
    hide RowOk;
    WithoutOne(pairs, w, w', booked, id);
  }

  lemma UnreservedSolvent(pairs: Pairs, accounts: Accounts, r: Row)
    requires Solvent(accounts) && r.pair in pairs && RowOk(pairs, r.id, r)
    ensures Solvent(Unreserved(accounts, pairs[r.pair], r))
  {
    hide Pair.Cost;
    if r.kind == Limit {
      CostSplit(pairs[r.pair], r.side, r.Remaining(), r.Remaining(), r.price);
    }
  }

  /** The clean-up may release more than was still locked for an order, but never more than is locked. */
  lemma {:induction false} CleanupSolvent(pairs: Pairs, rows: Rows, accounts: Accounts, ids: seq<string>)
    requires Solvent(accounts) && RowsOk(pairs, rows)
    ensures var done := Cleanup(rows, accounts, pairs, ids); Solvent(done.1) && RowsOk(pairs, done.0)
    decreases ids
  {
    if ids != [] && ids[0] in rows {
      hide Unreserved;
      hide Solvent;
      var r := rows[ids[0]];
      assert RowOk(pairs, ids[0], r);
      UnreservedSolvent(pairs, accounts, r);
      var rows' := rows[r.id := r.(status := Status.Cancelled)];
      forall x | x in rows' ensures RowOk(pairs, x, rows'[x]) { assert RowOk(pairs, x, rows[x]); }
      CleanupSolvent(pairs, rows', Returned(accounts, pairs, r), ids[1..]);
    }
  }

  lemma NothingRests()
    ensures Simulates(map[], map[])
  {
    forall p ensures BookStored(map[], BookOf(map[], p), p) {}
  }

  lemma RestartSafe(pairs: Pairs, w: World, live: seq<string>)
    requires Safe(pairs, w)
    ensures Safe(pairs, After(pairs, w, Restart(live)))
  {
    hide Simulates;
    var booked :| SafeBy(pairs, w, booked);
    CleanupSolvent(pairs, w.rows, w.accounts, live);
    var w' := After(pairs, w, Restart(live));
    var none: Rows := map[];
    NothingRests();
    assert Standing(w'.rows, none) == none;
    NothingOwed(pairs, none);
    forall a ensures Owed(pairs, none, a) <= LockedOf(w'.accounts, a) {}
    assert SafeBy(pairs, w', none);
  }

  // ----- runs

  /** All that is asked of an event: the id of a new order is new. */
  predicate Proper(w: World, e: Event) {
    e.Create? ==> e.id !in w.rows
  }

  ghost predicate ProperRun(pairs: Pairs, w: World, events: seq<Event>)
    decreases events
  {
    events != [] ==> Proper(w, events[0]) && ProperRun(pairs, After(pairs, w, events[0]), events[1..])
  }

  lemma StepSafe(pairs: Pairs, w: World, e: Event)
    requires Safe(pairs, w) && Proper(w, e)
    ensures Safe(pairs, After(pairs, w, e))
  {
    hide Safe;
    match e
    case Create(id, user, req) =>
      if Accepted(pairs, w, id, user, req) {
        CreateSafe(pairs, w, id, user, req);
      } else {
        NotAccepted(pairs, w, id, user, req);
      }
    case CancelBy(user, id) =>
      CancelSafe(pairs, w, user, id);
    case Restart(live) =>
      RestartSafe(pairs, w, live);
  }

  /** Along every run wallets stay solvent, and the locked funds cover what rests in the books. */
  lemma {:induction false} RunStaysSafe(pairs: Pairs, w: World, events: seq<Event>)
    requires Safe(pairs, w) && ProperRun(pairs, w, events)
    ensures Safe(pairs, RunOf(pairs, w, events))
    decreases events
  {
    if events != [] {
      hide Safe;
      hide After;
      StepSafe(pairs, w, events[0]);
      RunStaysSafe(pairs, After(pairs, w, events[0]), events[1..]);
    }
  }
}
