/** Applying the result of a match to the table and the wallets. */
module OrderApply {
  import opened MatchingFills
  import opened MatchingModel
  import opened MatchingRuns
  import opened OrderModel
  import opened OrderReserves
  import opened OrderRuns
  import opened OrderSettlement
  import opened OrderSimulation
  import opened OrderWallets
  import opened Wrappers

  /** The row of a resting order: open until its first fill. */
  predicate Stored(r: Row, o: Ord, pair: string) {
    Resembles(r, o, pair) && r.status == if o.filled > 0 then PartiallyFilled else Open
  }

  ghost predicate QueueStored(rows: Rows, q: seq<Ord>, pair: string) {
    forall i :: 0 <= i < |q| ==> q[i].id in rows && Stored(rows[q[i].id], q[i], pair)
  }

  ghost predicate BookStored(rows: Rows, b: Book, pair: string) {
    BookOk(b) && QueueStored(rows, b.bids, pair) && QueueStored(rows, b.asks, pair)
  }

  /** A new order has its row and its funds, and the book and the table agree on the resting ones. */
  ghost predicate Submitted(pairs: Pairs, rows: Rows, accounts: Accounts, b: Book, taker: Row) {
    && taker.id in rows && rows[taker.id] == taker && taker.status == Pending && taker.filled == 0
    && taker.pair in pairs && Covered(pairs, rows, accounts) && BookStored(rows, b, taker.pair)
    && !HasId(b.bids, taker.id) && !HasId(b.asks, taker.id)
  }

  function Arriving(b: Book, taker: Row): Ord { ToEngineOrder(taker).(sequence := b.seqNo + 1) }

  /** The match that `Place` runs for a new order. */
  function MatchOf(b: Book, taker: Row): MatchingModel.Outcome {
    Match(Arriving(b, taker), b.Queue(Opposite(taker.side)))
  }

  lemma QueueInTable(rows: Rows, q: seq<Ord>, pair: string)
    requires QueueStored(rows, q, pair)
    ensures InTable(rows, q, pair)
  {
    forall i | 0 <= i < |q| ensures q[i].id in rows && Resembles(rows[q[i].id], q[i], pair) {
      assert Stored(rows[q[i].id], q[i], pair);
    }
  }

  lemma SubmittedMeets(pairs: Pairs, rows: Rows, accounts: Accounts, b: Book, taker: Row)
    requires Submitted(pairs, rows, accounts, b, taker)
    ensures Admissible(b, ToEngineOrder(taker))
    ensures Meets(rows, Arriving(b, taker), b.Queue(Opposite(taker.side)), taker.pair)
    ensures Taking(rows, taker, Arriving(b, taker), taker.pair)
    ensures RowsOk(pairs, rows)
  {
    var side := Opposite(taker.side);
    var q := b.Queue(side);
    assert RowOk(pairs, taker.id, taker);
    FromSide(b, side);
    QueueInTable(rows, q, taker.pair);
    forall i | 0 <= i < |q| ensures q[i].side == side && q[i].Remaining() > 0 { assert MayRest(side, q[i], b.seqNo); }
  }

  // ----- the rows that are written back

  /** What the match has left of the taker's row. */
  lemma TakerWritten(pairs: Pairs, rows: Rows, accounts: Accounts, b: Book, taker: Row)
    requires Submitted(pairs, rows, accounts, b, taker)
    ensures var m, p := MatchOf(b, taker), Place(b, ToEngineOrder(taker));
      && p.trades == m.trades && p.cancelled == m.cancelled
      && p.rested == (taker.kind == Limit && m.taker.Remaining() > 0)
      && m.taker.filled == Gain(m.trades, taker.id) && m.taker == Arriving(b, taker).(filled := m.taker.filled)
      && AdvanceAll(rows, m.trades).Keys == rows.Keys
      && AdvanceAll(rows, m.trades)[taker.id] == taker.(filled := m.taker.filled)
  {
    hide Match;
    SubmittedMeets(pairs, rows, accounts, b, taker);
    var o, q := Arriving(b, taker), b.Queue(Opposite(taker.side));
    MatchFits(rows, taker, o, q, taker.pair);
    MatchTable(rows, taker, o, q, taker.pair);
    AdvanceGain(pairs, rows, taker.pair, taker, Match(o, q).trades, taker.id);
    PlaceParts(b, ToEngineOrder(taker));
  }

  lemma PlaceParts(b: Book, o: Ord)
    ensures var p, m := Place(b, o), Match(o.(sequence := b.seqNo + 1), b.Queue(Opposite(o.side)));
      && p.trades == m.trades && p.cancelled == m.cancelled && p.taker == m.taker
      && p.rested == (o.kind == Limit && m.taker.Remaining() > 0)
      && p.book.Queue(Opposite(o.side)) == m.queue
      && p.book.Queue(o.side) == (if p.rested then Insert(o.side, b.Queue(o.side), m.taker) else b.Queue(o.side))
      && m.taker == o.(sequence := b.seqNo + 1, filled := m.taker.filled)
  {
    TakerKept(o.(sequence := b.seqNo + 1), b.Queue(Opposite(o.side)));
  }

  /** A row as written back after some trades, next to the row that the trades have advanced. */
  predicate WrittenFrom(before: Row, advanced: Row, r: Row, taker: Row, rested: bool, traded: bool) {
    && r == advanced.(status := r.status) && advanced == before.(filled := advanced.filled)
    && (r.Live() == advanced.Live() || (advanced.Live() && (advanced.Remaining() == 0 || advanced.kind == Market)))
    && (r.id != taker.id && !traded ==> r == before)
    && (r.id != taker.id && traded ==>
          && before.Live() && before.kind == Limit && r.filled > before.filled
          && r.status == if r.Remaining() <= 0 then Status.Filled else PartiallyFilled)
    && (r.id == taker.id ==> r.status == DeriveStatus(advanced, rested))
  }

  /** Writing back changes the statuses of the advanced rows and nothing else. */
  lemma WrittenFits(pairs: Pairs, rows: Rows, taker: Row, p: Placed, id: string)
    requires RowsOk(pairs, rows) && FitAll(rows, taker.pair, taker, p.trades) && id in rows
    requires taker.id in rows && rows[taker.id] == taker && taker.status == Pending && taker.filled == 0
    requires p.rested == (taker.kind == Limit && Gain(p.trades, taker.id) < taker.quantity)
    ensures var after, r := AdvanceAll(rows, p.trades), WrittenBack(rows, taker, p)[id];
      && after.Keys == rows.Keys && RowOk(pairs, id, after[id]) && r.filled == rows[id].filled + Gain(p.trades, id)
      && Gain(p.trades, id) >= 0 && (HasTraded(p.trades, id) <==> Gain(p.trades, id) > 0)
      && WrittenFrom(rows[id], after[id], r, taker, p.rested, HasTraded(p.trades, id))
  {
    hide AdvanceAll;
    hide Gain;
    hide HasTraded;
    hide FitAll;
    AdvanceGain(pairs, rows, taker.pair, taker, p.trades, id);
    assert RowOk(pairs, id, AdvanceAll(rows, p.trades)[id]);
    assert RowOk(pairs, id, rows[id]);
  }

  lemma WrittenRow(pairs: Pairs, rows: Rows, accounts: Accounts, b: Book, taker: Row, id: string)
    requires Submitted(pairs, rows, accounts, b, taker) && id in rows
    ensures var p, after := Place(b, ToEngineOrder(taker)), AdvanceAll(rows, MatchOf(b, taker).trades);
      && id in after && RowOk(pairs, id, after[id])
      && WrittenFrom(rows[id], after[id], WrittenBack(rows, taker, p)[id], taker, p.rested, HasTraded(p.trades, id))
  {
    hide Match;
    hide Place;
    hide Covered;
    hide AdvanceAll;
    hide Gain;
    hide HasTraded;
    hide FitAll;
    hide Meets;
    hide BookStored;
    hide WrittenBack;
    hide WrittenFrom;
    SubmittedMeets(pairs, rows, accounts, b, taker);
    TakerWritten(pairs, rows, accounts, b, taker);
    MatchFits(rows, taker, Arriving(b, taker), b.Queue(Opposite(taker.side)), taker.pair);
    WrittenFits(pairs, rows, taker, Place(b, ToEngineOrder(taker)), id);
  }

  /** The makers that self-trade prevention took out are the taker's own live orders. */
  lemma CancelledLive(pairs: Pairs, rows: Rows, accounts: Accounts, b: Book, taker: Row)
    requires Submitted(pairs, rows, accounts, b, taker)
    ensures var p := Place(b, ToEngineOrder(taker));
      Cancellable(WrittenBack(rows, taker, p), p.cancelled, taker.pair) && !HasId(p.cancelled, taker.id)
  {
    hide Match;
    hide Place;
    hide Covered;
    hide AdvanceAll;
    hide BookStored;
    hide WrittenBack;
    SubmittedMeets(pairs, rows, accounts, b, taker);
    TakerWritten(pairs, rows, accounts, b, taker);
    var o, q, m := Arriving(b, taker), b.Queue(Opposite(taker.side)), MatchOf(b, taker);
    var written := WrittenBack(rows, taker, Place(b, ToEngineOrder(taker)));
    MatchTable(rows, taker, o, q, taker.pair);
    WrittenKeys(rows, taker, Place(b, ToEngineOrder(taker)));
    forall i | 0 <= i < |m.cancelled|
      ensures var id := m.cancelled[i].id;
        id != taker.id && id in written && written[id].Live() && written[id].pair == taker.pair
    {
      var c := m.cancelled[i];
      assert Dropped(AdvanceAll(rows, m.trades), q, m, c, taker.pair);
      var j :| 0 <= j < |q| && q[j] == c;
      assert q[j].id != taker.id && q[j].Remaining() > 0;
      WrittenRow(pairs, rows, accounts, b, taker, c.id);
    }
  }

  lemma WrittenKeys(rows: Rows, taker: Row, p: Placed)
    requires taker.id in rows
    ensures WrittenBack(rows, taker, p).Keys == rows.Keys
  {
  }

  /** The table once a match has been applied in full. */
  ghost function Applied(rows: Rows, taker: Row, p: Placed): Rows
    requires taker.id in rows
  {
    CancelledRows(WrittenBack(rows, taker, p), p.cancelled)
  }

  /** If the taker can pay, the result is applied in full and every reserve stays covered. */
  lemma ApplyPaid(pairs: Pairs, rows: Rows, accounts: Accounts, b: Book, taker: Row)
    requires Submitted(pairs, rows, accounts, b, taker)
    requires Paid(pairs, accounts, taker.pair, taker, MatchOf(b, taker).trades)
    ensures var p := Place(b, ToEngineOrder(taker));
      var done := ApplyResult(rows, accounts, pairs[taker.pair], taker, p);
      && done.error == None && done.rows == Applied(rows, taker, p) && Covered(pairs, done.rows, done.accounts)
    ensures NothingClamped(accounts, rows, pairs[taker.pair], taker, MatchOf(b, taker).trades)
  {
    hide Match;
    hide Place;
    hide Covered;
    hide AdvanceAll;
    hide BookStored;
    hide WrittenBack;
    hide Cancellable;
    hide Meets;
    hide FitAll;
    SubmittedMeets(pairs, rows, accounts, b, taker);
    TakerWritten(pairs, rows, accounts, b, taker);
    var p, pair, trades := Place(b, ToEngineOrder(taker)), pairs[taker.pair], MatchOf(b, taker).trades;
    MatchFits(rows, taker, Arriving(b, taker), b.Queue(Opposite(taker.side)), taker.pair);
    SettleAllPaid(pairs, rows, rows, accounts, taker.pair, taker, trades);
    var settled := SettleAll(accounts, rows, pair, taker, trades).accounts;
    WrittenCovered(pairs, rows, accounts, b, taker, settled);
    CancelledLive(pairs, rows, accounts, b, taker);
    CancelMakersKeeps(pairs, WrittenBack(rows, taker, p), settled, p.cancelled, taker.pair);
    ApplyUnfolds(rows, accounts, pair, taker, p);
  }

  lemma WrittenCovered(pairs: Pairs, rows: Rows, accounts: Accounts, b: Book, taker: Row, settled: Accounts)
    requires Submitted(pairs, rows, accounts, b, taker)
    requires Covered(pairs, AdvanceAll(rows, MatchOf(b, taker).trades), settled)
    ensures Covered(pairs, WrittenBack(rows, taker, Place(b, ToEngineOrder(taker))), settled)
    ensures forall a :: Owed(pairs, WrittenBack(rows, taker, Place(b, ToEngineOrder(taker))), a) ==
                        Owed(pairs, AdvanceAll(rows, MatchOf(b, taker).trades), a)
  {
    hide Match;
    hide Place;
    hide Covered;
    hide AdvanceAll;
    hide WrittenBack;
    TakerWritten(pairs, rows, accounts, b, taker);
    var p, after := Place(b, ToEngineOrder(taker)), AdvanceAll(rows, MatchOf(b, taker).trades);
    WrittenKeys(rows, taker, p);
    forall id | id in after
      ensures var r := WrittenBack(rows, taker, p)[id];
        && r == after[id].(status := r.status)
        && (r.Live() == after[id].Live() ||
             (after[id].Live() && (after[id].Remaining() == 0 || after[id].kind == Market)))
    {
      WrittenRow(pairs, rows, accounts, b, taker, id);
    }
    StatusesKeep(pairs, after, WrittenBack(rows, taker, p), settled);
  }

  /** The taker's row is written last, but might as well be written before the cancellations. */
  lemma ApplyUnfolds(rows: Rows, accounts: Accounts, pair: Pair, taker: Row, p: Placed)
    requires taker.id in rows && !HasId(p.cancelled, taker.id)
    requires SettleAll(accounts, rows, pair, taker, p.trades).error == None
    requires var settled := SettleAll(accounts, rows, pair, taker, p.trades).accounts;
      CancelMakers(WrittenBack(rows, taker, p), settled, pair, p.cancelled).error == None
    ensures var settled := SettleAll(accounts, rows, pair, taker, p.trades).accounts;
      ApplyResult(rows, accounts, pair, taker, p) ==
      CancelMakers(WrittenBack(rows, taker, p), settled, pair, p.cancelled)
  {
    hide SettleAll;
    hide CancelMakers;
    var settled := SettleAll(accounts, rows, pair, taker, p.trades).accounts;
    CancelMakersApart(MakersUpdated(rows, taker.id, p.trades), settled, pair, p.cancelled, taker.id,
                      Gained(taker, Gain(p.trades, taker.id), p.rested));
  }

  // ----- the table and the books after the match

  lemma AppliedRow(rows: Rows, taker: Row, p: Placed, id: string)
    requires taker.id in rows && id in rows
    ensures Applied(rows, taker, p).Keys == rows.Keys
    ensures var r := WrittenBack(rows, taker, p)[id];
      Applied(rows, taker, p)[id] == if HasId(p.cancelled, id) then r.(status := Status.Cancelled) else r
  {
    WrittenKeys(rows, taker, p);
  }

  /** An order that is neither the taker nor in the queue it met is left as it was. */
  lemma Untouched(pairs: Pairs, rows: Rows, accounts: Accounts, b: Book, taker: Row, id: string)
    requires Submitted(pairs, rows, accounts, b, taker) && id in rows && id != taker.id
    requires !HasId(b.Queue(Opposite(taker.side)), id)
    ensures Applied(rows, taker, Place(b, ToEngineOrder(taker)))[id] == rows[id]
  {
    hide Match;
    hide Place;
    hide Covered;
    hide AdvanceAll;
    hide BookStored;
    hide WrittenBack;
    hide Applied;
    hide Meets;
    SubmittedMeets(pairs, rows, accounts, b, taker);
    TakerWritten(pairs, rows, accounts, b, taker);
    var m, p := MatchOf(b, taker), Place(b, ToEngineOrder(taker));
    MatchTable(rows, taker, Arriving(b, taker), b.Queue(Opposite(taker.side)), taker.pair);
    WrittenRow(pairs, rows, accounts, b, taker, id);
    AppliedRow(rows, taker, p, id);
    forall i | 0 <= i < |m.cancelled| ensures m.cancelled[i].id != id {
      assert Dropped(AdvanceAll(rows, m.trades), b.Queue(Opposite(taker.side)), m, m.cancelled[i], taker.pair);
    }
  }

  /** What is left of the queue that was met is stored as it now stands. */
  lemma OppositeStored(pairs: Pairs, rows: Rows, accounts: Accounts, b: Book, taker: Row)
    requires Submitted(pairs, rows, accounts, b, taker) && Unfilled(MatchOf(b, taker).queue)
    ensures QueueStored(Applied(rows, taker, Place(b, ToEngineOrder(taker))), MatchOf(b, taker).queue, taker.pair)
  {
    hide Match;
    hide Place;
    hide Covered;
    hide AdvanceAll;
    hide WrittenBack;
    hide Applied;
    SubmittedMeets(pairs, rows, accounts, b, taker);
    var q, m, p := b.Queue(Opposite(taker.side)), MatchOf(b, taker), Place(b, ToEngineOrder(taker));
    TakerWritten(pairs, rows, accounts, b, taker);
    MatchTable(rows, taker, Arriving(b, taker), q, taker.pair);
    forall i | 0 <= i < |m.queue|
      ensures
        && m.queue[i].id in Applied(rows, taker, p)
        && Stored(Applied(rows, taker, p)[m.queue[i].id], m.queue[i], taker.pair)
    {
      LeftStored(pairs, rows, accounts, b, taker, i);
    }
  }

  lemma LeftStored(pairs: Pairs, rows: Rows, accounts: Accounts, b: Book, taker: Row, i: nat)
    requires
      && Submitted(pairs, rows, accounts, b, taker) && i < |MatchOf(b, taker).queue|
      && Unfilled(MatchOf(b, taker).queue)
    ensures var r, after := MatchOf(b, taker).queue[i], Applied(rows, taker, Place(b, ToEngineOrder(taker)));
      r.id in after && Stored(after[r.id], r, taker.pair)
  {
    hide Match;
    hide Place;
    hide Covered;
    hide AdvanceAll;
    hide WrittenBack;
    hide Applied;
    SubmittedMeets(pairs, rows, accounts, b, taker);
    TakerWritten(pairs, rows, accounts, b, taker);
    var q, m, p := b.Queue(Opposite(taker.side)), MatchOf(b, taker), Place(b, ToEngineOrder(taker));
    var r := m.queue[i];
    MatchTable(rows, taker, Arriving(b, taker), q, taker.pair);
    assert HasId(m.queue, r.id);
    var j :| 0 <= j < |q| && q[j].id == r.id;
    assert q[j].id != taker.id && Stored(rows[q[j].id], q[j], taker.pair);
    assert Resembles(AdvanceAll(rows, m.trades)[r.id], r, taker.pair);
    WrittenRow(pairs, rows, accounts, b, taker, r.id);
    AppliedRow(rows, taker, p, r.id);
    forall k | 0 <= k < |m.cancelled| ensures m.cancelled[k].id != r.id {
      assert Dropped(AdvanceAll(rows, m.trades), q, m, m.cancelled[k], taker.pair);
    }
    assert RowOk(pairs, r.id, rows[r.id]);
  }

  /** The taker's row, once it is final. */
  lemma TakerStored(pairs: Pairs, rows: Rows, accounts: Accounts, b: Book, taker: Row)
    requires Submitted(pairs, rows, accounts, b, taker)
    ensures var m, p := MatchOf(b, taker), Place(b, ToEngineOrder(taker));
      var r := Applied(rows, taker, p)[taker.id];
      && (p.rested ==> Stored(r, m.taker, taker.pair))
      && (r.Live() && r.kind == Limit ==> p.rested)
  {
    hide Match;
    hide Place;
    hide Covered;
    hide AdvanceAll;
    hide WrittenBack;
    hide Applied;
    hide BookStored;
    SubmittedMeets(pairs, rows, accounts, b, taker);
    TakerWritten(pairs, rows, accounts, b, taker);
    var m, p := MatchOf(b, taker), Place(b, ToEngineOrder(taker));
    CancelledLive(pairs, rows, accounts, b, taker);
    WrittenRow(pairs, rows, accounts, b, taker, taker.id);
    AppliedRow(rows, taker, p, taker.id);
    assert RowOk(pairs, taker.id, taker);
  }

  lemma {:induction false} InsertedMembers(side: Side, q: seq<Ord>, o: Ord)
    ensures forall i :: 0 <= i < |Insert(side, q, o)| ==> Insert(side, q, o)[i] == o || Insert(side, q, o)[i] in q
    ensures forall id :: HasId(q, id) || id == o.id ==> HasId(Insert(side, q, o), id)
  {
    var p := InsertPlace(side, q, o);
    var r := Insert(side, q, o);
    forall id | HasId(q, id) || id == o.id ensures HasId(r, id) {
      if HasId(q, id) {
        var i :| 0 <= i < |q| && q[i].id == id;
        assert r[if i < p then i else i + 1] == q[i];
      } else {
        assert r[p] == o;
      }
    }
  }

  /** The taker's own side is stored as well, with the taker in it if it rests. */
  lemma OwnStored(pairs: Pairs, rows: Rows, accounts: Accounts, b: Book, taker: Row)
    requires Submitted(pairs, rows, accounts, b, taker)
    ensures var p := Place(b, ToEngineOrder(taker));
      QueueStored(Applied(rows, taker, p), p.book.Queue(taker.side), taker.pair)
  {
    var own, opp, p := b.Queue(taker.side), b.Queue(Opposite(taker.side)), Place(b, ToEngineOrder(taker));
    FromSide(b, taker.side);
    hide Place;
    hide Match;
    hide Covered;
    hide Applied;
    PlaceParts(b, ToEngineOrder(taker));
    TakerStored(pairs, rows, accounts, b, taker);
    InsertedMembers(taker.side, own, MatchOf(b, taker).taker);
    var after, q := Applied(rows, taker, p), p.book.Queue(taker.side);
    assert after.Keys == rows.Keys by { AppliedRow(rows, taker, p, taker.id); }
    forall i | 0 <= i < |q| ensures q[i].id in after && Stored(after[q[i].id], q[i], taker.pair) {
      if q[i] in own {
        var j :| 0 <= j < |own| && own[j] == q[i];
        assert Stored(rows[own[j].id], own[j], taker.pair);
        assert own[j].id != taker.id;
        forall k | 0 <= k < |opp| ensures opp[k].id != own[j].id {}
        Untouched(pairs, rows, accounts, b, taker, own[j].id);
      }
    }
  }

  /** The book the order went to and the table agree after the match. */
  lemma ApplyStored(pairs: Pairs, rows: Rows, accounts: Accounts, b: Book, taker: Row)
    requires Submitted(pairs, rows, accounts, b, taker)
    ensures var p := Place(b, ToEngineOrder(taker)); BookStored(Applied(rows, taker, p), p.book, taker.pair)
  {
    SubmittedMeets(pairs, rows, accounts, b, taker);
    PlaceKeeps(b, ToEngineOrder(taker));
    PlaceParts(b, ToEngineOrder(taker));
    hide Place;
    hide Match;
    hide Covered;
    hide Applied;
    var p, side := Place(b, ToEngineOrder(taker)), Opposite(taker.side);
    FromSide(p.book, side);
    forall i | 0 <= i < |p.book.Queue(side)| ensures p.book.Queue(side)[i].Remaining() > 0 {
      assert MayRest(side, p.book.Queue(side)[i], p.book.seqNo);
    }
    OppositeStored(pairs, rows, accounts, b, taker);
    OwnStored(pairs, rows, accounts, b, taker);
  }
}
