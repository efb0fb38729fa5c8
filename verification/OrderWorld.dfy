/** Serial runs of the order service: creating and cancelling orders, and starting up again. */
module OrderWorld {
  import opened MatchingModel
  import opened MatchingRuns
  import opened OrderApply
  import opened OrderModel
  import opened OrderReserves
  import opened OrderRuns
  import opened OrderSettlement
  import opened OrderSimulation
  import opened OrderWallets
  import opened Wrappers

  /** Every live limit order of the table rests in the book of its pair, on its side. */
  ghost predicate LiveRests(rows: Rows, books: Books) {
    forall id :: id in rows && rows[id].Live() && rows[id].kind == Limit ==>
      HasId(BookOf(books, rows[id].pair).Queue(rows[id].side), id)
  }

  /** Books and table describe the same resting orders. */
  ghost predicate Simulates(rows: Rows, books: Books) {
    (forall p :: BookStored(rows, BookOf(books, p), p)) && LiveRests(rows, books)
  }

  ghost predicate WorldOk(pairs: Pairs, w: World) {
    Covered(pairs, w.rows, w.accounts) && Simulates(w.rows, w.books)
  }

  /** A limit order rests with remaining size `r` exactly when its row is open or partially filled with `r` to go. */
  lemma RestsExactlyWhenLive(pairs: Pairs, w: World, id: string, r: int)
    requires WorldOk(pairs, w) && id in w.rows && w.rows[id].kind == Limit
    ensures var row := w.rows[id];
      var q := BookOf(w.books, row.pair).Queue(row.side);
      (exists i :: 0 <= i < |q| && q[i].id == id && q[i].Remaining() == r) <==>
      ((row.status == Open || row.status == PartiallyFilled) && row.Remaining() == r)
  {
    var row := w.rows[id];
    var b := BookOf(w.books, row.pair);
    var q := b.Queue(row.side);
    assert BookStored(w.rows, b, row.pair);
    assert QueueStored(w.rows, q, row.pair);
    if row.Live() {
      assert HasId(q, id);
      var i :| 0 <= i < |q| && q[i].id == id;
      assert Stored(w.rows[q[i].id], q[i], row.pair);
    }
    if i :| 0 <= i < |q| && q[i].id == id {
      assert Stored(w.rows[q[i].id], q[i], row.pair);
    }
  }

  // ----- creating an order

  lemma StoredFresh(rows: Rows, q: seq<Ord>, pair: string, r: Row)
    requires QueueStored(rows, q, pair) && r.id !in rows
    ensures QueueStored(rows[r.id := r], q, pair) && !HasId(q, r.id)
  {
    forall i | 0 <= i < |q| ensures q[i].id != r.id && q[i].id in rows && Stored(rows[q[i].id], q[i], pair) {}
  }

  lemma BookStoredFresh(rows: Rows, b: Book, pair: string, r: Row)
    requires BookStored(rows, b, pair) && r.id !in rows
    ensures BookStored(rows[r.id := r], b, pair) && !HasId(b.bids, r.id) && !HasId(b.asks, r.id)
  {
    StoredFresh(rows, b.bids, pair, r);
    StoredFresh(rows, b.asks, pair, r);
  }

  /** A request that passes its checks and reserves its funds is ready to be matched. */
  lemma NewSubmitted(pairs: Pairs, w: World, id: string, user: string, req: Request)
    requires WorldOk(pairs, w) && id !in w.rows && Rejection(w, pairs, user, req) == None
    requires Reserved(w.accounts, pairs[req.pair], NewRow(id, user, req)).Ok?
    ensures var r := NewRow(id, user, req);
      Submitted(pairs, w.rows[id := r], Reserved(w.accounts, pairs[req.pair], r).value, BookOf(w.books, req.pair), r)
  {
    assert AllSound(pairs);
    hide Covered;
    hide BookStored;
    hide Reserved;
    var r := NewRow(id, user, req);
    assert RowOk(pairs, id, r) by { assert req.quantity >= 0; }
    ReservedCovers(pairs, w.rows, w.accounts, r);
    assert BookStored(w.rows, BookOf(w.books, req.pair), req.pair);
    BookStoredFresh(w.rows, BookOf(w.books, req.pair), req.pair, r);
  }

  /** The other pairs' books do not notice. */
  lemma OthersStored(pairs: Pairs, rows: Rows, accounts: Accounts, b: Book, taker: Row, other: Book, p: string)
    requires Submitted(pairs, rows, accounts, b, taker) && BookStored(rows, other, p) && p != taker.pair
    ensures BookStored(Applied(rows, taker, Place(b, ToEngineOrder(taker))), other, p)
  {
    QueueOfOther(pairs, rows, accounts, b, taker, other.bids, p);
    QueueOfOther(pairs, rows, accounts, b, taker, other.asks, p);
  }

  lemma QueueOfOther(pairs: Pairs, rows: Rows, accounts: Accounts, b: Book, taker: Row, q: seq<Ord>, p: string)
    requires Submitted(pairs, rows, accounts, b, taker) && QueueStored(rows, q, p) && p != taker.pair
    ensures QueueStored(Applied(rows, taker, Place(b, ToEngineOrder(taker))), q, p)
  {
    var opp := b.Queue(Opposite(taker.side));
    assert QueueStored(rows, opp, taker.pair);
    hide Covered;
    hide Place;
    hide Applied;
    hide BookStored;
    var after := Applied(rows, taker, Place(b, ToEngineOrder(taker)));
    assert after.Keys == rows.Keys by { AppliedRow(rows, taker, Place(b, ToEngineOrder(taker)), taker.id); }
    forall i | 0 <= i < |q| ensures q[i].id in after && Stored(after[q[i].id], q[i], p) {
      assert Stored(rows[q[i].id], q[i], p);
      forall j | 0 <= j < |opp| ensures opp[j].id != q[i].id { assert Stored(rows[opp[j].id], opp[j], taker.pair); }
      Untouched(pairs, rows, accounts, b, taker, q[i].id);
    }
  }

  /** An order of the queue that was met, and is live afterwards, is in what is left of the queue. */
  lemma MetRests(pairs: Pairs, rows: Rows, accounts: Accounts, b: Book, taker: Row, j: nat)
    requires Submitted(pairs, rows, accounts, b, taker) && j < |b.Queue(Opposite(taker.side))|
    ensures var o, m := b.Queue(Opposite(taker.side))[j], MatchOf(b, taker);
      && o.id in rows && rows[o.id].side == Opposite(taker.side) && rows[o.id].pair == taker.pair && rows[o.id].Live()
      && (Applied(rows, taker, Place(b, ToEngineOrder(taker)))[o.id].Live() ==> HasId(m.queue, o.id))
  {
    hide Match;
    hide Place;
    hide Covered;
    hide AdvanceAll;
    hide BookStored;
    hide WrittenBack;
    hide Applied;
    SubmittedMeets(pairs, rows, accounts, b, taker);
    TakerWritten(pairs, rows, accounts, b, taker);
    var q, m, p := b.Queue(Opposite(taker.side)), MatchOf(b, taker), Place(b, ToEngineOrder(taker));
    var o, after := q[j], AdvanceAll(rows, m.trades);
    MatchTable(rows, taker, Arriving(b, taker), q, taker.pair);
    assert Resembles(rows[o.id], o, taker.pair) && o.id != taker.id && o.Remaining() > 0;
    assert Accounted(after, o, m, taker.pair);
    WrittenRow(pairs, rows, accounts, b, taker, o.id);
    AppliedRow(rows, taker, p, o.id);
    if o in m.cancelled {
      var i :| 0 <= i < |m.cancelled| && m.cancelled[i] == o;
      assert HasId(p.cancelled, o.id);
    }
  }

  /** Every row keeps all but its fill and its status, and none comes to life. */
  lemma AppliedSame(pairs: Pairs, rows: Rows, accounts: Accounts, b: Book, taker: Row, id: string)
    requires Submitted(pairs, rows, accounts, b, taker) && id in rows
    ensures var r := Applied(rows, taker, Place(b, ToEngineOrder(taker)))[id];
      && r == rows[id].(filled := r.filled, status := r.status) && (r.Live() ==> rows[id].Live())
  {
    hide Match;
    hide Place;
    hide Covered;
    hide AdvanceAll;
    hide BookStored;
    hide WrittenBack;
    hide Applied;
    WrittenRow(pairs, rows, accounts, b, taker, id);
    AppliedRow(rows, taker, Place(b, ToEngineOrder(taker)), id);
  }

  /** A queue in the book before the match, without what has been met, is a queue in the book after it. */
  lemma RestsOn(pairs: Pairs, rows: Rows, accounts: Accounts, b: Book, taker: Row, id: string)
    requires Submitted(pairs, rows, accounts, b, taker) && id in rows && id != taker.id
    requires HasId(b.Queue(rows[id].side), id) && rows[id].pair == taker.pair
    requires Applied(rows, taker, Place(b, ToEngineOrder(taker)))[id].Live()
    ensures HasId(Place(b, ToEngineOrder(taker)).book.Queue(rows[id].side), id)
  {
    hide Match;
    hide Place;
    hide Applied;
    hide Submitted;
    hide Insert;
    PlaceParts(b, ToEngineOrder(taker));
    if rows[id].side == taker.side {
      InsertedMembers(taker.side, b.Queue(taker.side), MatchOf(b, taker).taker);
    } else {
      var q := b.Queue(Opposite(taker.side));
      assert rows[id].side == Opposite(taker.side);
      var j :| 0 <= j < |q| && q[j].id == id;
      MetRests(pairs, rows, accounts, b, taker, j);
    }
  }

  /** What is live after the match rests somewhere. */
  lemma AppliedRests(pairs: Pairs, rows: Rows, accounts: Accounts, b: Book, taker: Row, id: string)
    requires Submitted(pairs, rows, accounts, b, taker) && id in rows
    requires var p := Place(b, ToEngineOrder(taker));
      Applied(rows, taker, p)[id].Live() && Applied(rows, taker, p)[id].kind == Limit
    requires id != taker.id && rows[id].pair == taker.pair && rows[id].Live() && rows[id].kind == Limit ==>
      HasId(b.Queue(rows[id].side), id)
    ensures Applied(rows, taker, Place(b, ToEngineOrder(taker)))[id] ==
            rows[id].(filled := Applied(rows, taker, Place(b, ToEngineOrder(taker)))[id].filled,
                      status := Applied(rows, taker, Place(b, ToEngineOrder(taker)))[id].status)
    ensures rows[id].Live()
    ensures rows[id].pair == taker.pair ==> HasId(Place(b, ToEngineOrder(taker)).book.Queue(rows[id].side), id)
  {
    hide Match;
    hide Place;
    hide Covered;
    hide BookStored;
    hide Applied;
    hide Insert;
    AppliedSame(pairs, rows, accounts, b, taker, id);
    if id == taker.id {
      TakerStored(pairs, rows, accounts, b, taker);
      PlaceParts(b, ToEngineOrder(taker));
      InsertedMembers(taker.side, b.Queue(taker.side), MatchOf(b, taker).taker);
    } else if rows[id].pair == taker.pair {
      RestsOn(pairs, rows, accounts, b, taker, id);
    }
  }

  /** The order passes its checks and its funds can be reserved, so it goes to the engine. */
  predicate Accepted(pairs: Pairs, w: World, id: string, user: string, req: Request) {
    Rejection(w, pairs, user, req) == None && Reserved(w.accounts, pairs[req.pair], NewRow(id, user, req)).Ok?
  }

  function TradesFor(w: World, id: string, user: string, req: Request): seq<Trade> {
    MatchOf(BookOf(w.books, req.pair), NewRow(id, user, req)).trades
  }

  /**
   What a caller can check against the book and the wallet before a market order: that it trades
   nothing, or that its wallet exists and what is available there covers the trades. A limit order
   is always affordable, having locked its funds.
   */
  predicate Affordable(pairs: Pairs, w: World, id: string, user: string, req: Request)
    requires Accepted(pairs, w, id, user, req)
  {
    Paid(pairs, w.accounts, req.pair, NewRow(id, user, req), TradesFor(w, id, user, req))
  }

  lemma AffordableAfterLock(pairs: Pairs, w: World, id: string, user: string, req: Request)
    requires Accepted(pairs, w, id, user, req) && Affordable(pairs, w, id, user, req)
    ensures var r := NewRow(id, user, req);
      Paid(pairs, Reserved(w.accounts, pairs[req.pair], r).value, req.pair, r, TradesFor(w, id, user, req))
  {
  }

  /** The reply to an accepted and affordable order. */
  lemma CreateUnfolds(pairs: Pairs, w: World, id: string, user: string, req: Request)
    requires Accepted(pairs, w, id, user, req)
    ensures var r := NewRow(id, user, req);
      var p := Place(BookOf(w.books, req.pair), ToEngineOrder(r));
      var done := ApplyResult(w.rows[id := r], Reserved(w.accounts, pairs[req.pair], r).value, pairs[req.pair], r, p);
      && CreateOrder(w, pairs, id, user, req).world == World(done.rows, done.accounts, w.books[req.pair := p.book])
      && CreateOrder(w, pairs, id, user, req).result.Ok? == done.error.None?
      && (done.error.Some? ==> CreateOrder(w, pairs, id, user, req).result == Err(done.error.value))
  {
    hide Place;
    hide ApplyResult;
  }

  /** The whole world after a match has been applied in full. */
  lemma AppliedSimulates(pairs: Pairs, w: World, accounts: Accounts, taker: Row)
    requires Simulates(w.rows, w.books) && taker.id !in w.rows
    requires Submitted(pairs, w.rows[taker.id := taker], accounts, BookOf(w.books, taker.pair), taker)
    ensures var p := Place(BookOf(w.books, taker.pair), ToEngineOrder(taker));
      Simulates(Applied(w.rows[taker.id := taker], taker, p), w.books[taker.pair := p.book])
  {
    hide Place;
    hide Applied;
    hide BookStored;
    hide Covered;
    var rows, b := w.rows[taker.id := taker], BookOf(w.books, taker.pair);
    var p := Place(b, ToEngineOrder(taker));
    var after, books := Applied(rows, taker, p), w.books[taker.pair := p.book];
    ApplyStored(pairs, rows, accounts, b, taker);
    forall x ensures BookStored(after, BookOf(books, x), x) {
      if x != taker.pair {
        BookStoredFresh(w.rows, BookOf(w.books, x), x, taker);
        OthersStored(pairs, rows, accounts, b, taker, BookOf(w.books, x), x);
      }
    }
    forall x | x in after && after[x].Live() && after[x].kind == Limit
      ensures HasId(BookOf(books, after[x].pair).Queue(after[x].side), x)
    {
      AppliedRow(rows, taker, p, taker.id);
      AppliedRests(pairs, rows, accounts, b, taker, x);
      TakerStored(pairs, rows, accounts, b, taker);
    }
  }

  /** An accepted and affordable order is created, and everything still agrees and is covered. */
  lemma CreateKeeps(pairs: Pairs, w: World, id: string, user: string, req: Request)
    requires
      && WorldOk(pairs, w) && id !in w.rows && Accepted(pairs, w, id, user, req) && Affordable(pairs, w, id, user, req)
    ensures WorldOk(pairs, CreateOrder(w, pairs, id, user, req).world)
    ensures CreateOrder(w, pairs, id, user, req).result.Ok?
    ensures var r := NewRow(id, user, req);
      NothingClamped(Reserved(w.accounts, pairs[req.pair], r).value, w.rows[id := r], pairs[req.pair], r,
        TradesFor(w, id, user, req))
  {
    hide Place;
    hide ApplyResult;
    hide Applied;
    hide Covered;
    hide Simulates;
    hide Reserved;
    hide Rejection;
    hide CreateOrder;
    hide Paid;
    hide NothingClamped;
    var r := NewRow(id, user, req);
    NewSubmitted(pairs, w, id, user, req);
    AffordableAfterLock(pairs, w, id, user, req);
    CreateUnfolds(pairs, w, id, user, req);
    ApplyPaid(pairs, w.rows[id := r], Reserved(w.accounts, pairs[req.pair], r).value, BookOf(w.books, req.pair), r);
    AppliedSimulates(pairs, w, Reserved(w.accounts, pairs[req.pair], r).value, r);
  }
}
