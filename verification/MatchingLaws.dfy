/**
 What the simple matcher promises whoever sends it an order, in prices, sizes and ids: whom it
 trades with and at what price, what it leaves in the book, and where it comes to rest.
 */
module MatchingLaws {
  import opened MatchingFills
  import opened MatchingModel
  import opened MatchingRuns

  // ----- one match

  /** Some order of the queue made this trade: it has that id, owner and price, and at least that much to trade. */
  ghost predicate MadeFrom(q: seq<Ord>, t: Trade) {
    exists j :: 0 <= j < |q| && q[j].id == t.makerId && q[j].user == t.makerUser && q[j].price == t.price &&
      t.quantity <= q[j].quantity - q[j].filled
  }

  lemma MadeFromTail(q: seq<Ord>, t: Trade)
    requires q != [] && MadeFrom(q[1..], t)
    ensures MadeFrom(q, t)
  {
    var j :| 0 <= j < |q[1..]| && q[1..][j].id == t.makerId && q[1..][j].user == t.makerUser &&
      q[1..][j].price == t.price && t.quantity <= q[1..][j].quantity - q[1..][j].filled;
    assert q[j + 1] == q[1..][j];
  }

  /** What is left of a taker that has met the first order of a queue. */
  function Met(taker: Ord, maker: Ord): Ord {
    if maker.user == taker.user then taker
    else taker.(filled := taker.filled + Min(taker.Remaining(), maker.Remaining()))
  }

  /** A match is what it does with the first order, and then with the others. */
  lemma MatchUnfolds(taker: Ord, q: seq<Ord>)
    requires taker.Remaining() > 0 && q != [] && Crosses(taker.side, taker.kind, taker.price, q[0].price)
    requires q[0].Remaining() > 0
    ensures var m, rest, own := Match(taker, q), Match(Met(taker, q[0]), q[1..]), q[0].user == taker.user;
      && m.cancelled == (if own then [q[0]] else []) + rest.cancelled
      && m.trades ==
           (if own then [] else [TradeOf(taker, q[0], Min(taker.Remaining(), q[0].Remaining()))]) + rest.trades
  {
    hide Match;
    hide Crosses;
    hide TradeOf;
    if q[0].user == taker.user {
      MatchOwn(taker, q);
    } else if q[0].Remaining() <= taker.Remaining() {
      MatchFilled(taker, Met(taker, q[0]), q);
    } else {
      MatchPart(taker, q);
      NothingWanted(Met(taker, q[0]), q[1..]);
    }
  }

  lemma NothingWanted(taker: Ord, q: seq<Ord>)
    requires taker.Remaining() <= 0
    ensures Match(taker, q) == Outcome(taker, [], [], q)
  {
  }

  /** Every trade is at the price of a resting order of someone else, and never beyond the taker's limit. */
  lemma {:induction false} TradesWithinLimit(taker: Ord, q: seq<Ord>)
    requires Unfilled(q)
    ensures var ts := Match(taker, q).trades;
      forall i :: 0 <= i < |ts| ==>
        && ts[i].takerId == taker.id && ts[i].takerUser == taker.user && ts[i].takerSide == taker.side
        && ts[i].makerUser != taker.user && ts[i].quantity > 0 && MadeFrom(q, ts[i])
        && (taker.kind == Limit && taker.side == Buy ==> ts[i].price <= taker.price)
        && (taker.kind == Limit && taker.side == Sell ==> ts[i].price >= taker.price)
    decreases q
  {
    if taker.Remaining() > 0 && q != [] && Crosses(taker.side, taker.kind, taker.price, q[0].price) {
      var t, rest := TradeOf(taker, q[0], Min(taker.Remaining(), q[0].Remaining())), Met(taker, q[0]);
      MatchUnfolds(taker, q);
      TradesWithinLimit(rest, q[1..]);
      hide Match;
      var ts := Match(rest, q[1..]).trades;
      forall i | 0 <= i < |ts| ensures MadeFrom(q, ts[i]) { MadeFromTail(q, ts[i]); }
      assert q[0].user != taker.user ==> MadeFrom(q, t) && t.quantity > 0;
    }
  }

  /** Nothing behind the first order of a queue has a better price. */
  lemma NotBetterThanFirst(side: Side, q: seq<Ord>, t: Trade)
    requires q != [] && Ordered(Opposite(side), q) && MadeFrom(q[1..], t)
    ensures if side == Buy then q[0].price <= t.price else q[0].price >= t.price
  {
    var j :| 0 <= j < |q[1..]| && q[1..][j].price == t.price;
    assert Ahead(Opposite(side), q[0], q[j + 1]);
  }

  /** The prices of some trades get no better for their taker. */
  predicate Worsening(side: Side, ts: seq<Trade>) {
    forall i, j :: 0 <= i < j < |ts| ==> if side == Buy then ts[i].price <= ts[j].price else ts[i].price >= ts[j].price
  }

  lemma WorseningCons(side: Side, t: Trade, ts: seq<Trade>)
    requires Worsening(side, ts)
    requires forall i :: 0 <= i < |ts| ==> if side == Buy then t.price <= ts[i].price else t.price >= ts[i].price
    ensures Worsening(side, [t] + ts)
  {
  }

  lemma OrderedTail(side: Side, q: seq<Ord>)
    requires q != [] && Ordered(side, q) && Unfilled(q)
    ensures Ordered(side, q[1..]) && Unfilled(q[1..])
  {
  }

  /** The trades go from the best price to worse ones. */
  lemma {:induction false} TradesBestFirst(taker: Ord, q: seq<Ord>)
    requires Ordered(Opposite(taker.side), q) && Unfilled(q)
    ensures Worsening(taker.side, Match(taker, q).trades)
    decreases q
  {
    if taker.Remaining() > 0 && q != [] && Crosses(taker.side, taker.kind, taker.price, q[0].price) {
      var rest := Met(taker, q[0]);
      MatchUnfolds(taker, q);
      OrderedTail(Opposite(taker.side), q);
      hide Match;
      hide Crosses;
      hide Unfilled;
      hide Ordered;
      hide Worsening;
      TradesBestFirst(rest, q[1..]);
      TradesWithinLimit(rest, q[1..]);
      var ts := Match(rest, q[1..]).trades;
      forall i | 0 <= i < |ts|
        ensures if taker.side == Buy then q[0].price <= ts[i].price else q[0].price >= ts[i].price
      {
        NotBetterThanFirst(taker.side, q, ts[i]);
      }
      if q[0].user != taker.user {
        WorseningCons(taker.side, TradeOf(taker, q[0], Min(taker.Remaining(), q[0].Remaining())), ts);
      } else {
        assert Match(taker, q).trades == ts;
      }
    }
  }

  /** What is cancelled are orders of the taker's own, within its limit. */
  lemma {:induction false} CancelsWithinLimit(taker: Ord, q: seq<Ord>)
    requires Unfilled(q)
    ensures var cs := Match(taker, q).cancelled;
      forall i :: 0 <= i < |cs| ==>
        && cs[i] in q && cs[i].user == taker.user
        && (taker.kind == Limit && taker.side == Buy ==> cs[i].price <= taker.price)
        && (taker.kind == Limit && taker.side == Sell ==> cs[i].price >= taker.price)
    decreases q
  {
    if taker.Remaining() > 0 && q != [] && Crosses(taker.side, taker.kind, taker.price, q[0].price) {
      MatchUnfolds(taker, q);
      CancelsWithinLimit(Met(taker, q[0]), q[1..]);
    }
  }

  /** A limit taker that still wants more leaves nothing within its limit, and a market taker leaves nothing. */
  lemma NothingWithinLimit(taker: Ord, q: seq<Ord>)
    requires Ordered(Opposite(taker.side), q) && Unfilled(q) && Match(taker, q).taker.Remaining() > 0
    ensures var left := Match(taker, q).queue;
      && (taker.kind == Market ==> left == [])
      && (taker.kind == Limit && taker.side == Buy ==> forall i :: 0 <= i < |left| ==> left[i].price > taker.price)
      && (taker.kind == Limit && taker.side == Sell ==> forall i :: 0 <= i < |left| ==> left[i].price < taker.price)
  {
    hide Match;
    MatchTail(taker, q);
    var left := Match(taker, q).queue;
    var d := |q| - |left|;
    forall i | 0 < i < |left| ensures !BetterPrice(Opposite(taker.side), left[i].price, left[0].price) {
      assert MetBy(left[i], q[d + i]) && MetBy(left[0], q[d + 0]);
      assert Ahead(Opposite(taker.side), q[d + 0], q[d + i]);
    }
  }

  // ----- placing an order

  /** What a placed order trades: with resting orders of others on the other side, at their prices, within its limit. */
  lemma PlacedTrades(b: Book, o: Ord)
    requires BookOk(b) && Admissible(b, o)
    ensures var p, resting := Place(b, o), if o.side == Buy then b.asks else b.bids;
      && (forall i, j :: 0 <= i < j < |p.trades| ==> p.trades[i].makerId != p.trades[j].makerId)
      && Worsening(o.side, p.trades)
      && forall i :: 0 <= i < |p.trades| ==>
        var t := p.trades[i];
        && t.takerId == o.id && t.takerUser == o.user && t.takerSide == o.side
        && t.makerUser != o.user && t.quantity > 0 && MadeFrom(resting, t)
        && (o.kind == Limit && o.side == Buy ==> t.price <= o.price)
        && (o.kind == Limit && o.side == Sell ==> t.price >= o.price)
  {
    hide Match;
    var taker, q := o.(sequence := b.seqNo + 1), b.Queue(Opposite(o.side));
    QueueUnfilled(b, Opposite(o.side));
    FromSide(b, Opposite(o.side));
    TradesWithinLimit(taker, q);
    TradesAreApart(taker, q);
    TradesBestFirst(taker, q);
    assert Place(b, o).trades == Match(taker, q).trades;
  }

  /** What it leaves on the other side: a tail of it, with nothing within its limit if it still wants more. */
  lemma PlacedLeaves(b: Book, o: Ord)
    requires BookOk(b) && Admissible(b, o)
    ensures var p := Place(b, o);
      var resting, left := if o.side == Buy then b.asks else b.bids, if o.side == Buy then p.book.asks else p.book.bids;
      && p.taker.filled == o.filled + Traded(p.trades) <= o.quantity && IsTail(left, resting)
      && Size(Foreign(o.user, resting)) - Size(Foreign(o.user, left)) == Traded(p.trades)
      && (p.taker.filled < o.quantity ==>
            && (o.kind == Market ==> left == [])
            && (o.kind == Limit && o.side == Buy ==> forall i :: 0 <= i < |left| ==> left[i].price > o.price)
            && (o.kind == Limit && o.side == Sell ==> forall i :: 0 <= i < |left| ==> left[i].price < o.price))
  {
    hide Match;
    hide IsTail;
    hide Size;
    hide Traded;
    hide Foreign;
    var taker, q := o.(sequence := b.seqNo + 1), b.Queue(Opposite(o.side));
    QueueUnfilled(b, Opposite(o.side));
    FromSide(b, Opposite(o.side));
    MatchTail(taker, q);
    MatchConserves(taker, q);
    var p := Place(b, o);
    assert p.taker == Match(taker, q).taker && p.trades == Match(taker, q).trades;
    assert (if o.side == Buy then p.book.asks else p.book.bids) == Match(taker, q).queue;
    if Match(taker, q).taker.Remaining() > 0 {
      NothingWithinLimit(taker, q);
    }
  }

  /** What it cancels: orders of the taker's own on the other side that it would have traded with. */
  lemma PlacedCancels(b: Book, o: Ord)
    requires BookOk(b) && Admissible(b, o)
    ensures var p, resting := Place(b, o), if o.side == Buy then b.asks else b.bids;
      forall i :: 0 <= i < |p.cancelled| ==>
        var c := p.cancelled[i];
        && c in resting && c.user == o.user
        && (o.kind == Limit && o.side == Buy ==> c.price <= o.price)
        && (o.kind == Limit && o.side == Sell ==> c.price >= o.price)
  {
    hide Match;
    var taker, q := o.(sequence := b.seqNo + 1), b.Queue(Opposite(o.side));
    QueueUnfilled(b, Opposite(o.side));
    CancelsWithinLimit(taker, q);
    assert Place(b, o).cancelled == Match(taker, q).cancelled;
  }

  /**
   Where it rests: a limit order that still wants more stands behind every order of its side at
   its price or a better one and before every other, and nothing else on its side has changed.
   */
  lemma PlacedRests(b: Book, o: Ord) returns (n: nat)
    ensures var p := Place(b, o);
      var own, own' := if o.side == Buy then b.bids else b.asks, if o.side == Buy then p.book.bids else p.book.asks;
      && p.rested == (o.kind == Limit && p.taker.filled < o.quantity)
      && p.taker == o.(sequence := b.seqNo + 1, filled := p.taker.filled)
      && p.book.seqNo == b.seqNo + 1 && p.book.version == b.version + 1
      && (!p.rested ==> own' == own)
      && (p.rested ==>
            && n <= |own| && own' == own[..n] + [p.taker] + own[n..]
            && (forall i :: 0 <= i < n ==> if o.side == Buy then own[i].price >= o.price else own[i].price <= o.price)
            && (n < |own| ==> if o.side == Buy then own[n].price < o.price else own[n].price > o.price))
  {
    hide Match;
    hide Insert;
    TakerKept(o.(sequence := b.seqNo + 1), b.Queue(Opposite(o.side)));
    n := InsertPlace(o.side, b.Queue(o.side), Place(b, o).taker);
  }

  // ----- cancelling one

  lemma CancelledApart(b: Book, side: Side, id: string)
    requires BookOk(b) && HasId(b.Queue(side), id)
    ensures !HasId(Without(b.Queue(side), id), id) && !HasId(b.Queue(Opposite(side)), id)
  {
    FromSide(b, side);
    FindHas(b.Queue(side), id);
    WithoutMembers(b.Queue(side), id);
  }

  /** A cancellation takes out the one order with that id, wherever it rests, and changes nothing if there is none. */
  lemma CancelledOut(b: Book, id: string) returns (p: nat)
    requires BookOk(b)
    ensures var c := Cancel(b, id);
      match c.order
      case None => c.book == b && !HasId(b.bids, id) && !HasId(b.asks, id)
      case Some(o) =>
        && o.id == id && c.book.seqNo == b.seqNo && c.book.version == b.version + 1
        && !HasId(c.book.bids, id) && !HasId(c.book.asks, id)
        && ((p < |b.bids| && b.bids[p] == o && c.book.bids == b.bids[..p] + b.bids[p + 1..] && c.book.asks == b.asks) ||
            (p < |b.asks| && b.asks[p] == o && c.book.asks == b.asks[..p] + b.asks[p + 1..] && c.book.bids == b.bids))
  {
    FindHas(b.bids, id);
    FindHas(b.asks, id);
    p := 0;
    hide TwoSided;
    if HasId(b.bids, id) {
      p := WithoutPlace(b.bids, id);
      CancelledApart(b, Buy, id);
    } else if HasId(b.asks, id) {
      p := WithoutPlace(b.asks, id);
      CancelledApart(b, Sell, id);
    }
  }
}
