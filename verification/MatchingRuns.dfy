/** What every run of orders and cancellations keeps true of the book. */
module MatchingRuns {
  import opened Wrappers
  import opened MatchingModel
  import opened MatchingFills

  // ----- well-formed books

  /** `a` is ahead of `b` on `side`: by price, and at one price by arrival. */
  predicate Ahead(side: Side, a: Ord, b: Ord) {
    BetterPrice(side, a.price, b.price) || (a.price == b.price && a.sequence < b.sequence)
  }

  ghost predicate Ordered(side: Side, q: seq<Ord>) {
    forall i, j :: 0 <= i < j < |q| ==> Ahead(side, q[i], q[j])
  }

  /** An order fit to rest: an unfilled limit order of that side that has already arrived. */
  predicate MayRest(side: Side, o: Ord, seqNo: nat) {
    o.side == side && o.kind == Limit && 0 <= o.filled < o.quantity && o.sequence <= seqNo
  }

  ghost predicate DistinctIds(q: seq<Ord>) {
    forall i, j :: 0 <= i < j < |q| ==> q[i].id != q[j].id
  }

  ghost predicate Apart(p: seq<Ord>, q: seq<Ord>) {
    forall i, j :: 0 <= i < |p| && 0 <= j < |q| ==> p[i].id != q[j].id
  }

  ghost predicate QueueOk(side: Side, q: seq<Ord>, seqNo: nat) {
    Ordered(side, q) && DistinctIds(q) && forall i :: 0 <= i < |q| ==> MayRest(side, q[i], seqNo)
  }

  /** No order resting on `side` crosses one on the opposite side. */
  ghost predicate Clear(side: Side, own: seq<Ord>, opp: seq<Ord>) {
    forall i, j :: 0 <= i < |own| && 0 <= j < |opp| ==> BetterPrice(Opposite(side), own[i].price, opp[j].price)
  }

  ghost predicate TwoSided(side: Side, own: seq<Ord>, opp: seq<Ord>, seqNo: nat) {
    QueueOk(side, own, seqNo) && QueueOk(Opposite(side), opp, seqNo) && Apart(own, opp) && Clear(side, own, opp)
  }

  ghost predicate BookOk(b: Book) {
    TwoSided(Buy, b.bids, b.asks, b.seqNo)
  }

  /** In a well-formed book every bid is strictly below every ask. */
  lemma Uncrossed(b: Book)
    requires BookOk(b)
    ensures forall i, j :: 0 <= i < |b.bids| && 0 <= j < |b.asks| ==> b.bids[i].price < b.asks[j].price
  {
    assert forall i, j :: 0 <= i < |b.bids| && 0 <= j < |b.asks| ==>
      BetterPrice(Sell, b.bids[i].price, b.asks[j].price);
  }

  lemma FromSide(b: Book, side: Side)
    ensures BookOk(b) <==> TwoSided(side, b.Queue(side), b.Queue(Opposite(side)), b.seqNo)
  {
    if side == Sell {
      assert Clear(Sell, b.asks, b.bids) <==> Clear(Buy, b.bids, b.asks) by {
        assert Clear(Sell, b.asks, b.bids) ==> forall i, j :: 0 <= i < |b.asks| && 0 <= j < |b.bids| ==>
          BetterPrice(Buy, b.asks[i].price, b.bids[j].price);
      }
    }
  }

  ghost predicate HasId(q: seq<Ord>, id: string) {
    exists i :: 0 <= i < |q| && q[i].id == id
  }

  // ----- matching

  /** `r` is the tail of `q`, its front order perhaps filled in part. */
  ghost predicate IsTail(r: seq<Ord>, q: seq<Ord>) {
    && |r| <= |q|
    && forall i :: 0 <= i < |r| ==> MetBy(r[i], q[|q| - |r| + i]) && (i > 0 ==> r[i] == q[|q| - |r| + i])
  }

  predicate MetBy(o: Ord, before: Ord) {
    o == before.(filled := o.filled) && before.filled <= o.filled < o.quantity
  }

  lemma IsTailCons(r: seq<Ord>, q: seq<Ord>)
    requires q != [] && IsTail(r, q[1..])
    ensures IsTail(r, q)
  {
    forall i | 0 <= i < |r|
      ensures MetBy(r[i], q[|q| - |r| + i]) && (i > 0 ==> r[i] == q[|q| - |r| + i])
    {
      assert q[1..][|q[1..]| - |r| + i] == q[|q| - |r| + i];
    }
  }

  /** What a match leaves is a tail of the queue, and a taker that still wants more does not cross it. */
  lemma {:induction false} MatchTail(taker: Ord, q: seq<Ord>)
    requires Unfilled(q)
    ensures IsTail(Match(taker, q).queue, q)
    ensures var m := Match(taker, q);
      && m.taker == taker.(filled := m.taker.filled)
      && (taker.Remaining() >= 0 ==> 0 <= m.taker.Remaining() <= taker.Remaining())
      && (m.queue != [] && m.taker.Remaining() > 0 ==> !Crosses(taker.side, taker.kind, taker.price, m.queue[0].price))
    decreases q
  {
    if taker.Remaining() <= 0 || q == [] || !Crosses(taker.side, taker.kind, taker.price, q[0].price) {
    } else if q[0].user == taker.user {
      MatchTail(taker, q[1..]);
      IsTailCons(Match(taker, q).queue, q);
    } else if q[0].Remaining() <= taker.Remaining() {
      MatchTail(taker.(filled := taker.filled + q[0].Remaining()), q[1..]);
      IsTailCons(Match(taker, q).queue, q);
    }
  }

  lemma {:induction false} TakerKept(taker: Ord, q: seq<Ord>)
    ensures Match(taker, q).taker == taker.(filled := Match(taker, q).taker.filled)
    decreases q
  {
    if q != [] {
      TakerKept(taker, q[1..]);
      TakerKept(taker.(filled := taker.filled + Min(taker.Remaining(), q[0].Remaining())), q[1..]);
    }
  }

  /** A tail is as well ordered and as clear of the other side as the queue it comes from. */
  lemma TailKeeps(side: Side, own: seq<Ord>, q: seq<Ord>, r: seq<Ord>, seqNo: nat)
    requires TwoSided(side, own, q, seqNo) && IsTail(r, q)
    ensures TwoSided(side, own, r, seqNo)
    ensures forall id :: !HasId(q, id) ==> !HasId(r, id)
  {
    var d := |q| - |r|;
    assert forall i :: 0 <= i < |r| ==> MetBy(r[i], q[d + i]);
    assert forall i :: 0 <= i < |r| ==>
      r[i].price == q[d + i].price && r[i].id == q[d + i].id && r[i].sequence == q[d + i].sequence;
    forall i, j | 0 <= i < j < |r|
      ensures Ahead(Opposite(side), r[i], r[j]) && r[i].id != r[j].id
    {
      assert Ahead(Opposite(side), q[d + i], q[d + j]);
    }
    forall i | 0 <= i < |r|
      ensures MayRest(Opposite(side), r[i], seqNo)
    {
      assert MayRest(Opposite(side), q[d + i], seqNo);
    }
  }

  lemma MatchKeeps(taker: Ord, own: seq<Ord>, q: seq<Ord>, seqNo: nat)
    requires TwoSided(taker.side, own, q, seqNo)
    ensures TwoSided(taker.side, own, Match(taker, q).queue, seqNo)
    ensures forall id :: !HasId(q, id) ==> !HasId(Match(taker, q).queue, id)
  {
    MatchTail(taker, q);
    TailKeeps(taker.side, own, q, Match(taker, q).queue, seqNo);
  }

  // ----- resting and cancelling

  /** An order goes in behind every order at its price or a better one. */
  lemma {:induction false} InsertPlace(side: Side, q: seq<Ord>, o: Ord) returns (p: nat)
    ensures p <= |q| && Insert(side, q, o) == q[..p] + [o] + q[p..]
    ensures forall i :: 0 <= i < p ==> !BetterPrice(side, o.price, q[i].price)
    ensures p < |q| ==> BetterPrice(side, o.price, q[p].price)
  {
    if q == [] || BetterPrice(side, o.price, q[0].price) {
      p := 0;
    } else {
      p := InsertPlace(side, q[1..], o);
      p := p + 1;
      assert q[..p] == [q[0]] + q[1..][..p - 1];
    }
  }

  lemma InsertKeeps(side: Side, q: seq<Ord>, o: Ord, seqNo: nat)
    requires QueueOk(side, q, seqNo) && MayRest(side, o, seqNo + 1) && o.sequence == seqNo + 1
    requires !HasId(q, o.id)
    ensures QueueOk(side, Insert(side, q, o), seqNo + 1)
    ensures forall i :: 0 <= i < |Insert(side, q, o)| ==> Insert(side, q, o)[i] in q + [o]
  {
    hide Insert;
    var p := InsertPlace(side, q, o);
    var r := q[..p] + [o] + q[p..];
    forall i | 0 <= i < |r| ensures MayRest(side, r[i], seqNo + 1) && r[i] in q + [o] {
      assert i != p ==> MayRest(side, q[if i < p then i else i - 1], seqNo);
      assert i != p ==> r[i] == q[if i < p then i else i - 1];
    }
    forall i, j | 0 <= i < j < |r|
      ensures Ahead(side, r[i], r[j]) && r[i].id != r[j].id
    {
      var i', j' := if i < p then i else i - 1, if j < p then j else j - 1;
      if i != p && j != p {
        assert Ahead(side, q[i'], q[j']) && q[i'].id != q[j'].id;
      } else if i == p && j > p + 1 {
        assert Ahead(side, q[p], q[j']);
      }
    }
  }

  lemma {:induction false} WithoutPlace(q: seq<Ord>, id: string) returns (p: nat)
    requires Find(q, id).Some?
    ensures p < |q| && q[p].id == id && Find(q, id) == Some(q[p]) && Without(q, id) == q[..p] + q[p + 1..]
  {
    if q[0].id == id {
      p := 0;
    } else {
      p := WithoutPlace(q[1..], id);
      p := p + 1;
      assert q[..p] == [q[0]] + q[1..][..p - 1];
    }
  }

  lemma HasIdCons(q: seq<Ord>, id: string)
    requires q != []
    ensures HasId(q, id) <==> q[0].id == id || HasId(q[1..], id)
  {
    if HasId(q[1..], id) {
      var i :| 0 <= i < |q[1..]| && q[1..][i].id == id;
      assert q[i + 1].id == id;
    }
    if HasId(q, id) && q[0].id != id {
      var i :| 0 <= i < |q| && q[i].id == id;
      assert q[1..][i - 1].id == id;
    }
  }

  lemma {:induction false} FindHas(q: seq<Ord>, id: string)
    ensures Find(q, id).Some? <==> HasId(q, id)
  {
    if q != [] {
      FindHas(q[1..], id);
      HasIdCons(q, id);
    }
  }

  /** Taking one order out of a queue leaves the others, and none with its id. */
  lemma WithoutMembers(q: seq<Ord>, id: string)
    requires Find(q, id).Some? && DistinctIds(q)
    ensures !HasId(Without(q, id), id)
    ensures forall x :: x != id && HasId(q, x) ==> HasId(Without(q, id), x)
    ensures forall i :: 0 <= i < |Without(q, id)| ==> Without(q, id)[i] in q && Without(q, id)[i].id != id
  {
    var p := WithoutPlace(q, id);
    var r := Without(q, id);
    forall i | 0 <= i < |r| ensures r[i] in q && r[i].id != id {
      assert r[i] == q[if i < p then i else i + 1];
    }
    forall x | x != id && HasId(q, x) ensures HasId(r, x) {
      var i :| 0 <= i < |q| && q[i].id == x;
      assert r[if i < p then i else i - 1] == q[i];
    }
  }

  lemma WithoutKeeps(side: Side, q: seq<Ord>, id: string, seqNo: nat)
    requires QueueOk(side, q, seqNo) && Find(q, id).Some?
    ensures QueueOk(side, Without(q, id), seqNo)
    ensures forall i :: 0 <= i < |Without(q, id)| ==> Without(q, id)[i] in q
  {
    var p := WithoutPlace(q, id);
    var r := q[..p] + q[p + 1..];
    forall i, j | 0 <= i < j < |r|
      ensures Ahead(side, r[i], r[j]) && r[i].id != r[j].id
    {
      assert Ahead(side, q[if i < p then i else i + 1], q[if j < p then j else j + 1]);
    }
  }

  // ----- how much is traded, and with whom

  /** What the taker gains is what the trades say, and what the other users' orders lose. */
  lemma {:induction false} MatchConserves(taker: Ord, q: seq<Ord>)
    requires Unfilled(q) && taker.Remaining() >= 0
    ensures var m := Match(taker, q);
      && Traded(m.trades) == m.taker.filled - taker.filled
      && Size(Foreign(taker.user, q)) - Size(Foreign(taker.user, m.queue)) == m.taker.filled - taker.filled
    decreases q
  {
    if taker.Remaining() <= 0 || q == [] || !Crosses(taker.side, taker.kind, taker.price, q[0].price) {
    } else if q[0].user == taker.user {
      MatchConserves(taker, q[1..]);
      assert Foreign(taker.user, q) == Foreign(taker.user, q[1..]);
    } else {
      var quantity := Min(taker.Remaining(), q[0].Remaining());
      var taker' := taker.(filled := taker.filled + quantity);
      if q[0].Remaining() <= taker.Remaining() {
        MatchConserves(taker', q[1..]);
      } else {
        var rest := [q[0].(filled := q[0].filled + quantity)] + q[1..];
        assert Foreign(taker.user, rest) == [rest[0]] + Foreign(taker.user, q[1..]);
      }
    }
  }

  lemma {:induction false} CrossingIsPrefix(taker: Ord, q: seq<Ord>, k: nat)
    requires Ordered(Opposite(taker.side), q) && k <= |q|
    requires forall i :: 0 <= i < k ==> Crosses(taker.side, taker.kind, taker.price, q[i].price)
    ensures Crossing(taker, q) == q[..k] + Crossing(taker, q[k..])
    ensures k < |q| && !Crosses(taker.side, taker.kind, taker.price, q[k].price) ==> Crossing(taker, q[k..]) == []
    decreases q
  {
    if k > 0 {
      CrossingIsPrefix(taker, q[1..], k - 1);
      assert q[1..][k - 1..] == q[k..] && q[..k] == [q[0]] + q[1..][..k - 1];
    } else if q != [] {
      assert q[0..] == q;
      if !Crosses(taker.side, taker.kind, taker.price, q[0].price) {
        NothingCrosses(taker, q);
      }
    }
  }

  lemma {:induction false} NothingCrosses(taker: Ord, q: seq<Ord>)
    requires Ordered(Opposite(taker.side), q)
    requires q != [] ==> !Crosses(taker.side, taker.kind, taker.price, q[0].price)
    ensures Crossing(taker, q) == []
    decreases q
  {
    if |q| > 1 {
      assert Ahead(Opposite(taker.side), q[0], q[1]);
    }
    if q != [] {
      NothingCrosses(taker, q[1..]);
    }
  }

  lemma {:induction false} ForeignAppend(user: string, a: seq<Ord>, b: seq<Ord>)
    ensures Foreign(user, a + b) == Foreign(user, a) + Foreign(user, b)
  {
    if a == [] {
      assert a + b == b;
    } else {
      assert (a + b)[1..] == a[1..] + b;
      ForeignAppend(user, a[1..], b);
    }
  }

  lemma {:induction false} ForeignUnfilled(user: string, q: seq<Ord>)
    requires Unfilled(q)
    ensures Unfilled(Foreign(user, q))
  {
    if q != [] {
      ForeignUnfilled(user, q[1..]);
    }
  }

  lemma {:induction false} CrossingUnfilled(taker: Ord, q: seq<Ord>)
    requires Unfilled(q)
    ensures Unfilled(Crossing(taker, q))
  {
    if q != [] {
      CrossingUnfilled(taker, q[1..]);
    }
  }

  /** The taker is filled by the smaller of what it wants and what others offer at prices it crosses. */
  lemma FillFormula(taker: Ord, q: seq<Ord>)
    requires Ordered(Opposite(taker.side), q) && Unfilled(q) && taker.Remaining() >= 0
    ensures Match(taker, q).taker.filled - taker.filled ==
            Min(taker.Remaining(), Size(Foreign(taker.user, Crossing(taker, q))))
  {
    var k := SomethingReached(taker, q);
    MatchMeaning(taker, q, k);
    CrossingIsPrefix(taker, q, k);
    var offered, beyond := Foreign(taker.user, q[..k]), Foreign(taker.user, Crossing(taker, q[k..]));
    ForeignAppend(taker.user, q[..k], Crossing(taker, q[k..]));
    SizeAppend(offered, beyond);
    CrossingUnfilled(taker, q[k..]);
    ForeignUnfilled(taker.user, Crossing(taker, q[k..]));
    UnfilledSize(beyond);
  }

  lemma {:induction false} ForeignDistinct(user: string, q: seq<Ord>)
    requires DistinctIds(q)
    ensures DistinctIds(Foreign(user, q))
    ensures forall o :: o in Foreign(user, q) ==> o in q && o.user != user
  {
    if q != [] {
      ForeignDistinct(user, q[1..]);
      forall o | o in Foreign(user, q[1..]) ensures o.id != q[0].id {
        var i :| 0 <= i < |q[1..]| && q[1..][i] == o;
        assert q[i + 1] == o;
      }
    }
  }

  lemma ReachesWithin(taker: Ord, q: seq<Ord>, k: nat)
    requires Reaches(taker, q, k)
    ensures k <= |q|
  {
  }

  /** No maker trades twice, and no trade is between a user and itself. */
  lemma TradesAreApart(taker: Ord, q: seq<Ord>)
    requires DistinctIds(q) && Unfilled(q) && taker.Remaining() >= 0
    ensures var ts := Match(taker, q).trades;
      && (forall i, j :: 0 <= i < j < |ts| ==> ts[i].makerId != ts[j].makerId)
      && (forall i :: 0 <= i < |ts| ==>
           ts[i].makerUser != ts[i].takerUser && ts[i].takerId == taker.id && ts[i].quantity > 0)
  {
    hide Match;
    hide Reaches;
    hide Fills;
    hide Foreign;
    var k := SomethingReached(taker, q);
    MatchMeaning(taker, q, k);
    ReachesWithin(taker, q, k);
    var makers := Foreign(taker.user, q[..k]);
    var ts := Fills(taker, makers);
    ForeignDistinct(taker.user, q[..k]);
    FillsLength(taker, makers);
    forall i | 0 <= i < |ts|
      ensures
        && ts[i].makerId == makers[i].id && ts[i].makerUser != ts[i].takerUser && ts[i].takerId == taker.id
        && ts[i].quantity > 0
    {
      FillReached(taker, q, k, i);
      assert makers[i] in makers;
    }
    forall i, j | 0 <= i < j < |ts| ensures ts[i].makerId != ts[j].makerId {
      assert makers[i].id != makers[j].id;
    }
  }

  /** Every maker reached finds the taker still wanting something. */
  lemma FillReached(taker: Ord, q: seq<Ord>, k: nat, i: nat)
    requires Reaches(taker, q, k) && Unfilled(q) && i < |Foreign(taker.user, q[..k])|
    ensures var makers := Foreign(taker.user, q[..k]);
      && |Fills(taker, makers)| == |makers| && Size(makers[..i]) < taker.Remaining()
      && Fills(taker, makers)[i] ==
           TradeOf(taker, makers[i], Min(taker.Remaining() - Size(makers[..i]), makers[i].Remaining()))
      && makers[i].Remaining() > 0
  {
    var makers := Foreign(taker.user, q[..k]);
    var n := ForeignIndex(taker.user, q, k, i);
    assert Crosses(taker.side, taker.kind, taker.price, q[n].price);
    ForeignUnfilled(taker.user, q[..k]);
    FillsAt(taker, makers, i);
  }

  /** The i-th order of others among the first `k` sits at some place `n`, with the i earlier ones in front. */
  lemma {:induction false} ForeignIndex(user: string, q: seq<Ord>, k: nat, i: nat) returns (n: nat)
    requires k <= |q| && i < |Foreign(user, q[..k])|
    ensures n < k && Foreign(user, q[..n]) == Foreign(user, q[..k])[..i]
    decreases q
  {
    PrefixCons(user, q, k);
    if q[0].user != user && i == 0 {
      n := 0;
      assert q[..0] == [];
    } else {
      n := ForeignIndex(user, q[1..], k - 1, if q[0].user == user then i else i - 1);
      n := n + 1;
      PrefixCons(user, q, n);
    }
  }

  lemma TailUnused(r: seq<Ord>, q: seq<Ord>, id: string)
    requires IsTail(r, q) && !HasId(q, id)
    ensures !HasId(r, id)
  {
    forall i | 0 <= i < |r| ensures r[i].id != id { assert MetBy(r[i], q[|q| - |r| + i]); }
  }

  /** Every trade but the last fills its maker, so that it is in the queue no more. */
  lemma {:induction false} EarlierMakersGone(taker: Ord, q: seq<Ord>, i: nat)
    requires DistinctIds(q) && Unfilled(q) && i + 1 < |Match(taker, q).trades|
    ensures !HasId(Match(taker, q).queue, Match(taker, q).trades[i].makerId)
    decreases q
  {
    forall j | 0 <= j < |q[1..]| ensures q[1..][j].id != q[0].id { assert q[j + 1].id != q[0].id; }
    if q[0].user == taker.user {
      EarlierMakersGone(taker, q[1..], i);
    } else {
      var taker' := taker.(filled := taker.filled + Min(taker.Remaining(), q[0].Remaining()));
      if i > 0 {
        EarlierMakersGone(taker', q[1..], i - 1);
      } else {
        MatchTail(taker', q[1..]);
        TailUnused(Match(taker', q[1..]).queue, q[1..], q[0].id);
      }
    }
  }

  // ----- the operations keep the book well formed

  /** What the book assumes of a new order: an id that is not resting, and a sensible fill. */
  ghost predicate Admissible(b: Book, o: Ord) {
    !HasId(b.bids, o.id) && !HasId(b.asks, o.id) && 0 <= o.filled <= o.quantity
  }

  lemma Later(side: Side, own: seq<Ord>, opp: seq<Ord>, seqNo: nat)
    requires TwoSided(side, own, opp, seqNo)
    ensures TwoSided(side, own, opp, seqNo + 1)
  {
    forall i | 0 <= i < |own| ensures MayRest(side, own[i], seqNo + 1) { assert MayRest(side, own[i], seqNo); }
    forall i | 0 <= i < |opp| ensures MayRest(Opposite(side), opp[i], seqNo + 1) {
      assert MayRest(Opposite(side), opp[i], seqNo);
    }
  }

  /** An order that still wants more after its match crosses nothing that is left, so it can rest. */
  lemma RestKeeps(taker: Ord, own: seq<Ord>, q: seq<Ord>, seqNo: nat)
    requires TwoSided(taker.side, own, q, seqNo) && taker.kind == Limit && taker.sequence == seqNo + 1
    requires !HasId(own, taker.id) && !HasId(q, taker.id) && 0 <= taker.filled <= taker.quantity
    requires Match(taker, q).taker.Remaining() > 0
    ensures var m := Match(taker, q);
      TwoSided(taker.side, Insert(taker.side, own, m.taker), m.queue, seqNo + 1)
  {
    MatchTail(taker, q);
    MatchKeeps(taker, own, q, seqNo);
    var m := Match(taker, q);
    var side, r := Opposite(taker.side), m.queue;
    forall i | 0 <= i < |r|
      ensures BetterPrice(side, taker.price, r[i].price)
    {
      assert i > 0 ==> Ahead(side, r[0], r[i]);
    }
    Later(taker.side, own, r, seqNo);
    InsertKeeps(taker.side, own, m.taker, seqNo);
    Joined(taker.side, own, m.taker, r);
  }

  lemma Joined(side: Side, own: seq<Ord>, o: Ord, opp: seq<Ord>)
    requires Apart(own, opp) && Clear(side, own, opp) && !HasId(opp, o.id)
    requires forall i :: 0 <= i < |opp| ==> BetterPrice(Opposite(side), o.price, opp[i].price)
    ensures Apart(Insert(side, own, o), opp) && Clear(side, Insert(side, own, o), opp)
  {
    var p := InsertPlace(side, own, o);
  }

  lemma PlaceKeeps(b: Book, o: Ord)
    requires BookOk(b) && Admissible(b, o)
    ensures BookOk(Place(b, o).book)
  {
    hide BookOk;
    hide TwoSided;
    hide Match;
    hide Insert;
    hide HasId;
    var taker := o.(sequence := b.seqNo + 1);
    var own, opp := b.Queue(o.side), b.Queue(Opposite(o.side));
    FromSide(b, o.side);
    FromSide(Place(b, o).book, o.side);
    if taker.kind == Limit && Match(taker, opp).taker.Remaining() > 0 {
      RestKeeps(taker, own, opp, b.seqNo);
    } else {
      MatchKeeps(taker, own, opp, b.seqNo);
      Later(o.side, own, Match(taker, opp).queue, b.seqNo);
    }
  }

  lemma CancelKeeps(b: Book, id: string)
    requires BookOk(b)
    ensures BookOk(Cancel(b, id).book)
  {
    if Find(b.bids, id).Some? {
      WithoutKeeps(Buy, b.bids, id, b.seqNo);
      var p := WithoutPlace(b.bids, id);
    } else if Find(b.asks, id).Some? {
      WithoutKeeps(Sell, b.asks, id, b.seqNo);
      var p := WithoutPlace(b.asks, id);
    }
  }

  // ----- runs

  datatype Op = PlaceOp(order: Ord) | CancelOp(id: string)

  function Step(b: Book, op: Op): Book {
    match op
    case PlaceOp(o) => Place(b, o).book
    case CancelOp(id) => Cancel(b, id).book
  }

  function Run(b: Book, ops: seq<Op>): Book
    decreases ops
  {
    if ops == [] then b else Run(Step(b, ops[0]), ops[1..])
  }

  /** Every order placed along the run is one the book can take at that moment. */
  ghost predicate Proper(b: Book, ops: seq<Op>)
    decreases ops
  {
    ops != [] ==>
      (ops[0].PlaceOp? ==> Admissible(b, ops[0].order)) && Proper(Step(b, ops[0]), ops[1..])
  }

  lemma StepKeeps(b: Book, op: Op)
    requires BookOk(b) && (op.PlaceOp? ==> Admissible(b, op.order))
    ensures BookOk(Step(b, op))
  {
    match op
    case PlaceOp(o) => PlaceKeeps(b, o);
    case CancelOp(id) => CancelKeeps(b, id);
  }

  /** Any run of orders and cancellations leaves the book sorted, with distinct ids, and uncrossed. */
  lemma {:induction false} RunKeeps(b: Book, ops: seq<Op>)
    requires BookOk(b) && Proper(b, ops)
    ensures BookOk(Run(b, ops))
    decreases ops
  {
    if ops != [] {
      StepKeeps(b, ops[0]);
      RunKeeps(Step(b, ops[0]), ops[1..]);
    }
  }

  lemma InsertedUnused(side: Side, q: seq<Ord>, o: Ord, id: string)
    requires !HasId(q, id) && o.id != id
    ensures !HasId(Insert(side, q, o), id)
  {
    var p := InsertPlace(side, q, o);
    var r := Insert(side, q, o);
    forall i | 0 <= i < |r| ensures r[i].id != id {
      assert i != p ==> r[i] == q[if i < p then i else i - 1];
    }
  }

  lemma WithoutUnused(q: seq<Ord>, id: string, x: string)
    requires !HasId(q, x)
    ensures !HasId(Without(q, id), x)
    decreases q
  {
    if q != [] { WithoutUnused(q[1..], id, x); }
  }

  /** An id comes to rest in a book only with its order. */
  lemma StepUnused(b: Book, op: Op, id: string)
    requires BookOk(b) && !HasId(b.bids, id) && !HasId(b.asks, id) && (op.PlaceOp? ==> op.order.id != id)
    ensures !HasId(Step(b, op).bids, id) && !HasId(Step(b, op).asks, id)
  {
    match op
    case PlaceOp(o) =>
      hide Match;
      hide Insert;
      hide TwoSided;
      hide HasId;
      FromSide(b, o.side);
      var taker, own, opp := o.(sequence := b.seqNo + 1), b.Queue(o.side), b.Queue(Opposite(o.side));
      MatchKeeps(taker, own, opp, b.seqNo);
      QueueUnfilled(b, Opposite(o.side));
      MatchTail(taker, opp);
      InsertedUnused(o.side, own, Match(taker, opp).taker, id);
    case CancelOp(x) =>
      WithoutUnused(b.bids, x, id);
      WithoutUnused(b.asks, x, id);
  }

  lemma QueueUnfilled(b: Book, side: Side)
    requires BookOk(b)
    ensures Unfilled(b.Queue(side))
  {
    FromSide(b, side);
    forall i | 0 <= i < |b.Queue(side)| ensures b.Queue(side)[i].Remaining() > 0 {
      assert MayRest(side, b.Queue(side)[i], b.seqNo);
    }
  }

  lemma {:induction false} RunUnused(b: Book, ops: seq<Op>, id: string)
    requires BookOk(b) && Proper(b, ops) && !HasId(b.bids, id) && !HasId(b.asks, id)
    requires forall i :: 0 <= i < |ops| && ops[i].PlaceOp? ==> ops[i].order.id != id
    ensures !HasId(Run(b, ops).bids, id) && !HasId(Run(b, ops).asks, id)
    decreases ops
  {
    if ops != [] {
      hide BookOk;
      hide HasId;
      hide Step;
      StepKeeps(b, ops[0]);
      StepUnused(b, ops[0], id);
      assert forall i :: 0 <= i < |ops[1..]| ==> ops[1..][i] == ops[i + 1];
      RunUnused(Step(b, ops[0]), ops[1..], id);
    }
  }

  lemma {:induction false} ProperThen(b: Book, ops: seq<Op>, op: Op)
    requires Proper(b, ops) && (op.PlaceOp? ==> Admissible(Run(b, ops), op.order))
    ensures Proper(b, ops + [op])
    decreases ops
  {
    hide Admissible;
    hide Step;
    if ops == [] {
      assert ops + [op] == [op] && [op][1..] == [];
    } else {
      assert (ops + [op])[1..] == ops[1..] + [op];
      ProperThen(Step(b, ops[0]), ops[1..], op);
    }
  }

  lemma {:induction false} RunThen(b: Book, ops: seq<Op>, op: Op)
    ensures Run(b, ops + [op]) == Step(Run(b, ops), op)
    decreases ops
  {
    if ops == [] {
      assert [op][1..] == [];
    } else {
      assert (ops + [op])[1..] == ops[1..] + [op];
      RunThen(Step(b, ops[0]), ops[1..], op);
    }
  }

  lemma {:induction false} VersionGrows(b: Book, ops: seq<Op>)
    ensures Run(b, ops).version >= b.version
    decreases ops
  {
    if ops != [] {
      VersionGrows(Step(b, ops[0]), ops[1..]);
    }
  }

  /** A version number stands for one state of the queues: if it is the same, nothing has changed in between. */
  lemma {:induction false} SameVersionSameQueues(b: Book, ops: seq<Op>)
    requires Run(b, ops).version == b.version
    ensures Run(b, ops) == b
    decreases ops
  {
    if ops != [] {
      VersionGrows(Step(b, ops[0]), ops[1..]);
      SameVersionSameQueues(Step(b, ops[0]), ops[1..]);
    }
  }
}
