/** What one match does, said without following the match step by step. */
module MatchingFills {
  import opened MatchingModel

  // ----- sizes and owners

  function Size(q: seq<Ord>): int {
    if q == [] then 0 else q[0].Remaining() + Size(q[1..])
  }

  function Traded(ts: seq<Trade>): int {
    if ts == [] then 0 else ts[0].quantity + Traded(ts[1..])
  }

  /** The orders of a queue that belong to someone else than `user`. */
  function Foreign(user: string, q: seq<Ord>): seq<Ord> {
    if q == [] then [] else (if q[0].user == user then [] else [q[0]]) + Foreign(user, q[1..])
  }

  function Own(user: string, q: seq<Ord>): seq<Ord> {
    if q == [] then [] else (if q[0].user == user then [q[0]] else []) + Own(user, q[1..])
  }

  /** The orders of a queue that `taker` may trade with at their price. */
  function Crossing(taker: Ord, q: seq<Ord>): seq<Ord> {
    if q == [] then []
    else (if Crosses(taker.side, taker.kind, taker.price, q[0].price) then [q[0]] else []) + Crossing(taker, q[1..])
  }

  /** Every order in the queue still has something to trade. */
  ghost predicate Unfilled(q: seq<Ord>) {
    forall i :: 0 <= i < |q| ==> q[i].Remaining() > 0
  }

  /**
   The first `k` orders are exactly those that the taker gets to: each of them
   crosses and is reached before the others' orders in front of it have filled the taker, and
   the next one is not.
   */
  ghost predicate Reaches(taker: Ord, q: seq<Ord>, k: nat) {
    && k <= |q|
    && (forall i :: 0 <= i < k ==>
          Crosses(taker.side, taker.kind, taker.price, q[i].price) &&
            Size(Foreign(taker.user, q[..i])) < taker.Remaining())
    && (k == |q| || !Crosses(taker.side, taker.kind, taker.price, q[k].price) ||
        Size(Foreign(taker.user, q[..k])) >= taker.Remaining())
  }

  /** The trades a taker makes with `makers` in turn, each for all it has or all the taker still wants. */
  function Fills(taker: Ord, makers: seq<Ord>): seq<Trade>
    decreases makers
  {
    if makers == [] then []
    else
      var quantity := Min(taker.Remaining(), makers[0].Remaining());
      [TradeOf(taker, makers[0], quantity)] + Fills(taker.(filled := taker.filled + quantity), makers[1..])
  }

  lemma {:induction false} SizeAppend(a: seq<Ord>, b: seq<Ord>)
    ensures Size(a + b) == Size(a) + Size(b)
  {
    if a == [] {
      assert a + b == b;
    } else {
      assert (a + b)[1..] == a[1..] + b;
      SizeAppend(a[1..], b);
    }
  }

  /** Trade `j` goes to maker `j`, for what is left of the taker after the makers in front. */
  lemma {:induction false} FillsAt(taker: Ord, makers: seq<Ord>, j: nat)
    requires Unfilled(makers) && j < |makers| && Size(makers[..j]) <= taker.Remaining()
    ensures |Fills(taker, makers)| == |makers|
    ensures Fills(taker, makers)[j] ==
            TradeOf(taker, makers[j], Min(taker.Remaining() - Size(makers[..j]), makers[j].Remaining()))
    decreases makers
  {
    FillsLength(taker, makers);
    if j > 0 {
      var quantity := Min(taker.Remaining(), makers[0].Remaining());
      assert makers[..j] == [makers[0]] + makers[1..][..j - 1];
      SizeAppend([makers[0]], makers[1..][..j - 1]);
      UnfilledSize(makers[1..][..j - 1]);
      FillsAt(taker.(filled := taker.filled + quantity), makers[1..], j - 1);
    }
  }

  lemma {:induction false} FillsLength(taker: Ord, makers: seq<Ord>)
    ensures |Fills(taker, makers)| == |makers|
    decreases makers
  {
    if makers != [] {
      FillsLength(taker.(filled := taker.filled + Min(taker.Remaining(), makers[0].Remaining())), makers[1..]);
    }
  }

  lemma {:induction false} UnfilledSize(q: seq<Ord>)
    requires Unfilled(q)
    ensures Size(q) >= |q|
  {
    if q != [] {
      UnfilledSize(q[1..]);
    }
  }

  /** What a front order adds to a prefix: a cancellation if it is the user's own, and else something to trade. */
  lemma PrefixCons(user: string, q: seq<Ord>, i: nat)
    requires 0 < i <= |q|
    ensures var f, own := Foreign(user, q[1..][..i - 1]), Own(user, q[1..][..i - 1]);
      if q[0].user == user then Foreign(user, q[..i]) == f && Own(user, q[..i]) == [q[0]] + own
      else Foreign(user, q[..i]) == [q[0]] + f && Own(user, q[..i]) == own
    ensures Size(Foreign(user, q[..i])) ==
            (if q[0].user == user then 0 else q[0].Remaining()) + Size(Foreign(user, q[1..][..i - 1]))
  {
    assert q[..i][1..] == q[1..][..i - 1] && q[..i][0] == q[0];
  }

  /** Past a front order that leaves it something to want, the taker reaches one order less. */
  lemma ReachesTail(taker: Ord, taker': Ord, q: seq<Ord>, k: nat)
    requires 0 < k && Reaches(taker, q, k)
    requires taker' == taker.(filled := taker'.filled)
    requires taker'.Remaining() == taker.Remaining() - (if q[0].user == taker.user then 0 else q[0].Remaining())
    ensures Reaches(taker', q[1..], k - 1)
  {
    forall i | 0 <= i < k - 1
      ensures Crosses(taker'.side, taker'.kind, taker'.price, q[1..][i].price)
      ensures Size(Foreign(taker.user, q[1..][..i])) < taker'.Remaining()
    {
      assert q[1..][i] == q[i + 1];
      PrefixCons(taker.user, q, i + 1);
    }
    PrefixCons(taker.user, q, k);
  }

  /** The queue after the taker has met its first `k` orders. */
  function Leftover(taker: Ord, q: seq<Ord>, k: nat): seq<Ord>
    requires k <= |q|
  {
    var over := Size(Foreign(taker.user, q[..k])) - taker.Remaining();
    if over <= 0 || k == 0 then q[k..] else [q[k - 1].(filled := q[k - 1].quantity - over)] + q[k..]
  }

  lemma LeftoverTail(taker: Ord, taker': Ord, q: seq<Ord>, k: nat)
    requires 0 < k <= |q| && taker'.user == taker.user && taker'.Remaining() >= 0
    requires taker'.Remaining() == taker.Remaining() - (if q[0].user == taker.user then 0 else q[0].Remaining())
    ensures Leftover(taker, q, k) == Leftover(taker', q[1..], k - 1)
  {
    PrefixCons(taker.user, q, k);
    assert q[k..] == q[1..][k - 1..] && (k > 1 ==> q[k - 1] == q[1..][k - 2]);
    assert k == 1 ==> q[1..][..0] == [];
  }

  /** What a match is to come to, given how far the taker gets. */
  ghost predicate Means(m: Outcome, taker: Ord, q: seq<Ord>, k: nat)
    requires k <= |q|
  {
    var makers := Foreign(taker.user, q[..k]);
    && m.trades == Fills(taker, makers)
    && m.cancelled == Own(taker.user, q[..k])
    && m.taker == taker.(filled := taker.filled + Min(taker.Remaining(), Size(makers)))
    && m.queue == Leftover(taker, q, k)
  }

  /** A match that meets an order of the taker's own. */
  lemma MatchOwn(taker: Ord, q: seq<Ord>)
    requires q != [] && taker.Remaining() > 0 && Crosses(taker.side, taker.kind, taker.price, q[0].price)
    requires q[0].user == taker.user
    ensures var rest := Match(taker, q[1..]); Match(taker, q) == rest.(cancelled := [q[0]] + rest.cancelled)
  {
    hide Crosses;
  }

  /** A match that fills the order it meets. */
  lemma MatchFilled(taker: Ord, taker': Ord, q: seq<Ord>)
    requires q != [] && 0 < q[0].Remaining() <= taker.Remaining()
    requires Crosses(taker.side, taker.kind, taker.price, q[0].price) && q[0].user != taker.user
    requires taker' == taker.(filled := taker.filled + q[0].Remaining())
    ensures var rest := Match(taker', q[1..]);
      Match(taker, q) == rest.(trades := [TradeOf(taker, q[0], q[0].Remaining())] + rest.trades)
  {
    hide Crosses;
    hide TradeOf;
    assert Min(taker.Remaining(), q[0].Remaining()) == q[0].Remaining();
    hide Min;
    var maker' := q[0].(filled := q[0].filled + q[0].Remaining());
    assert maker'.Remaining() == 0;
    hide Ord.Remaining;
  }

  lemma MeansOwn(taker: Ord, q: seq<Ord>, k: nat)
    requires 0 < k <= |q| && q[0].user == taker.user && (k == 1 ==> taker.Remaining() >= 0)
    requires Means(Match(taker, q[1..]), taker, q[1..], k - 1)
    requires taker.Remaining() > 0 && Crosses(taker.side, taker.kind, taker.price, q[0].price)
    ensures Means(Match(taker, q), taker, q, k)
  {
    hide Match;
    hide Fills;
    hide Own;
    hide Foreign;
    hide Leftover;
    hide Size;
    PrefixCons(taker.user, q, k);
    MatchOwn(taker, q);
    LeftoverTail(taker, taker, q, k);
  }

  /** What a taker that fills its first maker trades with it and with the others. */
  lemma FillsCons(taker: Ord, maker: Ord, makers: seq<Ord>)
    requires maker.Remaining() <= taker.Remaining()
    ensures Fills(taker, [maker] + makers) ==
            [TradeOf(taker, maker, maker.Remaining())] +
              Fills(taker.(filled := taker.filled + maker.Remaining()), makers)
    ensures var taker' := taker.(filled := taker.filled + maker.Remaining());
      taker.filled + Min(taker.Remaining(), Size([maker] + makers)) == taker'.filled +
        Min(taker'.Remaining(), Size(makers))
  {
    assert ([maker] + makers)[1..] == makers;
  }

  lemma Refilled(o: Ord, a: int, b: int)
    ensures o.(filled := a).(filled := b) == o.(filled := b)
  {
  }

  /** A taker that fills the first order of the queue, and what is to come of the match with the rest. */
  ghost predicate FillsFirst(taker: Ord, taker': Ord, q: seq<Ord>, k: nat) {
    && 0 < k <= |q| && q[0].user != taker.user && 0 < q[0].Remaining() <= taker.Remaining()
    && taker' == taker.(filled := taker.filled + q[0].Remaining())
    && Means(Match(taker', q[1..]), taker', q[1..], k - 1)
    && Crosses(taker.side, taker.kind, taker.price, q[0].price)
  }

  lemma FilledTrades(taker: Ord, taker': Ord, q: seq<Ord>, k: nat)
    requires FillsFirst(taker, taker', q, k)
    ensures Match(taker, q).trades == Fills(taker, Foreign(taker.user, q[..k]))
    ensures Match(taker, q).cancelled == Own(taker.user, q[..k])
  {
    hide Match;
    hide Fills;
    hide Own;
    hide Foreign;
    hide Leftover;
    hide Size;
    hide Crosses;
    hide TradeOf;
    hide Min;
    PrefixCons(taker.user, q, k);
    MatchFilled(taker, taker', q);
    FillsCons(taker, q[0], Foreign(taker.user, q[1..][..k - 1]));
  }

  lemma FilledTaker(taker: Ord, taker': Ord, q: seq<Ord>, k: nat)
    requires FillsFirst(taker, taker', q, k)
    ensures var filled := taker.filled + Min(taker.Remaining(), Size(Foreign(taker.user, q[..k])));
      Match(taker, q).taker == taker.(filled := filled)
  {
    hide Match;
    hide Fills;
    hide Own;
    hide Foreign;
    hide Leftover;
    hide Size;
    hide Crosses;
    hide TradeOf;
    hide Min;
    var makers := Foreign(taker.user, q[1..][..k - 1]);
    PrefixCons(taker.user, q, k);
    MatchFilled(taker, taker', q);
    FillsCons(taker, q[0], makers);
    var filled := taker'.filled + Min(taker'.Remaining(), Size(makers));
    assert Match(taker', q[1..]).taker == taker'.(filled := filled);
    Refilled(taker, taker.filled + q[0].Remaining(), filled);
  }

  lemma FilledQueue(taker: Ord, taker': Ord, q: seq<Ord>, k: nat)
    requires FillsFirst(taker, taker', q, k)
    ensures Match(taker, q).queue == Leftover(taker, q, k)
  {
    hide Match;
    hide Fills;
    hide Own;
    hide Foreign;
    hide Leftover;
    hide Size;
    hide Crosses;
    hide TradeOf;
    hide Min;
    MatchFilled(taker, taker', q);
    LeftoverTail(taker, taker', q, k);
  }

  lemma MeansFilled(taker: Ord, taker': Ord, q: seq<Ord>, k: nat)
    requires FillsFirst(taker, taker', q, k)
    ensures Means(Match(taker, q), taker, q, k)
  {
    hide FillsFirst;
    hide Match;
    hide Fills;
    hide Own;
    hide Foreign;
    hide Leftover;
    hide Size;
    hide Crosses;
    hide TradeOf;
    hide Min;
    FilledTrades(taker, taker', q, k);
    FilledTaker(taker, taker', q, k);
    FilledQueue(taker, taker', q, k);
  }

  /** A first order with more than the taker wants is the only one that is reached. */
  lemma FilledByFirst(taker: Ord, q: seq<Ord>, k: nat)
    requires 0 < k <= |q| && Reaches(taker, q, k) && q[0].user != taker.user && q[0].Remaining() > taker.Remaining()
    ensures k == 1
  {
    assert q[..1] == [q[0]] && Size(Foreign(taker.user, q[..1])) == q[0].Remaining();
  }

  lemma MeansNothing(taker: Ord, q: seq<Ord>)
    requires Reaches(taker, q, 0) && taker.Remaining() >= 0
    ensures Means(Match(taker, q), taker, q, 0)
  {
    assert q[..0] == [] && q[0..] == q;
    assert taker == taker.(filled := taker.filled);
  }

  /** A match that the first order fills. */
  lemma MatchPart(taker: Ord, q: seq<Ord>)
    requires q != [] && q[0].user != taker.user && q[0].Remaining() > taker.Remaining() > 0
    requires Crosses(taker.side, taker.kind, taker.price, q[0].price)
    ensures var n := taker.Remaining();
      Match(taker, q) == Outcome(taker.(filled := taker.filled + n), [TradeOf(taker, q[0], n)], [],
                                 [q[0].(filled := q[0].filled + n)] + q[1..])
  {
    hide Crosses;
    hide TradeOf;
    assert Min(taker.Remaining(), q[0].Remaining()) == taker.Remaining();
    hide Min;
    assert q[0].(filled := q[0].filled + taker.Remaining()).Remaining() > 0;
    hide Ord.Remaining;
  }

  lemma OneFill(taker: Ord, maker: Ord)
    requires maker.user != taker.user && maker.Remaining() > taker.Remaining() > 0
    ensures Foreign(taker.user, [maker]) == [maker] && Own(taker.user, [maker]) == []
    ensures Size([maker]) == maker.Remaining() && Min(taker.Remaining(), Size([maker])) == taker.Remaining()
    ensures Fills(taker, [maker]) == [TradeOf(taker, maker, taker.Remaining())]
  {
    hide TradeOf;
    assert [maker][1..] == [];
  }

  lemma OneLeft(taker: Ord, q: seq<Ord>)
    requires q != [] && q[0].user != taker.user && q[0].Remaining() > taker.Remaining() > 0
    ensures Leftover(taker, q, 1) == [q[0].(filled := q[0].filled + taker.Remaining())] + q[1..]
  {
    hide Foreign;
    hide Size;
    OneFill(taker, q[0]);
    assert q[..1] == [q[0]];
    assert q[0].quantity - (q[0].Remaining() - taker.Remaining()) == q[0].filled + taker.Remaining();
  }

  lemma MeansPart(taker: Ord, q: seq<Ord>)
    requires q != [] && q[0].user != taker.user && q[0].Remaining() > taker.Remaining() > 0
    requires Crosses(taker.side, taker.kind, taker.price, q[0].price)
    ensures Means(Match(taker, q), taker, q, 1)
  {
    hide Match;
    hide Foreign;
    hide Own;
    hide Size;
    hide Fills;
    hide Min;
    hide TradeOf;
    hide Crosses;
    hide Leftover;
    hide Ord.Remaining;
    MatchPart(taker, q);
    OneFill(taker, q[0]);
    OneLeft(taker, q);
    assert q[..1] == [q[0]];
  }

  /** A match, order for order: the fills, the cancellations, the taker's fill and what is left of the queue. */
  lemma {:induction false} MatchMeaning(taker: Ord, q: seq<Ord>, k: nat)
    requires Unfilled(q) && taker.Remaining() >= 0 && Reaches(taker, q, k)
    ensures Means(Match(taker, q), taker, q, k)
    decreases q
  {
    hide Match;
    hide Means;
    if k == 0 {
      MeansNothing(taker, q);
    } else {
      assert q[..0] == [] && Size(Foreign(taker.user, q[..0])) == 0;
      var maker := q[0];
      if maker.user == taker.user {
        ReachesTail(taker, taker, q, k);
        MatchMeaning(taker, q[1..], k - 1);
        MeansOwn(taker, q, k);
      } else if maker.Remaining() <= taker.Remaining() {
        var taker' := taker.(filled := taker.filled + maker.Remaining());
        ReachesTail(taker, taker', q, k);
        MatchMeaning(taker', q[1..], k - 1);
        MeansFilled(taker, taker', q, k);
      } else {
        FilledByFirst(taker, q, k);
        MeansPart(taker, q);
      }
    }
  }

  /** No other number is. */
  lemma ReachedOnce(taker: Ord, q: seq<Ord>, k: nat, n: nat)
    requires Unfilled(q) && Reaches(taker, q, k) && Reaches(taker, q, n)
    ensures k == n
  {
  }

  /** Some number of orders is reached, whatever the queue. */
  lemma SomethingReached(taker: Ord, q: seq<Ord>) returns (k: nat)
    ensures Reaches(taker, q, k)
  {
    k := 0;
    while k < |q| && Crosses(taker.side, taker.kind, taker.price, q[k].price) &&
          Size(Foreign(taker.user, q[..k])) < taker.Remaining()
      invariant k <= |q|
      invariant forall i :: 0 <= i < k ==>
        Crosses(taker.side, taker.kind, taker.price, q[i].price) &&
          Size(Foreign(taker.user, q[..i])) < taker.Remaining()
    {
      k := k + 1;
    }
  }
}
