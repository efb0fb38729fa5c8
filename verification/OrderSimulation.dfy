/** The order table and the books describe the same resting orders. */
module OrderSimulation {
  import opened MatchingFills
  import opened MatchingModel
  import opened MatchingRuns
  import opened OrderModel
  import opened OrderSettlement

  function LockedFor(o: Ord): int { if o.side == Buy then o.quantity * o.price else o.quantity }

  /** A live row of the table that says of an order what the book says of it. */
  predicate Resembles(r: Row, o: Ord, pair: string) {
    r.Live() && r == Row(o.id, o.user, pair, o.side, Limit, o.price, o.quantity, o.filled, LockedFor(o), r.status)
  }

  ghost predicate InTable(rows: Rows, q: seq<Ord>, pair: string) {
    forall i :: 0 <= i < |q| ==> q[i].id in rows && Resembles(rows[q[i].id], q[i], pair)
  }

  /** The row of an order that is being matched. */
  predicate Taking(rows: Rows, row: Row, taker: Ord, pair: string) {
    && row.id == taker.id && row.user == taker.user && row.pair == pair && row.side == taker.side
    && row.kind == taker.kind
    && (row.kind == Limit ==> row.price == taker.price) && row.quantity == taker.quantity && row.status == Pending
    && row.id in rows && rows[row.id] == row.(filled := taker.filled) && taker.Remaining() >= 0
  }

  /** A queue that a taker may meet: on the other side, of other orders, each in the table. */
  ghost predicate Meets(rows: Rows, taker: Ord, q: seq<Ord>, pair: string) {
    && InTable(rows, q, pair) && DistinctIds(q) && Unfilled(q) && !HasId(q, taker.id)
    && forall i :: 0 <= i < |q| ==> q[i].side == Opposite(taker.side)
  }

  lemma MeetsTail(rows: Rows, taker: Ord, q: seq<Ord>, pair: string)
    requires q != [] && Meets(rows, taker, q, pair)
    ensures Meets(rows, taker, q[1..], pair)
  {
    forall i, j | 0 <= i < j < |q[1..]| ensures q[1..][i].id != q[1..][j].id { assert q[i + 1].id != q[j + 1].id; }
  }

  /** A trade with the front order leaves the rest of the queue as the table has it. */
  lemma MeetsTraded(rows: Rows, row: Row, taker: Ord, q: seq<Ord>, pair: string, n: int)
    requires q != [] && Meets(rows, taker, q, pair) && Taking(rows, row, taker, pair)
    requires 0 <= n <= taker.Remaining()
    ensures var rows' := TradedRows(rows, TradeOf(taker, q[0], n));
      && Meets(rows', taker.(filled := taker.filled + n), q[1..], pair)
      && Taking(rows', row, taker.(filled := taker.filled + n), pair)
      && q[0].id in rows' && rows'[q[0].id] == rows[q[0].id].(filled := q[0].filled + n)
      && rows'.Keys == rows.Keys
      && forall id :: id in rows && id != q[0].id && id != taker.id ==> rows'[id] == rows[id]
  {
    MeetsTail(rows, taker, q, pair);
    var rows' := TradedRows(rows, TradeOf(taker, q[0], n));
    assert q[0].id != taker.id && Resembles(rows[q[0].id], q[0], pair);
    forall i | 0 <= i < |q[1..]| ensures rows'[q[1..][i].id] == rows[q[1..][i].id] {
      assert q[i + 1].id != q[0].id && q[i + 1].id != taker.id;
    }
  }

  /** Every trade of a match fits its two orders at its turn. */
  lemma {:induction false} MatchFits(rows: Rows, row: Row, taker: Ord, q: seq<Ord>, pair: string)
    requires Meets(rows, taker, q, pair) && Taking(rows, row, taker, pair)
    ensures FitAll(rows, pair, row, Match(taker, q).trades)
    decreases q
  {
    if taker.Remaining() <= 0 || q == [] || !Crosses(taker.side, taker.kind, taker.price, q[0].price) {
    } else if q[0].user == taker.user {
      MeetsTail(rows, taker, q, pair);
      MatchFits(rows, row, taker, q[1..], pair);
    } else {
      var n := Min(taker.Remaining(), q[0].Remaining());
      var t, taker' := TradeOf(taker, q[0], n), taker.(filled := taker.filled + n);
      assert q[0].Remaining() > 0 && Resembles(rows[q[0].id], q[0], pair);
      assert Fits(rows, pair, row, t);
      MeetsTraded(rows, row, taker, q, pair, n);
      var rest := if q[0].Remaining() <= taker.Remaining() then Match(taker', q[1..]).trades else [];
      if q[0].Remaining() <= taker.Remaining() {
        MatchFits(TradedRows(rows, t), row, taker', q[1..], pair);
      }
      FitCons(rows, pair, row, t, rest);
    }
  }

  lemma FitCons(rows: Rows, pair: string, row: Row, t: Trade, rest: seq<Trade>)
    requires Fits(rows, pair, row, t) && FitAll(TradedRows(rows, t), pair, row, rest)
    ensures FitAll(rows, pair, row, [t] + rest)
    ensures AdvanceAll(rows, [t] + rest) == AdvanceAll(TradedRows(rows, t), rest)
  {
    AdvanceOne(rows, [t] + rest);
    assert ([t] + rest)[1..] == rest;
  }

  /** What has become of an order the taker may have met. */
  ghost predicate Accounted(after: Rows, o: Ord, m: Outcome, pair: string) {
    || (o in m.cancelled && o.id in after && Resembles(after[o.id], o, pair))
    || (o.id in after && after[o.id].Remaining() == 0)
    || HasId(m.queue, o.id)
  }

  /** An order that was cancelled: it was in the queue and is no longer, and its row still stands. */
  ghost predicate Dropped(after: Rows, q: seq<Ord>, m: Outcome, o: Ord, pair: string) {
    o in q && HasId(q, o.id) && !HasId(m.queue, o.id) && o.id in after && Resembles(after[o.id], o, pair)
  }

  /** After a match the table, its fills brought up to date, agrees with what is left of the queue. */
  ghost predicate MatchedTable(rows: Rows, taker: Ord, q: seq<Ord>, m: Outcome, pair: string) {
    var after := AdvanceAll(rows, m.trades);
    && InTable(after, m.queue, pair) && after.Keys == rows.Keys
    && (forall i :: 0 <= i < |q| ==> Accounted(after, q[i], m, pair))
    && (forall id :: id in rows && !HasId(q, id) && id != taker.id ==> after[id] == rows[id])
    && taker.id in after && after[taker.id] == rows[taker.id].(filled := m.taker.filled)
    && (forall id :: HasId(m.queue, id) ==> HasId(q, id)) && DistinctIds(m.cancelled)
    && (forall i :: 0 <= i < |m.cancelled| ==> Dropped(after, q, m, m.cancelled[i], pair))
  }

  lemma FrontOnce(q: seq<Ord>)
    requires q != [] && DistinctIds(q)
    ensures !HasId(q[1..], q[0].id)
  {
    forall i | 0 <= i < |q[1..]| ensures q[1..][i].id != q[0].id { assert q[i + 1].id != q[0].id; }
  }

  lemma MatchedOwn(rows: Rows, taker: Ord, q: seq<Ord>, rest: Outcome, pair: string)
    requires q != [] && Meets(rows, taker, q, pair) && MatchedTable(rows, taker, q[1..], rest, pair)
    ensures MatchedTable(rows, taker, q, rest.(cancelled := [q[0]] + rest.cancelled), pair)
  {
    var m, after := rest.(cancelled := [q[0]] + rest.cancelled), AdvanceAll(rows, rest.trades);
    FrontOnce(q);
    assert q[0].id != taker.id && Resembles(rows[q[0].id], q[0], pair);
    forall id ensures HasId(q, id) <==> q[0].id == id || HasId(q[1..], id) { HasIdCons(q, id); }
    assert after[q[0].id] == rows[q[0].id];
    forall i | 0 <= i < |q| ensures Accounted(after, q[i], m, pair) {
      if i > 0 {
        assert Accounted(after, q[1..][i - 1], rest, pair);
        assert q[i] in rest.cancelled ==> q[i] in m.cancelled;
      } else {
        assert m.cancelled[0] == q[0];
      }
    }
    forall i | 0 <= i < |m.cancelled| ensures Dropped(after, q, m, m.cancelled[i], pair) {
      if i > 0 {
        assert Dropped(after, q[1..], rest, rest.cancelled[i - 1], pair);
      }
    }
    forall i, j | 0 <= i < j < |m.cancelled| ensures m.cancelled[i].id != m.cancelled[j].id {
      assert Dropped(after, q[1..], rest, rest.cancelled[j - 1], pair);
      assert i > 0 ==> rest.cancelled[i - 1].id != rest.cancelled[j - 1].id;
    }
  }

  lemma MatchedFilled(rows: Rows, row: Row, taker: Ord, q: seq<Ord>, rest: Outcome, pair: string)
    requires
      && q != [] && Meets(rows, taker, q, pair) && Taking(rows, row, taker, pair)
      && q[0].Remaining() <= taker.Remaining()
    requires var t := TradeOf(taker, q[0], q[0].Remaining());
      MatchedTable(TradedRows(rows, t), taker.(filled := taker.filled + q[0].Remaining()), q[1..], rest, pair)
    ensures MatchedTable(rows, taker, q, rest.(trades := [TradeOf(taker, q[0], q[0].Remaining())] + rest.trades), pair)
  {
    var t := TradeOf(taker, q[0], q[0].Remaining());
    var m, after := rest.(trades := [t] + rest.trades), AdvanceAll(TradedRows(rows, t), rest.trades);
    assert q[0].Remaining() > 0;
    MeetsTraded(rows, row, taker, q, pair, q[0].Remaining());
    AdvanceCons(rows, t, rest.trades);
    FrontOnce(q);
    forall id ensures HasId(q, id) <==> q[0].id == id || HasId(q[1..], id) { HasIdCons(q, id); }
    assert q[0].id != taker.id && after[q[0].id] == TradedRows(rows, t)[q[0].id];
    assert Resembles(rows[q[0].id], q[0], pair);
    forall i | 0 <= i < |q| ensures Accounted(after, q[i], m, pair) {
      if i > 0 {
        assert Accounted(after, q[1..][i - 1], rest, pair);
      }
    }
    forall i | 0 <= i < |m.cancelled| ensures Dropped(after, q, m, m.cancelled[i], pair) {
      assert Dropped(after, q[1..], rest, rest.cancelled[i], pair);
    }
  }

  lemma AdvanceCons(rows: Rows, t: Trade, rest: seq<Trade>)
    ensures AdvanceAll(rows, [t] + rest) == AdvanceAll(TradedRows(rows, t), rest)
  {
    assert ([t] + rest)[1..] == rest;
  }

  /** A trade for all that the taker still wants leaves the front order in its place. */
  lemma PartLeft(rows: Rows, row: Row, taker: Ord, q: seq<Ord>, pair: string)
    requires q != [] && Meets(rows, taker, q, pair) && Taking(rows, row, taker, pair)
    ensures var n := taker.Remaining();
      var after := AdvanceAll(rows, [TradeOf(taker, q[0], n)]);
      && InTable(after, [q[0].(filled := q[0].filled + n)] + q[1..], pair) && after.Keys == rows.Keys
      && taker.id in after && after[taker.id] == rows[taker.id].(filled := taker.filled + n)
      && forall id :: id in rows && id != q[0].id && id != taker.id ==> after[id] == rows[id]
  {
    var n := taker.Remaining();
    var t, left := TradeOf(taker, q[0], n), [q[0].(filled := q[0].filled + n)] + q[1..];
    MeetsTraded(rows, row, taker, q, pair, n);
    AdvanceCons(rows, t, []);
    assert [t] + [] == [t];
    var after := TradedRows(rows, t);
    assert Resembles(rows[q[0].id], q[0], pair);
    hide TradedRows;
    forall i | 0 <= i < |left| ensures left[i].id in after && Resembles(after[left[i].id], left[i], pair) {
      if i > 0 {
        assert left[i] == q[1..][i - 1];
      }
    }
  }

  lemma MatchedPart(rows: Rows, row: Row, taker: Ord, q: seq<Ord>, pair: string)
    requires q != [] && Meets(rows, taker, q, pair) && Taking(rows, row, taker, pair)
    ensures var n := taker.Remaining();
      MatchedTable(rows, taker, q, Outcome(taker.(filled := taker.filled + n), [TradeOf(taker, q[0], n)], [],
                                           [q[0].(filled := q[0].filled + n)] + q[1..]), pair)
  {
    PartLeft(rows, row, taker, q, pair);
    SameIds(q, [q[0].(filled := q[0].filled + taker.Remaining())] + q[1..]);
    hide AdvanceAll;
    hide InTable;
    hide Resembles;
    assert HasId(q, q[0].id);
  }

  lemma SameIds(q: seq<Ord>, r: seq<Ord>)
    requires |r| == |q| && forall i :: 0 <= i < |q| ==> r[i].id == q[i].id
    ensures (forall i :: 0 <= i < |q| ==> HasId(r, q[i].id)) && forall id :: HasId(r, id) ==> HasId(q, id)
  {
    forall i | 0 <= i < |q| ensures HasId(r, q[i].id) { assert r[i].id == q[i].id; }
    forall id | HasId(r, id) ensures HasId(q, id) {
      var i :| 0 <= i < |r| && r[i].id == id;
      assert q[i].id == id;
    }
  }

  lemma MatchedNothing(rows: Rows, row: Row, taker: Ord, q: seq<Ord>, pair: string)
    requires Meets(rows, taker, q, pair) && Taking(rows, row, taker, pair)
    ensures MatchedTable(rows, taker, q, Outcome(taker, [], [], q), pair)
  {
    forall i | 0 <= i < |q| ensures HasId(q, q[i].id) {}
  }

  lemma MeetsFront(rows: Rows, taker: Ord, q: seq<Ord>, pair: string)
    requires q != [] && Meets(rows, taker, q, pair)
    ensures q[0].Remaining() > 0
  {
  }

  /** What a match does to the table. */
  lemma {:induction false} MatchTable(rows: Rows, row: Row, taker: Ord, q: seq<Ord>, pair: string)
    requires Meets(rows, taker, q, pair) && Taking(rows, row, taker, pair)
    ensures MatchedTable(rows, taker, q, Match(taker, q), pair)
    decreases q
  {
    hide MatchedTable;
    hide Meets;
    hide Resembles;
    hide TradedRows;
    if taker.Remaining() <= 0 || q == [] || !Crosses(taker.side, taker.kind, taker.price, q[0].price) {
      MatchedNothing(rows, row, taker, q, pair);
    } else {
      MeetsFront(rows, taker, q, pair);
      var n := Min(taker.Remaining(), q[0].Remaining());
      var t, taker' := TradeOf(taker, q[0], n), taker.(filled := taker.filled + n);
      if q[0].user == taker.user {
        MeetsTail(rows, taker, q, pair);
        MatchTable(rows, row, taker, q[1..], pair);
        MatchedOwn(rows, taker, q, Match(taker, q[1..]), pair);
      } else if q[0].Remaining() <= taker.Remaining() {
        MeetsTraded(rows, row, taker, q, pair, n);
        MatchTable(TradedRows(rows, t), row, taker', q[1..], pair);
        MatchedFilled(rows, row, taker, q, Match(taker', q[1..]), pair);
      } else {
        MatchedPart(rows, row, taker, q, pair);
        assert Match(taker, q) == Outcome(taker', [t], [], [q[0].(filled := q[0].filled + n)] + q[1..]);
      }
    }
  }
}
