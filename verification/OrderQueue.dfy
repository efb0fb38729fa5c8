/** Orders and price levels in the heap, and how the levels of one side hold its queue. */
module OrderQueue {
  import opened MatchingModel
  import opened RedBlackTree

  /** An order of internal/matching. `linked` stands for its list element being set. */
  class Order {
    const id: string
    const user: string
    const side: Side
    const kind: Kind
    const price: int
    const quantity: int
    var filled: int
    var sequence: nat
    var level: PriceLevel?
    var linked: bool

    constructor (id: string, user: string, side: Side, kind: Kind, price: int, quantity: int, filled: int)
      ensures this.id == id && this.user == user && this.side == side && this.kind == kind
      ensures this.price == price && this.quantity == quantity && this.filled == filled
      ensures level == null && !linked && sequence == 0
    {
      this.id, this.user, this.side, this.kind := id, user, side, kind;
      this.price, this.quantity, this.filled := price, quantity, filled;
      sequence, level, linked := 0, null, false;
    }

    function Remaining(): int
      reads this`filled
    {
      quantity - filled
    }

    function Val(): Ord
      reads this`filled, this`sequence
    {
      Ord(id, user, side, kind, price, quantity, filled, sequence)
    }
  }

  function Vals(q: seq<Order>): (s: seq<Ord>)
    reads q`filled, q`sequence
    ensures |s| == |q| && forall i :: 0 <= i < |q| ==> s[i] == q[i].Val()
  {
    if q == [] then [] else [q[0].Val()] + Vals(q[1..])
  }

  function Dropped(q: seq<Order>, o: Order): seq<Order> {
    if q == [] then [] else if q[0] == o then q[1..] else [q[0]] + Dropped(q[1..], o)
  }

  /** The first-in-first-out queue of the orders at one price. */
  class PriceLevel {
    const price: int
    var volume: int
    var orders: seq<Order>

    constructor (price: int)
      ensures this.price == price && volume == 0 && orders == []
    {
      this.price := price;
      volume, orders := 0, [];
    }

    method Push(o: Order)
      modifies this`volume, this`orders, o`level, o`linked
      ensures orders == old(orders) + [o] && volume == old(volume) + o.Remaining()
      ensures o.level == this && o.linked
    {
      o.level := this;
      orders := orders + [o];
      o.linked := true;
      volume := volume + o.Remaining();
    }

    method Remove(o: Order)
      modifies this`volume, this`orders, o`level, o`linked
      ensures !o.linked
      ensures if old(o.linked)
        then orders == Dropped(old(orders), o) && volume == old(volume) - o.Remaining() && o.level == null
        else orders == old(orders) && volume == old(volume) && o.level == old(o.level)
    {
      if !o.linked {
        return;
      }
      volume := volume - o.Remaining();
      orders := Dropped(orders, o);
      o.linked := false;
      o.level := null;
    }

    function Front(): Order?
      reads this`orders
    {
      if orders == [] then null else orders[0]
    }

    predicate Empty()
      reads this`orders
    {
      orders == []
    }
  }

  // ----- the queue of one side, and its part at one price

  ghost function AtPrice(q: seq<Order>, p: int): seq<Order> {
    if q == [] then [] else if q[0].price == p then [q[0]] + AtPrice(q[1..], p) else AtPrice(q[1..], p)
  }

  /** Where a new order joins the queue: behind every order whose price is at least as good. */
  ghost function Inserted(side: Side, q: seq<Order>, o: Order): seq<Order> {
    if q == [] || BetterPrice(side, o.price, q[0].price) then [o] + q else [q[0]] + Inserted(side, q[1..], o)
  }

  ghost predicate NoRepeats(q: seq<Order>) {
    forall i, j :: 0 <= i < j < |q| ==> q[i] != q[j]
  }

  ghost predicate PriceOrdered(side: Side, q: seq<Order>) {
    forall i, j :: 0 <= i < j < |q| ==> !BetterPrice(side, q[j].price, q[i].price)
  }

  /** The sum of what the orders at one price still want. */
  ghost function LevelVolume(q: seq<Order>, p: int): int
    reads q
  {
    if q == [] then 0 else (if q[0].price == p then q[0].Remaining() else 0) + LevelVolume(q[1..], p)
  }

  lemma {:induction false} AtPriceMember(q: seq<Order>, p: int)
    ensures forall i :: 0 <= i < |AtPrice(q, p)| ==> AtPrice(q, p)[i] in q && AtPrice(q, p)[i].price == p
    ensures forall i :: 0 <= i < |q| && q[i].price == p ==> q[i] in AtPrice(q, p)
  {
    if q != [] {
      AtPriceMember(q[1..], p);
    }
  }

  lemma {:induction false} NoneAtPrice(q: seq<Order>, p: int)
    requires forall i :: 0 <= i < |q| ==> q[i].price != p
    ensures AtPrice(q, p) == [] && LevelVolume(q, p) == 0
  {
    if q != [] {
      NoneAtPrice(q[1..], p);
    }
  }

  lemma {:induction false} AtPriceInserted(side: Side, q: seq<Order>, o: Order, p: int)
    requires PriceOrdered(side, q)
    ensures AtPrice(Inserted(side, q, o), p) == AtPrice(q, p) + if p == o.price then [o] else []
    ensures LevelVolume(Inserted(side, q, o), p) == LevelVolume(q, p) + if p == o.price then o.Remaining() else 0
  {
    if q == [] || BetterPrice(side, o.price, q[0].price) {
      assert ([o] + q)[1..] == q;
      if p == o.price {
        forall j | 0 <= j < |q| ensures q[j].price != p { assert j > 0 ==> !BetterPrice(side, q[j].price, q[0].price); }
        NoneAtPrice(q, p);
      }
    } else {
      AtPriceInserted(side, q[1..], o, p);
      assert ([q[0]] + Inserted(side, q[1..], o))[1..] == Inserted(side, q[1..], o);
    }
  }

  lemma DroppedCons(x: Order, q: seq<Order>, o: Order)
    ensures Dropped([x] + q, o) == if x == o then q else [x] + Dropped(q, o)
  {
    assert ([x] + q)[1..] == q;
  }

  lemma {:induction false} AtPriceDropped(q: seq<Order>, o: Order, p: int)
    requires o in q
    ensures AtPrice(Dropped(q, o), p) == if p == o.price then Dropped(AtPrice(q, p), o) else AtPrice(q, p)
    ensures LevelVolume(Dropped(q, o), p) == LevelVolume(q, p) - if p == o.price then o.Remaining() else 0
  {
    if q[0].price == p {
      DroppedCons(q[0], AtPrice(q[1..], p), o);
    }
    if q[0] != o {
      AtPriceDropped(q[1..], o, p);
      assert ([q[0]] + Dropped(q[1..], o))[1..] == Dropped(q[1..], o);
    }
  }

  // ----- one side of the book

  /** A side: its tree's map, its levels and its queue. */
  datatype SideState = SideState(m: map<int, PriceLevel>, levels: set<PriceLevel>, q: seq<Order>, side: Side)

  /** A side, and the one order of it that changes. */
  datatype Wiring = Wiring(m: map<int, PriceLevel>, levels: set<PriceLevel>, q: seq<Order>, side: Side, o: Order)

  /** `a` is served before `b`. */
  ghost predicate Precedes(side: Side, a: Order, b: Order)
    reads a`sequence, b`sequence
  {
    BetterPrice(side, a.price, b.price) || (a.price == b.price && a.sequence < b.sequence)
  }

  /** An order queued on `side`, wired to the level at its price. */
  ghost predicate Queued(m: map<int, PriceLevel>, side: Side, o: Order)
    reads o
  {
    && o.side == side && o.kind == Limit && 0 <= o.filled <= o.quantity && o.linked
    && o.price in m && m[o.price] == o.level
  }

  /** A level that holds exactly the orders of the queue at its price, and their volume. */
  ghost predicate LevelOk(level: PriceLevel, q: seq<Order>, p: int)
    reads level, q
  {
    level.orders == AtPrice(q, p) && level.volume == LevelVolume(q, p)
  }

  /** The levels and the queue of one side agree, except that the levels at the prices in `open` may be off. */
  ghost predicate Wired(m: map<int, PriceLevel>, levels: set<PriceLevel>, q: seq<Order>, side: Side, open: set<int>)
    reads levels, q
  {
    && (forall i, j :: 0 <= i < j < |q| ==> Precedes(side, q[i], q[j]))
    && (forall i :: 0 <= i < |q| ==> Queued(m, side, q[i]))
    && (forall p :: p in m ==> m[p] in levels && m[p].price == p)
    && (forall p :: p in m && p !in open ==> LevelOk(m[p], q, p) && AtPrice(q, p) != [])
  }

  lemma WiredOpened(m: map<int, PriceLevel>, levels: set<PriceLevel>, q: seq<Order>, side: Side, level: PriceLevel,
          p: int)
    requires Wired(m, levels, q, side, {}) && (p in m ==> m[p] == level) && level.price == p
    ensures Wired(m[p := level], levels + {level}, q, side, {p})
    ensures p !in m ==> AtPrice(q, p) == [] && LevelVolume(q, p) == 0
  {
    if p !in m {
      assert forall i :: 0 <= i < |q| ==> Queued(m, side, q[i]);
      NoneAtPrice(q, p);
    }
  }

  lemma WiredOrder(m: map<int, PriceLevel>, levels: set<PriceLevel>, q: seq<Order>, side: Side, o: Order)
    requires Wired(m, levels, q, side, {}) && o in q
    ensures Queued(m, side, o) && m[o.price] in levels && m[o.price].price == o.price
  {
    var i :| 0 <= i < |q| && q[i] == o;
    assert Queued(m, side, q[i]);
  }

  lemma WiredLevel(m: map<int, PriceLevel>, levels: set<PriceLevel>, q: seq<Order>, side: Side, p: int)
    requires Wired(m, levels, q, side, {}) && p in m
    ensures m[p] in levels && m[p].price == p && LevelOk(m[p], q, p)
  {
  }

  method AddLevel(tree: Tree<PriceLevel>, ghost levels: set<PriceLevel>, price: int, ghost q: seq<Order>,
          ghost side: Side)
      returns (level: PriceLevel)
    requires tree.Valid() && Wired(tree.Model(), levels, q, side, {}) && price !in tree.Model()
    modifies tree, tree.nodes
    ensures tree.Valid() && fresh(tree.nodes - old(tree.nodes)) && fresh(level)
    ensures Wired(tree.Model(), levels + {level}, q, side, {price})
    ensures price in tree.Model() && tree.Model()[price] == level && LevelOk(level, q, price)
  {
    hide Tree.Valid;
    hide Wired;
    ghost var m := tree.Model();
    level := new PriceLevel(price);
    tree.Put(price, level);
    WiredOpened(m, levels, q, side, level, price);
  }

  /** The level at `price`, which is created if there is none. */
  method LevelFor(tree: Tree<PriceLevel>, ghost levels: set<PriceLevel>, price: int, ghost q: seq<Order>,
          ghost side: Side)
      returns (level: PriceLevel)
    requires tree.Valid() && Wired(tree.Model(), levels, q, side, {})
    modifies tree, tree.nodes
    ensures tree.Valid() && fresh(tree.nodes - old(tree.nodes)) && (level in levels || fresh(level))
    ensures Wired(tree.Model(), levels + {level}, q, side, {price})
    ensures price in tree.Model() && tree.Model()[price] == level && LevelOk(level, q, price)
  {
    hide Tree.Valid;
    hide Wired;
    var got := tree.Get(price);
    if got.None? {
      level := AddLevel(tree, levels, price, q, side);
    } else {
      level := got.value;
      WiredLevel(tree.Model(), levels, q, side, price);
      WiredOpened(tree.Model(), levels, q, side, level, price);
      assert tree.Model()[price := level] == tree.Model();
    }
  }

  lemma {:induction false} InsertedPlace(side: Side, q: seq<Order>, o: Order) returns (k: nat)
    ensures k <= |q| && Inserted(side, q, o) == q[..k] + [o] + q[k..]
    ensures forall i :: 0 <= i < k ==> !BetterPrice(side, o.price, q[i].price)
    ensures k < |q| ==> BetterPrice(side, o.price, q[k].price)
  {
    if q == [] || BetterPrice(side, o.price, q[0].price) {
      k := 0;
    } else {
      k := InsertedPlace(side, q[1..], o);
      k := k + 1;
      assert q[..k] == [q[0]] + q[1..][..k - 1];
    }
  }

  lemma InsertedPrecedes(side: Side, q: seq<Order>, o: Order)
    requires forall i, j :: 0 <= i < j < |q| ==> Precedes(side, q[i], q[j])
    requires forall i :: 0 <= i < |q| ==> q[i].sequence < o.sequence
    ensures var r := Inserted(side, q, o); forall i, j :: 0 <= i < j < |r| ==> Precedes(side, r[i], r[j])
  {
    var k := InsertedPlace(side, q, o);
    var r := q[..k] + [o] + q[k..];
    forall i, j | 0 <= i < j < |r|
      ensures Precedes(side, r[i], r[j])
    {
      if i != k && j != k {
        assert Precedes(side, q[if i < k then i else i - 1], q[if j < k then j else j - 1]);
      } else if i == k && j > k + 1 {
        assert Precedes(side, q[k], q[j - 1]);
      }
    }
  }

  lemma InsertedQueued(m: map<int, PriceLevel>, q: seq<Order>, side: Side, o: Order)
    requires forall i :: 0 <= i < |q| ==> Queued(m, side, q[i])
    requires Queued(m, side, o)
    ensures forall i :: 0 <= i < |Inserted(side, q, o)| ==> Queued(m, side, Inserted(side, q, o)[i])
  {
    hide Queued;
    var k := InsertedPlace(side, q, o);
    var r := q[..k] + [o] + q[k..];
    assert forall i :: 0 <= i < |r| ==> r[i] == if i < k then q[i] else if i == k then o else q[i - 1];
  }

  lemma WiredSorts(m: map<int, PriceLevel>, levels: set<PriceLevel>, q: seq<Order>, side: Side, open: set<int>)
    requires Wired(m, levels, q, side, open)
    ensures PriceOrdered(side, q)
  {
    forall i, j | 0 <= i < j < |q| ensures !BetterPrice(side, q[j].price, q[i].price) {
      assert Precedes(side, q[i], q[j]);
    }
  }

  lemma InsertedLevel(m: map<int, PriceLevel>, levels: set<PriceLevel>, q: seq<Order>, side: Side, o: Order, p: int)
    requires Wired(m, levels, q, side, {o.price}) && o.price in m && p in m
    requires
      && m[o.price].orders == AtPrice(q, o.price) + [o] && m[o.price].volume == LevelVolume(q, o.price) + o.Remaining()
    ensures LevelOk(m[p], Inserted(side, q, o), p) && AtPrice(Inserted(side, q, o), p) != []
  {
    WiredSorts(m, levels, q, side, {o.price});
    AtPriceInserted(side, q, o, p);
  }

  lemma WiredInserted(m: map<int, PriceLevel>, levels: set<PriceLevel>, q: seq<Order>, side: Side, o: Order)
    requires Wired(m, levels, q, side, {o.price}) && Queued(m, side, o)
    requires forall i :: 0 <= i < |q| ==> q[i].sequence < o.sequence
    requires
      && m[o.price].orders == AtPrice(q, o.price) + [o] && m[o.price].volume == LevelVolume(q, o.price) + o.Remaining()
    ensures Wired(m, levels, Inserted(side, q, o), side, {})
  {
    hide Precedes;
    hide LevelOk;
    hide Inserted;
    hide AtPrice;
    hide LevelVolume;
    InsertedPrecedes(side, q, o);
    InsertedQueued(m, q, side, o);
    forall p | p in m ensures LevelOk(m[p], Inserted(side, q, o), p) && AtPrice(Inserted(side, q, o), p) != [] {
      InsertedLevel(m, levels, q, side, o, p);
    }
  }

  method PushOn(level: PriceLevel, o: Order, ghost m: map<int, PriceLevel>, ghost levels: set<PriceLevel>,
                ghost q: seq<Order>, ghost side: Side)
    requires Wired(m, levels, q, side, {o.price}) && o.price in m && m[o.price] == level && LevelOk(level, q, o.price)
    requires o.side == side && o.kind == Limit && 0 <= o.filled <= o.quantity && !o.linked
    requires forall i :: 0 <= i < |q| ==> q[i].sequence < o.sequence
    modifies level`volume, level`orders, o`level, o`linked
    ensures Wired(m, levels, Inserted(side, q, o), side, {})
  {
    hide Wired;
    level.Push(o);
    Pushed(Wiring(m, levels, q, side, o));
    WiredInserted(m, levels, q, side, o);
  }

  method RestOn(tree: Tree<PriceLevel>, ghost levels: set<PriceLevel>, o: Order, ghost q: seq<Order>, ghost side: Side)
      returns (level: PriceLevel)
    requires tree.Valid() && Wired(tree.Model(), levels, q, side, {})
    requires o.side == side && o.kind == Limit && 0 <= o.filled <= o.quantity && !o.linked
    requires forall i :: 0 <= i < |q| ==> q[i].sequence < o.sequence
    modifies tree, tree.nodes, levels, o`level, o`linked
    ensures tree.Valid() && fresh(tree.nodes - old(tree.nodes)) && (level in levels || fresh(level))
    ensures Wired(tree.Model(), levels + {level}, Inserted(side, q, o), side, {})
  {
    hide Tree.Valid;
    hide Wired;
    level := LevelFor(tree, levels, o.price, q, side);
    PushOn(level, o, tree.Model(), levels + {level}, q, side);
  }

  twostate lemma Pushed(w: Wiring)
    requires old(Wired(w.m, w.levels, w.q, w.side, {w.o.price})) && w.o.price in w.m && !old(w.o.linked)
    requires forall l :: l in w.levels && l != w.m[w.o.price] ==> unchanged(l)
    requires forall i :: 0 <= i < |w.q| && w.q[i] != w.o ==> unchanged(w.q[i])
    ensures Wired(w.m, w.levels, w.q, w.side, {w.o.price})
  {
  }

  lemma {:induction false} DroppedPlace(q: seq<Order>, o: Order) returns (k: nat)
    requires o in q
    ensures k < |q| && q[k] == o && Dropped(q, o) == q[..k] + q[k + 1..]
  {
    if q[0] == o {
      k := 0;
    } else {
      k := DroppedPlace(q[1..], o);
      k := k + 1;
      assert q[..k] == [q[0]] + q[1..][..k - 1];
    }
  }

  /** Each order left after a drop is some other order of the queue, in the same sequence. */
  lemma DroppedOthers(q: seq<Order>, o: Order) returns (k: nat)
    requires o in q && NoRepeats(q)
    ensures k < |q| && q[k] == o && |Dropped(q, o)| == |q| - 1
    ensures forall i :: 0 <= i < |q| - 1 ==> Dropped(q, o)[i] == q[if i < k then i else i + 1] && Dropped(q, o)[i] != o
  {
    k := DroppedPlace(q, o);
    forall i | 0 <= i < |q| - 1 ensures Dropped(q, o)[i] == q[if i < k then i else i + 1] && Dropped(q, o)[i] != o {
      if i < k { assert q[i] != q[k]; } else { assert q[k] != q[i + 1]; }
    }
  }

  lemma PrecedesOnce(side: Side, q: seq<Order>)
    requires forall i, j :: 0 <= i < j < |q| ==> Precedes(side, q[i], q[j])
    ensures NoRepeats(q)
  {
    forall i, j | 0 <= i < j < |q| ensures q[i] != q[j] { assert Precedes(side, q[i], q[j]); }
  }

  /** An order has left its level, and nothing else has changed. */
  twostate predicate LeftLevel(w: Wiring)
    reads w.levels, w.q, w.o
  {
    && old(Wired(w.m, w.levels, w.q, w.side, {})) && w.o in w.q && w.o.price in w.m && w.m[w.o.price] in w.levels
    && (forall l :: l in w.levels && l != w.m[w.o.price] ==> unchanged(l))
    && (forall i :: 0 <= i < |w.q| && w.q[i] != w.o ==> unchanged(w.q[i]))
    && w.o.filled == old(w.o.filled) && w.o.sequence == old(w.o.sequence)
    && w.m[w.o.price].orders == Dropped(old(w.m[w.o.price].orders), w.o)
    && w.m[w.o.price].volume == old(w.m[w.o.price].volume) - w.o.Remaining()
  }

  twostate lemma OnceBefore(w: Wiring)
    requires old(Wired(w.m, w.levels, w.q, w.side, {}))
    ensures NoRepeats(w.q)
  {
    forall i, j | 0 <= i < j < |w.q| ensures w.q[i] != w.q[j] { assert old(Precedes(w.side, w.q[i], w.q[j])); }
  }

  /** The orders that are left are still in sequence and wired to their levels. */
  twostate lemma LeftQueue(w: Wiring)
    requires LeftLevel(w)
    ensures var r := Dropped(w.q, w.o);
      (forall i, j :: 0 <= i < j < |r| ==> Precedes(w.side, r[i], r[j])) &&
        (forall i :: 0 <= i < |r| ==> Queued(w.m, w.side, r[i]))
  {
    hide LevelOk;
    var q, r := w.q, Dropped(w.q, w.o);
    OnceBefore(w);
    var k := DroppedOthers(q, w.o);
    forall i, j | 0 <= i < j < |r| ensures Precedes(w.side, r[i], r[j]) {
      assert old(Precedes(w.side, q[if i < k then i else i + 1], q[if j < k then j else j + 1]));
    }
    forall i | 0 <= i < |r| ensures Queued(w.m, w.side, r[i]) {
      assert old(Queued(w.m, w.side, q[if i < k then i else i + 1]));
    }
  }

  /** Every level holds the orders that are left at its price. */
  twostate lemma LeftLevels(w: Wiring)
    requires LeftLevel(w)
    ensures forall p :: p in w.m ==>
      LevelOk(w.m[p], Dropped(w.q, w.o), p) && (p != w.o.price ==> AtPrice(Dropped(w.q, w.o), p) != [])
  {
    VolumesUnchanged(w.q);
    forall p | p in w.m
      ensures LevelOk(w.m[p], Dropped(w.q, w.o), p) && (p != w.o.price ==> AtPrice(Dropped(w.q, w.o), p) != [])
    {
      AtPriceDropped(w.q, w.o, p);
      assert old(LevelOk(w.m[p], w.q, p));
      assert p != w.o.price ==> w.m[p] != w.m[w.o.price];
    }
  }

  twostate lemma TakenOff(w: Wiring)
    requires LeftLevel(w)
    ensures
      && Wired(w.m, w.levels, Dropped(w.q, w.o), w.side, {w.o.price})
      && LevelOk(w.m[w.o.price], Dropped(w.q, w.o), w.o.price)
  {
    hide LevelOk;
    hide Precedes;
    hide Queued;
    LeftQueue(w);
    LeftLevels(w);
  }

  twostate lemma {:induction false} VolumesUnchanged(q: seq<Order>)
    requires forall i :: 0 <= i < |q| ==> q[i].filled == old(q[i].filled)
    ensures forall p :: LevelVolume(q, p) == old(LevelVolume(q, p))
  {
    if q != [] {
      VolumesUnchanged(q[1..]);
    }
  }

  /** The level at `p` agrees again; if nothing rests there any more, it is to go. */
  lemma WiredClosed(m: map<int, PriceLevel>, levels: set<PriceLevel>, q: seq<Order>, side: Side, p: int)
    requires Wired(m, levels, q, side, {p}) && p in m && LevelOk(m[p], q, p)
    ensures if AtPrice(q, p) == [] then Wired(m - {p}, levels, q, side, {}) else Wired(m, levels, q, side, {})
  {
    if AtPrice(q, p) == [] {
      AtPriceMember(q, p);
      forall i | 0 <= i < |q| ensures Queued(m - {p}, side, q[i]) {
        assert Queued(m, side, q[i]);
      }
    }
  }

  method TakeOff(level: PriceLevel, ghost m: map<int, PriceLevel>, ghost levels: set<PriceLevel>, o: Order,
                 ghost q: seq<Order>, ghost side: Side)
    requires Wired(m, levels, q, side, {}) && o in q && level == o.level
    modifies level`volume, level`orders, o`level, o`linked
    ensures Wired(m, levels, Dropped(q, o), side, {o.price})
    ensures o.price in m && m[o.price] == level && LevelOk(level, Dropped(q, o), o.price)
    ensures !o.linked && o.level == null
  {
    hide Tree.Valid;
    hide Wired;
    WiredOrder(m, levels, q, side, o);
    level.Remove(o);
    TakenOff(Wiring(m, levels, q, side, o));
  }

  /** Drops the level if nothing is left in it. */
  method DropIfEmpty(tree: Tree<PriceLevel>, ghost levels: set<PriceLevel>, level: PriceLevel, ghost q: seq<Order>,
          ghost side: Side)
    requires tree.Valid() && level.price in tree.Model() && tree.Model()[level.price] == level
    requires Wired(tree.Model(), levels, q, side, {level.price}) && LevelOk(level, q, level.price)
    modifies tree, tree.nodes
    ensures tree.Valid() && tree.nodes <= old(tree.nodes)
    ensures Wired(tree.Model(), levels, q, side, {}) && LevelOk(level, q, level.price)
  {
    hide Tree.Valid;
    hide Wired;
    WiredClosed(tree.Model(), levels, q, side, level.price);
    if level.Empty() {
      ghost var m := tree.Model();
      tree.Remove(level.price);
      assert Wired(m - {level.price}, levels, q, side, {});
    }
  }

  method RemoveFrom(tree: Tree<PriceLevel>, ghost levels: set<PriceLevel>, o: Order, ghost q: seq<Order>,
          ghost side: Side)
    requires tree.Valid() && Wired(tree.Model(), levels, q, side, {}) && o in q
    modifies tree, tree.nodes, levels`volume, levels`orders, o`level, o`linked
    ensures tree.Valid() && tree.nodes <= old(tree.nodes)
    ensures Wired(tree.Model(), levels, Dropped(q, o), side, {})
    ensures !o.linked && o.level == null && old(o.level) != null && LevelOk(old(o.level), Dropped(q, o), o.price)
  {
    hide Tree.Valid;
    hide Wired;
    WiredOrder(tree.Model(), levels, q, side, o);
    var level := o.level;
    TakeOff(level, tree.Model(), levels, o, q, side);
    DropIfEmpty(tree, levels, level, Dropped(q, o), side);
  }

  // ----- trading with an order, and finding the best one

  twostate lemma {:induction false} VolumesFilled(w: Wiring)
    requires w.o in w.q && NoRepeats(w.q)
    requires forall i :: 0 <= i < |w.q| && w.q[i] != w.o ==> w.q[i].filled == old(w.q[i].filled)
    ensures forall p ::
      LevelVolume(w.q, p) == old(LevelVolume(w.q, p)) - if p == w.o.price then w.o.filled - old(w.o.filled) else 0
    decreases |w.q|
  {
    var q, o := w.q, w.o;
    if q[0] == o {
      assert forall i :: 0 <= i < |q[1..]| ==> q[1..][i] == q[i + 1] != o;
      VolumesUnchanged(q[1..]);
    } else {
      VolumesFilled(w.(q := q[1..]));
    }
  }

  /** A fill changes the order and the volume of its level by the same amount, and nothing else. */
  twostate lemma Filled(w: Wiring)
    requires old(Wired(w.m, w.levels, w.q, w.side, {})) && w.o in w.q && w.o.price in w.m
    requires forall l :: l in w.levels && l != w.m[w.o.price] ==> unchanged(l)
    requires forall i :: 0 <= i < |w.q| && w.q[i] != w.o ==> unchanged(w.q[i])
    requires w.o.level == old(w.o.level) && w.o.linked == old(w.o.linked) && w.o.sequence == old(w.o.sequence)
    requires 0 <= w.o.filled <= w.o.quantity
    requires w.m[w.o.price].orders == old(w.m[w.o.price].orders)
    requires w.m[w.o.price].volume == old(w.m[w.o.price].volume) - (w.o.filled - old(w.o.filled))
    ensures Wired(w.m, w.levels, w.q, w.side, {})
  {
    var m, levels, q, side, o := w.m, w.levels, w.q, w.side, w.o;
    forall i, j | 0 <= i < j < |q| ensures Precedes(side, q[i], q[j]) {
      assert old(Precedes(side, q[i], q[j]));
    }
    PrecedesOnce(side, q);
    forall i | 0 <= i < |q| ensures Queued(m, side, q[i]) {
      assert old(Queued(m, side, q[i]));
    }
    VolumesFilled(w);
    forall p | p in m ensures LevelOk(m[p], q, p) {
      assert old(LevelOk(m[p], q, p));
      assert p != o.price ==> m[p] != m[o.price];
    }
  }

  method Fill(level: PriceLevel, o: Order, quantity: int, ghost m: map<int, PriceLevel>, ghost levels: set<PriceLevel>,
              ghost q: seq<Order>, ghost side: Side)
    requires Wired(m, levels, q, side, {}) && o in q && level == o.level && 0 <= quantity <= o.Remaining()
    modifies level`volume, o`filled
    ensures Wired(m, levels, q, side, {}) && o.filled == old(o.filled) + quantity && LevelOk(level, q, o.price)
  {
    hide Tree.Valid;
    hide Wired;
    WiredOrder(m, levels, q, side, o);
    o.filled := o.filled + quantity;
    level.volume := level.volume - quantity;
    Filled(Wiring(m, levels, q, side, o));
    WiredLevel(m, levels, q, side, o.price);
  }

  /** A side has levels exactly when it has orders. */
  lemma NoLevels(m: map<int, PriceLevel>, levels: set<PriceLevel>, q: seq<Order>, side: Side)
    requires Wired(m, levels, q, side, {})
    ensures q == [] <==> m == map[]
  {
    if q != [] {
      assert Queued(m, side, q[0]);
    }
    forall p | p in m ensures |q| > 0 {
      AtPriceMember(q, p);
    }
    assert |q| == 0 ==> m.Keys == {};
    assert m.Keys == {} ==> m == map[];
  }

  /** The best price of a side is that of the first order of its queue. */
  lemma BestPrice(m: map<int, PriceLevel>, levels: set<PriceLevel>, q: seq<Order>, side: Side)
    requires Wired(m, levels, q, side, {})
    ensures q == [] <==> m == map[]
    ensures q != [] ==> q[0].price in m && forall p :: p in m ==> !BetterPrice(side, p, q[0].price)
    ensures q != [] ==> m[q[0].price].orders != [] && m[q[0].price].orders[0] == q[0] && q[0].level == m[q[0].price]
  {
    NoLevels(m, levels, q, side);
    if q != [] {
      assert Queued(m, side, q[0]);
      forall p | p in m ensures !BetterPrice(side, p, q[0].price) {
        AtPriceMember(q, p);
        var j :| 0 <= j < |q| && q[j] == AtPrice(q, p)[0];
        assert j > 0 ==> Precedes(side, q[0], q[j]);
      }
    }
  }

  /** The best level of a side, or null: the right-most of the bids, the left-most of the asks. */
  method BestLevel(tree: Tree<PriceLevel>, side: Side, ghost levels: set<PriceLevel>, ghost q: seq<Order>)
      returns (level: PriceLevel?)
    requires tree.Valid() && Wired(tree.Model(), levels, q, side, {})
    ensures if q == [] then level == null else level == q[0].level && level.price == q[0].price && level.Front() == q[0]
  {
    hide Tree.Valid;
    hide Wired;
    BestPrice(tree.Model(), levels, q, side);
    var node;
    ghost var c, t, steps;
    if side == Buy {
      node, c, t, steps := tree.Right();
    } else {
      node, c, t, steps := tree.Left();
    }
    if node == null {
      return null;
    }
    level := node.value;
    WiredLevel(tree.Model(), levels, q, side, node.key);
    WiredLevel(tree.Model(), levels, q, side, q[0].price);
  }

  /** A side's queue holds orders of that side only, and each of them once. */
  lemma SideOnly(m: map<int, PriceLevel>, levels: set<PriceLevel>, q: seq<Order>, side: Side)
    requires Wired(m, levels, q, side, {})
    ensures NoRepeats(q) && forall i :: 0 <= i < |q| ==> q[i].side == side
  {
    PrecedesOnce(side, q);
    forall i | 0 <= i < |q| ensures q[i].side == side { assert Queued(m, side, q[i]); }
  }

  /** A side none of whose levels and orders changes stays wired. */
  twostate lemma WiredFrame(s: SideState)
    requires old(Wired(s.m, s.levels, s.q, s.side, {}))
    requires forall l :: l in s.levels ==> unchanged(l)
    requires forall i :: 0 <= i < |s.q| ==> unchanged(s.q[i])
    ensures Wired(s.m, s.levels, s.q, s.side, {})
  {
  }
}
