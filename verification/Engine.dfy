/**
 The matching engine as its callers see it, one at a time: a map of books, each with objects of
 its own. EngineSteps says what becomes of many callers at once.
 */
module Engines {
  import opened MatchingModel
  import opened MatchingRuns
  import opened OrderBooks
  import opened OrderDepth
  import opened OrderQueue
  import opened Wrappers

  /** A pair, and an order that its book was given. */
  datatype Given = Given(pair: string, o: object)

  class Engine {
    var books: map<string, OrderBook>
    // The objects of each book.
    ghost var parts: map<string, set<object>>

    ghost function All(): set<object>
      reads this`parts
    {
      set p, x | p in parts && x in parts[p] :: x
    }

    ghost predicate BookIn(p: string)
      requires p in books && p in parts
      reads this, parts[p]
    {
      var b := books[p];
      && {b, b.bids, b.asks} <= parts[p] && this !in parts[p]
      && b.Footprint() == parts[p] && b.Valid()
    }

    /** Every book is valid, and no two books share an object. */
    ghost predicate Valid()
      reads this, All()
    {
      && books.Keys == parts.Keys
      && (forall p :: p in books ==> BookIn(p) && this !in parts[p])
      && (forall p, q :: p in books && q in books && p != q ==> parts[p] !! parts[q])
    }

    /** What a pair's book shows; a pair without a book shows an empty one. */
    ghost function ViewOf(p: string): Book
      requires p in books ==> p in parts && BookIn(p)
      reads this, if p in parts then parts[p] else {}
    {
      if p in books then books[p].View() else EMPTY
    }

    /** What all books show. */
    ghost function Views(): map<string, Book>
      requires Valid()
      reads this, All()
    {
      map p | p in books :: ViewOf(p)
    }

    lemma BeforeViews()
      requires Valid()
      ensures Views().Keys == books.Keys && forall p :: p in books ==> Views()[p] == ViewOf(p)
    {
      hide ViewOf;
      hide BookIn;
    }

    lemma ViewAt(pair: string)
      requires Valid()
      ensures BookOf(Views(), pair) == ViewOf(pair) && (pair in parts ==> parts[pair] <= All())
    {
      hide OrderBook.View;
      hide BookIn;
    }

    /** All books show what they showed before, but for one pair's. */
    lemma ViewsUpdated(before: map<string, Book>, pair: string)
      requires Valid() && books.Keys == before.Keys + {pair}
      requires forall p :: p in before && p != pair ==> ViewOf(p) == before[p]
      ensures Views() == before[pair := ViewOf(pair)]
    {
      hide ViewOf;
      hide BookIn;
    }

    /** A book none of whose objects changes stays as it is. */
    twostate lemma Apart(p: string)
      requires p in old(books) && p in old(parts) && old(BookIn(p))
      requires p in books && p in parts && books[p] == old(books[p]) && parts[p] == old(parts[p])
      requires forall x :: x in parts[p] ==> unchanged(x)
      ensures BookIn(p) && ViewOf(p) == old(ViewOf(p))
    {
      hide OrderBook.Valid;
      hide OrderBook.View;
      hide OrderBook.Footprint;
      books[p].Unmoved(parts[p]);
    }

    constructor ()
      ensures Valid() && books == map[]
    {
      books, parts := map[], map[];
    }

    /** A valid book with its own objects in its place. */
    lemma Filed(p: string)
      requires p in books && p in parts && books[p].Valid() && parts[p] == books[p].Footprint() && this !in parts[p]
      ensures BookIn(p)
    {
    }

    method AddBook(pair: string) returns (b: OrderBook)
      requires Valid() && pair !in books
      modifies this
      ensures Valid() && b.View() == EMPTY && pair in parts && fresh(parts[pair])
      ensures books == old(books)[pair := b] && parts == old(parts)[pair := parts[pair]]
      ensures forall p :: p in old(books) ==> ViewOf(p) == old(ViewOf(p))
    {
      hide OrderBook.Valid;
      hide OrderBook.View;
      hide OrderBook.Footprint;
      hide ViewOf;
      hide BookIn;
      b := new OrderBook();
      assert this !in b.Footprint();
      books, parts := books[pair := b], parts[pair := b.Footprint()];
      forall p | p in old(books) ensures BookIn(p) && ViewOf(p) == old(ViewOf(p)) {
        Apart(p);
      }
      Filed(pair);
    }

    /** The book of a pair, which is created on first use. */
    method BookFor(pair: string) returns (b: OrderBook)
      requires Valid()
      modifies this
      ensures Valid() && pair in books && b.View() == old(ViewOf(pair))
      ensures old(pair !in books) ==> fresh(parts[pair])
      ensures old(pair in books) ==> books == old(books) && parts == old(parts)
      ensures books == old(books)[pair := b] && parts == old(parts)[pair := parts[pair]]
      ensures forall p :: p in old(books) ==> ViewOf(p) == old(ViewOf(p))
      ensures fresh(All() - old(All()))
    {
      hide OrderBook.Valid;
      hide OrderBook.View;
      hide OrderBook.Footprint;
      if pair in books {
        assert BookIn(pair);
        return books[pair];
      }
      b := AddBook(pair);
    }

    /** What a book's place in the engine says of it. */
    lemma Opened(p: string)
      requires p in books && p in parts && BookIn(p)
      ensures books[p].Valid() && books[p].Footprint() == parts[p] && ViewOf(p) == books[p].View()
    {
    }

    /** One book has changed within its own objects, a new order and new objects; the others have not. */
    twostate lemma OneChanged(x: Given)
      requires
        && old(Valid()) && x.pair in old(books) && books == old(books)
        && parts == old(parts)[x.pair := books[x.pair].Footprint()]
      requires
        && books[x.pair].Valid() && fresh(parts[x.pair] - old(parts[x.pair]) - {x.o}) && x.o !in old(All())
        && x.o != this
      requires forall y :: y in old(All()) && y !in old(parts[x.pair]) ==> unchanged(y)
      ensures Valid() && ViewOf(x.pair) == books[x.pair].View()
      ensures forall p :: p in books && p != x.pair ==> ViewOf(p) == old(ViewOf(p))
    {
      var pair := x.pair;
      hide OrderBook.Valid;
      hide OrderBook.View;
      hide OrderBook.Footprint;
      hide BookIn;
      hide ViewOf;
      Filed(pair);
      Opened(pair);
      forall p | p in books && p != pair ensures BookIn(p) && ViewOf(p) == old(ViewOf(p)) {
        Apart(p);
      }
    }

    /** `Submit`, for a pair that has its book. */
    method SubmitTo(pair: string, o: Order) returns (trades: seq<Trade>, cancelled: seq<Order>, rested: bool)
      requires Valid() && pair in books && o !in All() && !o.linked && Admissible(ViewOf(pair), o.Val())
      modifies this`parts, o, parts[pair]
      ensures Valid() && books == old(books) && parts == old(parts)[pair := parts[pair]]
      ensures fresh(All() - old(All()) - {o})
      ensures Placed(ViewOf(pair), o.Val(), trades, Vals(cancelled), rested) == Place(old(ViewOf(pair)), old(o.Val()))
      ensures forall p :: p in old(books) && p != pair ==> ViewOf(p) == old(ViewOf(p))
    {
      hide OrderBook.Valid;
      hide OrderBook.View;
      hide OrderBook.Footprint;
      hide BookIn;
      hide ViewOf;
      hide Admissible;
      hide Place;
      hide Vals;
      var b := books[pair];
      Opened(pair);
      trades, cancelled, rested := PlaceIn(b, o);
      parts := parts[pair := b.Footprint()];
      OneChanged(Given(pair, o));
    }

    /** Matches an order against its pair's book, and leaves every other pair's book untouched. */
    method Submit(pair: string, o: Order) returns (trades: seq<Trade>, cancelled: seq<Order>, rested: bool)
      requires Valid() && o !in All() && !o.linked && Admissible(ViewOf(pair), o.Val())
      modifies this, o, if pair in parts then parts[pair] else {}
      ensures
        && Valid() && pair in books
        && Placed(ViewOf(pair), o.Val(), trades, Vals(cancelled), rested) == Place(old(ViewOf(pair)), old(o.Val()))
      ensures forall p :: p in old(books) ==>
        p in books && books[p] == old(books[p]) && (p != pair ==> ViewOf(p) == old(ViewOf(p)))
      ensures Views() == old(Views())[pair := ViewOf(pair)] && fresh(All() - old(All()) - {o})
    {
      hide OrderBook.Valid;
      hide OrderBook.View;
      hide OrderBook.Footprint;
      hide BookIn;
      hide ViewOf;
      hide All;
      hide Views;
      hide Admissible;
      hide Place;
      hide Vals;
      ghost var before := Views();
      BeforeViews();
      var b := BookFor(pair);
      ghost var all := All();
      Opened(pair);
      assert o !in All();
      label Filed:
      trades, cancelled, rested := SubmitTo(pair, o);
      forall x | x in All() && x !in old(All()) && x != o ensures fresh(x) {
        if x in all {
          assert x in all - old(All());
        } else {
          assert x in All() - all - {o};
          assert fresh@Filed(x);
        }
      }
      ViewsUpdated(before, pair);
    }

    method CancelFrom(pair: string, id: string) returns (r: Result<Order, CancelError>)
      requires Valid() && pair in books
      modifies this`parts, parts[pair]
      ensures Valid() && books == old(books) && parts == old(parts)[pair := parts[pair]]
      ensures fresh(All() - old(All()))
      ensures Cancelled(ViewOf(pair), if r.Ok? then Some(r.value.Val()) else None) ==
        MatchingModel.Cancel(old(ViewOf(pair)), id)
      ensures forall p :: p in old(books) && p != pair ==> ViewOf(p) == old(ViewOf(p))
    {
      hide OrderBook.Valid;
      hide OrderBook.View;
      hide OrderBook.Footprint;
      hide BookIn;
      hide ViewOf;
      hide MatchingModel.Cancel;
      var b := books[pair];
      Opened(pair);
      r := CancelIn(b, id);
      parts := parts[pair := b.Footprint()];
      Shrunk(pair);
    }

    twostate lemma Shrunk(pair: string)
      requires
        && old(Valid()) && pair in old(books) && books == old(books)
        && parts == old(parts)[pair := books[pair].Footprint()]
      requires books[pair].Valid() && parts[pair] <= old(parts[pair])
      requires forall x :: x in old(All()) && x !in old(parts[pair]) ==> unchanged(x)
      ensures Valid() && ViewOf(pair) == books[pair].View()
      ensures forall p :: p in books && p != pair ==> ViewOf(p) == old(ViewOf(p))
    {
      hide OrderBook.Valid;
      hide OrderBook.View;
      hide OrderBook.Footprint;
      hide BookIn;
      hide ViewOf;
      Filed(pair);
      Opened(pair);
      forall p | p in books && p != pair ensures BookIn(p) && ViewOf(p) == old(ViewOf(p)) {
        Apart(p);
      }
    }

    /** Removes a resting order from its pair's book, and leaves every other pair's book untouched. */
    method Cancel(pair: string, id: string) returns (r: Result<Order, CancelError>)
      requires Valid()
      modifies this, if pair in parts then parts[pair] else {}
      ensures Valid() && pair in books
      ensures Cancelled(ViewOf(pair), if r.Ok? then Some(r.value.Val()) else None) ==
        MatchingModel.Cancel(old(ViewOf(pair)), id)
      ensures forall p :: p in old(books) ==>
        p in books && books[p] == old(books[p]) && (p != pair ==> ViewOf(p) == old(ViewOf(p)))
      ensures Views() == old(Views())[pair := ViewOf(pair)] && fresh(All() - old(All()))
    {
      hide OrderBook.Valid;
      hide OrderBook.View;
      hide OrderBook.Footprint;
      hide BookIn;
      hide ViewOf;
      hide All;
      hide Views;
      hide MatchingModel.Cancel;
      ghost var before := Views();
      BeforeViews();
      var b := BookFor(pair);
      ghost var all := All();
      Opened(pair);
      label Filed:
      r := CancelFrom(pair, id);
      forall x | x in All() && x !in old(All()) ensures fresh(x) {
        if x in all {
          assert x in all - old(All());
        } else {
          assert x in All() - all;
          assert fresh@Filed(x);
        }
      }
      ViewsUpdated(before, pair);
    }

    /** The depth of a pair's book; asking for it may create the book, and changes none. */
    method Depth(pair: string, maxLevels: int) returns (d: MarketDepth.Depth)
      requires Valid()
      modifies this
      ensures Valid() && pair in books && d == MarketDepth.Snapshot(old(ViewOf(pair)), maxLevels)
      ensures ViewOf(pair) == old(ViewOf(pair))
      ensures forall p :: p in old(books) ==> p in books && books[p] == old(books[p]) && ViewOf(p) == old(ViewOf(p))
    {
      hide OrderBook.Valid;
      hide OrderBook.View;
      hide OrderBook.Footprint;
      hide BookIn;
      hide ViewOf;
      hide MarketDepth.Snapshot;
      var b := BookFor(pair);
      Opened(pair);
      d := TakeSnapshot(b, maxLevels);
    }
  }

  /** `Place`, framed by the objects of the book. */
  method PlaceIn(b: OrderBook, o: Order) returns (trades: seq<Trade>, cancelled: seq<Order>, rested: bool)
    requires b.Valid() && Admissible(b.View(), o.Val()) && !o.linked
    modifies b.Footprint(), o
    ensures b.Valid() && fresh(b.Footprint() - old(b.Footprint()) - {o})
    ensures Placed(b.View(), o.Val(), trades, Vals(cancelled), rested) == Place(old(b.View()), old(o.Val()))
  {
    hide OrderBook.Valid;
    hide OrderBook.View;
    hide Place;
    hide Admissible;
    hide Vals;
    trades, cancelled, rested := b.Place(o);
    BothFrom(b, old(b.bidQueue), old(b.askQueue), o.side, o);
    b.Grown(o);
  }

  /** `Cancel`, framed by the objects of the book. */
  method CancelIn(b: OrderBook, id: string) returns (r: Result<Order, CancelError>)
    requires b.Valid()
    modifies b.Footprint()
    ensures b.Valid() && b.Footprint() <= old(b.Footprint())
    ensures Cancelled(b.View(), if r.Ok? then Some(r.value.Val()) else None) == Cancel(old(b.View()), id)
  {
    hide OrderBook.Valid;
    hide OrderBook.View;
    hide Cancel;
    HeldWithin(b, id);
    r := b.Cancel(id);
    if r.Ok? {
      b.ShrunkTo(r.value);
    }
  }

  lemma HeldWithin(b: OrderBook, id: string)
    requires b.Valid()
    ensures id in b.orders ==>
      b.orders[id] in b.Footprint() && (b.orders[id] in b.bidQueue || b.orders[id] in b.askQueue)
  {
    if id in b.orders {
      b.Held(id);
    }
  }
}
