/**
 The simple matcher: price-time priority over plain lists of orders, best first. The order
 book of internal/matching is proved to do exactly this, so what is proved here about whole
 runs holds of the book.
 */
module MatchingModel {
  import opened Wrappers

  datatype Side = Buy | Sell

  datatype Kind = Limit | Market

  datatype Ord = Ord(id: string, user: string, side: Side, kind: Kind, price: int, quantity: int, filled: int,
          sequence: nat)
  {
    function Remaining(): int { quantity - filled }
  }

  datatype Trade = Trade(makerId: string, takerId: string, makerUser: string, takerUser: string,
                         price: int, quantity: int, takerSide: Side)

  /** The resting orders of one pair, each side best first, and the book's two counters. */
  datatype Book = Book(bids: seq<Ord>, asks: seq<Ord>, seqNo: nat, version: nat)
  {
    function Queue(side: Side): seq<Ord> { if side == Buy then bids else asks }

    function WithQueue(side: Side, q: seq<Ord>): Book {
      if side == Buy then this.(bids := q) else this.(asks := q)
    }
  }

  const EMPTY := Book([], [], 0, 0)

  /** The book of a pair; one that has not been created yet counts as empty. */
  function BookOf(books: map<string, Book>, pair: string): Book {
    if pair in books then books[pair] else EMPTY
  }

  function Opposite(side: Side): Side { if side == Buy then Sell else Buy }

  function Min(a: int, b: int): int { if a <= b then a else b }

  /** Price `p` is strictly better than `q` for an order resting on `side`. */
  predicate BetterPrice(side: Side, p: int, q: int) {
    if side == Buy then p > q else p < q
  }

  /** Whether a taker may trade at a resting price. */
  predicate Crosses(side: Side, kind: Kind, limit: int, price: int) {
    kind == Market || if side == Buy then price <= limit else price >= limit
  }

  // ----- matching as one pass over the opposite queue

  datatype Outcome = Outcome(taker: Ord, trades: seq<Trade>, cancelled: seq<Ord>, queue: seq<Ord>)

  function TradeOf(taker: Ord, maker: Ord, quantity: int): Trade {
    Trade(maker.id, taker.id, maker.user, taker.user, maker.price, quantity, taker.side)
  }

  function Match(taker: Ord, queue: seq<Ord>): Outcome
    decreases queue
  {
    if taker.Remaining() <= 0 || queue == [] || !Crosses(taker.side, taker.kind, taker.price, queue[0].price) then
      Outcome(taker, [], [], queue)
    else
      var maker := queue[0];
      if maker.user == taker.user then
        var rest := Match(taker, queue[1..]);
        rest.(cancelled := [maker] + rest.cancelled)
      else
        var quantity := Min(taker.Remaining(), maker.Remaining());
        var taker' := taker.(filled := taker.filled + quantity);
        var maker' := maker.(filled := maker.filled + quantity);
        var rest := if maker'.Remaining() <= 0 then Match(taker', queue[1..])
                    else Outcome(taker', [], [], [maker'] + queue[1..]);
        rest.(trades := [TradeOf(taker, maker, quantity)] + rest.trades)
  }

  // ----- the book's operations

  /** Behind every order whose price is at least as good. */
  function Insert(side: Side, queue: seq<Ord>, o: Ord): seq<Ord> {
    if queue == [] || BetterPrice(side, o.price, queue[0].price) then [o] + queue
    else [queue[0]] + Insert(side, queue[1..], o)
  }

  datatype Placed = Placed(book: Book, taker: Ord, trades: seq<Trade>, cancelled: seq<Ord>, rested: bool)

  function Place(b: Book, order: Ord): Placed {
    var taker := order.(sequence := b.seqNo + 1);
    var m := Match(taker, b.Queue(Opposite(taker.side)));
    var b1 := b.WithQueue(Opposite(taker.side), m.queue);
    var rested := taker.kind == Limit && m.taker.Remaining() > 0;
    var b2 := if rested then b1.WithQueue(taker.side, Insert(taker.side, b1.Queue(taker.side), m.taker)) else b1;
    Placed(b2.(seqNo := b.seqNo + 1, version := b.version + 1), m.taker, m.trades, m.cancelled, rested)
  }

  function Without(queue: seq<Ord>, id: string): seq<Ord> {
    if queue == [] then []
    else if queue[0].id == id then queue[1..]
    else [queue[0]] + Without(queue[1..], id)
  }

  function Find(queue: seq<Ord>, id: string): Option<Ord> {
    if queue == [] then None
    else if queue[0].id == id then Some(queue[0])
    else Find(queue[1..], id)
  }

  datatype Cancelled = Cancelled(book: Book, order: Option<Ord>)

  function Cancel(b: Book, id: string): Cancelled {
    match (Find(b.bids, id), Find(b.asks, id))
    case (Some(o), _) => Cancelled(b.(bids := Without(b.bids, id), version := b.version + 1), Some(o))
    case (None, Some(o)) => Cancelled(b.(asks := Without(b.asks, id), version := b.version + 1), Some(o))
    case (None, None) => Cancelled(b, None)
  }
}
