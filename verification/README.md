# Drexa: a verified model of the exchange core

This project models, in Dafny, the part of the Drexa exchange that decides who trades with whom and
what happens to their money. It proves what that part keeps on every input and every run, and where a
promise fails it shows the run and proves exactly when the promise holds.

The layers are proved one on top of the other: the book in the heap uses what is proved of the tree,
the engine what is proved of the book, and the order service submits to that engine.

1. **The red-black tree** (`RedBlackShape`, `RedBlackBalance`, `RedBlackMemory`, `RedBlackTree`,
   `RedBlackIterator`). Nodes are objects linked both ways and rewritten in place. The case analysis is
   done on a datatype tree with a context around the place that is worked on; memory lemmas carry it
   over to the heap. `Put` and `Remove` are proved to give a valid tree that holds the old map with one
   key put or removed, the cursor to walk the entries by index, and the height to be logarithmic.
2. **The matching engine** (`MatchingModel`, `MatchingFills`, `MatchingRuns`, `MatchingLaws`, `OrderQueue`,
   `OrderBook`, `MarketDepth`, `OrderDepth`, `Engine`, `EngineSteps`, `MarketFeed`). `MatchingModel` is a simple
   matcher over sorted lists of orders. The order book in the heap, with its two trees of price levels,
   its queues, its index, its cached volumes and its back-pointers, is proved to do exactly what the
   simple matcher does; what is proved of whole runs of the simple matcher therefore holds of the book.
   `MatchingLaws` says what it promises in prices, sizes and ids alone.
   The engine is modelled twice: as an object over books whose objects are disjoint, and as a step
   system of concurrent callers. There, looking again, making a book and filing it are different steps
   under the lock of the map, and reading a book and writing back the result are different steps under
   the lock of the book, so that the operations are one after the other because of the locks only.
   Depth snapshots and the feed that reads them, pair by pair while the books change, follow.
3. **Orders, reservation and settlement** (`Wallets`, `OrderWallets`, `OrderModel`, `OrderService`,
   `OrderReserves`, `OrderSettlement`, `OrderSimulation`, `OrderRuns`, `OrderApply`, `OrderWorld`,
   `OrderRefusals`, `OrderLifecycle`, `OrderDrift`, `OrderSafety`, `OrderSpare`, `OrderLaws`). The service, which
   submits to the engine of the layer below, and the wallet adapter are objects proved against functions
   on the order table, the wallets and what the books show. About those functions it is proved that
   locked funds cover what the live orders may still have to pay, that the table and the books agree,
   which orders the wallets can refuse and what a refusal leaves behind, which fills leave funds locked
   that nobody owes any more, what holds on every run whatever is refused, what every wallet has locked
   beyond what it owes along every run, and that no money is made or lost. `OrderLaws` says it in the
   terms of the request, the rows and the balances: which requests are taken and which error names the
   rule that another one breaks, what becomes of every row, and what is paid to whom.
4. **The escrow contract** (`EscrowModel`, `Escrow`). A payout runs the receiver in the middle of the
   call, and the receiver may call the contract again, to any depth.
5. **Transfers between wallets** (`Transfers`), one at a time and many at once under row locks.

Prices are whole ticks and sizes whole lots. Amounts of money are whole numbers of a currency's smallest
unit. How lots and ticks become an amount is a parameter of each pair (`OrderModel.Conversion`). That
money is conserved holds for any conversion at all. What is said of reserves holds for every conversion
in which parts never come to more than the whole and a better price never to more than the limit
(`OrderReserves.Sound`); the service's own, exact and cut off, is one (`OrderReserves.CutOffSound`).
Orders are taken to be aligned to ticks and lots, so that the service's rounding to nearest is exact; the
`epsilon` of `deriveStatus` is a tenth of a lot and makes no difference then.

## Where the code and its comments part

- `internal/order/service.go:295-299` says that what is left locked in the wallet is exactly what is left
  of the order. It is not: `OrderDrift.FundsStranded` is a run of two orders that fill each other, after
  which the buyer owes nothing and half of what it had locked is still locked, also after a restart. What
  is locked beyond what is owed never shrinks, and grows by exactly what each fill leaves
  (`OrderDrift.RunSpare`). Along a run without a refused settlement the comment stays true if and only if
  every fill is exact: it costs what it would at the order's own price, and cutting it off the order
  loses nothing (`OrderDrift.TightExactly`); for a buy `OrderDrift.BuysExact` says that in terms of the
  fill's size and prices. With refused settlements, `OrderSpare.RunSpareExactly` gives the difference.
- `internal/order/service.go:92-95` leaves market buys unchecked. Such an order is refused by the wallets
  only after the engine has matched it. `OrderRefusals.KeptExactlyIfAffordable` says exactly when an
  accepted order leaves books and table in agreement; `OrderRefusals.RefusalHappens` is a case where
  it does not; `OrderRefusals.CoveredAfterRefusal` says exactly when the table's reserves stay covered
  nevertheless; `OrderSafety.RunStaysSafe` is what no refusal breaks; and `OrderSpare.RestartRestores`
  says that a restart puts everything right again.
- `internal/order/service.go:391-398` looks up the pair of a cancelled limit order without asking whether
  there is one. If there is none the call crashes after the order has left the book and the table shows
  it as cancelled; the model returns that state with the error `Crashed`.

## Model

| member | source | states |
|---|---|---|
| `RedBlackShape.Descend` | pkg/redblacktree/rbd.go:323-337 | The bounds that a search has passed still bracket the key one level further down. |
| `RedBlackShape.LookedUp` | pkg/redblacktree/rbd.go:323-337 | Where a search ends, the key's entry is there if and only if the tree's map has the key. |
| `RedBlackShape.RotatedLeftEntries` | pkg/redblacktree/rbd.go:363-372 | A left rotation keeps the in-order sequence of entries. |
| `RedBlackShape.RotatedRightEntries` | pkg/redblacktree/rbd.go:374-383 | A right rotation keeps the in-order sequence of entries. |
| `RedBlackShape.MapOfPut` | pkg/redblacktree/rbd.go:60-99 | An entry in its place among sorted entries updates their map at its key and nowhere else. |
| `RedBlackShape.MapOfRemove` | pkg/redblacktree/rbd.go:120-148 | Sorted entries without one of them are sorted and have the old map minus its key. |
| `RedBlackShape.RestOfPredecessor` | pkg/redblacktree/rbd.go:126-131 | Copying the predecessor's entry up and dropping the predecessor leaves the same entries as dropping the found one. |
| `RedBlackShape.RestRemoves` | pkg/redblacktree/rbd.go:120-148 | The entries other than the found one are the old map minus the key, one fewer in number. |
| `RedBlackShape.MapOfSize` | pkg/redblacktree/rbd.go:156-158 | Sorted entries are as many as their map has keys. |
| `RedBlackBalance.PlugRedBlack` | pkg/redblacktree/rbd.go:408-413 | A subtree that fits its place gives a red-black tree: black root, no red-red edge, equal black heights. |
| `RedBlackBalance.RecolouredBalanced` | pkg/redblacktree/rbd.go:415-425 | With a red uncle, recolouring gives a balanced red subtree two levels up that fits everywhere but for its colour. |
| `RedBlackBalance.Insert5Balanced` | pkg/redblacktree/rbd.go:439-448 | The last rotation gives a balanced subtree that fits its place whatever is above it. |
| `RedBlackBalance.ShortHasSibling` | pkg/redblacktree/rbd.go:467-538 | The sibling of a place that is one black node short is never missing. |
| `RedBlackBalance.Delete2Fits` | pkg/redblacktree/rbd.go:467-479 | Rotating a red sibling up leaves the place short by one, with a black sibling and a red parent. |
| `RedBlackBalance.Delete3Fits` | pkg/redblacktree/rbd.go:481-492 | With everything around it black, a red sibling moves the shortage to the parent. |
| `RedBlackBalance.Delete4Settles` | pkg/redblacktree/rbd.go:494-505 | Exchanging the colours of a red parent and a black sibling mends the shortage. |
| `RedBlackBalance.Delete5Fits` | pkg/redblacktree/rbd.go:507-525 | Rotating a red near nephew up leaves a black sibling with a red far nephew. |
| `RedBlackBalance.Delete6Settles` | pkg/redblacktree/rbd.go:527-538 | The last rotation mends the shortage, and tolerates a red node at the place. |
| `RedBlackBalance.LoneChild` | pkg/redblacktree/rbd.go:132-141 | The only child of a node in a red-black tree is a red leaf, so recolouring the node as its child fits the repair. |
| `RedBlackBalance.RedBlackHeight` | pkg/redblacktree/rbd.go:197-216 | The longest path has h nodes with 2^(h/2) at most the size plus one. |
| `RedBlackMemory.RotateLeftLaid` | pkg/redblacktree/rbd.go:363-372 | The six link updates of a left rotation lay out the rotated shape, parent links included. |
| `RedBlackMemory.RotateRightLaid` | pkg/redblacktree/rbd.go:374-383 | The six link updates of a right rotation lay out the rotated shape, parent links included. |
| `RedBlackMemory.ReplaceLaid` | pkg/redblacktree/rbd.go:385-398 | Hanging a subtree where another one was lays out the tree with the one in place of the other. |
| `RedBlackMemory.AttachLaid` | pkg/redblacktree/rbd.go:60-96 | A new red leaf that is linked both ways lays out the tree with that leaf. |
| `RedBlackMemory.DetachLaid` | pkg/redblacktree/rbd.go:132-146 | Linking the only child past a node lays out the tree without the node. |
| `RedBlackTree.Tree.constructor` | pkg/redblacktree/rbd.go:49-51 | A new tree is valid and empty. |
| `RedBlackTree.Tree.Lookup` | pkg/redblacktree/rbd.go:323-337 | Finds the node of a key, if and only if the map has the key, and where it hangs; it looks at no more nodes than the tree is high, so n of them with 2^(n/2) at most the size plus one. |
| `RedBlackTree.Tree.ReplaceNode` | pkg/redblacktree/rbd.go:385-398 | Which links change, to what, and that no other link does. |
| `RedBlackTree.Tree.RotateLeft` | pkg/redblacktree/rbd.go:363-372 | Every link after the rotation, in terms of the links before it. |
| `RedBlackTree.Tree.RotateRight` | pkg/redblacktree/rbd.go:374-383 | Every link after the rotation, in terms of the links before it. |
| `RedBlackTree.Tree.TurnLeft` | pkg/redblacktree/rbd.go:363-372 | The rotation turns the shape at its place, stays linked, and keeps the entries. |
| `RedBlackTree.Tree.TurnRight` | pkg/redblacktree/rbd.go:374-383 | The rotation turns the shape at its place, stays linked, and keeps the entries. |
| `RedBlackTree.Tree.LookSibling` | pkg/redblacktree/rbd.go:353-361 | The sibling read from the heap is the one of the shape, and so is its colour. |
| `RedBlackTree.Tree.LookUncle` | pkg/redblacktree/rbd.go:346-351 | The uncle read from the heap is the one of the shape, and so are its colour and the sides. |
| `RedBlackTree.Tree.InsertCase1` | pkg/redblacktree/rbd.go:400-406 | From any red node that is balanced below, the upward repair ends in a red-black tree with the same entries. |
| `RedBlackTree.Tree.InsertCase2` | pkg/redblacktree/rbd.go:408-413 | The same, below the root. |
| `RedBlackTree.Tree.InsertCase3` | pkg/redblacktree/rbd.go:415-425 | The same, below a red parent; the recursion two levels up ends. |
| `RedBlackTree.Tree.InsertCase4` | pkg/redblacktree/rbd.go:427-437 | The same, below a red parent with a black uncle, from either inner side. |
| `RedBlackTree.Tree.InsertCase5` | pkg/redblacktree/rbd.go:439-448 | The same, from either outer side. |
| `RedBlackTree.Tree.DeleteCase1` | pkg/redblacktree/rbd.go:460-465 | The repair of a place that is one black node short leaves the node in place and a context it settles in. |
| `RedBlackTree.Tree.DeleteCase2` | pkg/redblacktree/rbd.go:467-479 | The same, whatever the sibling's colour. |
| `RedBlackTree.Tree.DeleteCase3` | pkg/redblacktree/rbd.go:481-492 | The same, with a black sibling; no missing sibling is looked into. |
| `RedBlackTree.Tree.DeleteCase4` | pkg/redblacktree/rbd.go:494-505 | The same, unless everything around is black. |
| `RedBlackTree.Tree.DeleteCase5` | pkg/redblacktree/rbd.go:507-525 | The same, with a red nephew. |
| `RedBlackTree.Tree.DeleteCase6` | pkg/redblacktree/rbd.go:527-538 | The same, with a red far nephew; nothing is short afterwards. |
| `RedBlackTree.Tree.Approach` | pkg/redblacktree/rbd.go:68-95 | The descent to a key, or to the node below which it belongs, looks at no more nodes than the tree is high. |
| `RedBlackTree.Tree.Place` | pkg/redblacktree/rbd.go:60-96 | Overwrites the key's entry in a valid tree, or links a red leaf where the key belongs, after logarithmically many steps. |
| `RedBlackTree.Tree.Put` | pkg/redblacktree/rbd.go:60-99 | A valid tree stays valid, size included, and its map is the old one updated at the key. |
| `RedBlackTree.Tree.MaximumNode` | pkg/redblacktree/rbd.go:450-458 | Finds the right-most node of a subtree. |
| `RedBlackTree.Tree.TakePredecessor` | pkg/redblacktree/rbd.go:126-131 | The found node takes over its predecessor's entry; what is to remain is the same as before. |
| `RedBlackTree.Tree.Lighten` | pkg/redblacktree/rbd.go:138-141 | A black node recoloured as its child, though it may be red with a red child, is repaired into a place it settles in. |
| `RedBlackTree.Tree.Unlink` | pkg/redblacktree/rbd.go:132-146 | A node with at most one child goes, and the tree is red-black with the other entries. |
| `RedBlackTree.Tree.Remove` | pkg/redblacktree/rbd.go:120-148 | A valid tree stays valid, size included, and its map is the old one minus the key. |
| `RedBlackTree.Tree.Get` | pkg/redblacktree/rbd.go:104-110 | The value of a key, if and only if the map has it. |
| `RedBlackTree.Tree.Empty` | pkg/redblacktree/rbd.go:151-153 | Says exactly whether the map is empty. |
| `RedBlackTree.Tree.Left` | pkg/redblacktree/rbd.go:197-205 | The node with the least key, and none exactly for the empty map, after logarithmically many steps. |
| `RedBlackTree.Tree.Right` | pkg/redblacktree/rbd.go:208-216 | The node with the greatest key, and none exactly for the empty map, after logarithmically many steps. |
| `RedBlackIterator.Iterator.Next` | pkg/redblacktree/iterator.go:39-74 | Moves to the next index of the in-order entries, stops one past the last, and says whether it stands at an entry. |
| `RedBlackIterator.Iterator.Prev` | pkg/redblacktree/iterator.go:79-114 | Moves to the previous index, stops one before the first, and says whether it stands at an entry; so it undoes `Next`. |
| `RedBlackIterator.Iterator.ToBegin` | pkg/redblacktree/iterator.go:136-139 | The index is -1. |
| `RedBlackIterator.Iterator.ToEnd` | pkg/redblacktree/iterator.go:143-146 | The index is the number of entries. |
| `RedBlackIterator.Iterator.Key` | pkg/redblacktree/iterator.go:124-126 | The key of the entry at the index. |
| `RedBlackIterator.Iterator.Value` | pkg/redblacktree/iterator.go:118-120 | The value of the entry at the index. |
| `RedBlackIterator.Keys` | pkg/redblacktree/rbd.go:177-184 | Fills an array of `size` cells with all keys in order, never past its end. |
| `MatchingFills.MatchMeaning` | internal/matching/matching.go:31-68 | Which orders are reached, how much each maker fills, which are cancelled, the taker's fill, and what is left, order for order. |
| `MatchingFills.SomethingReached` | internal/matching/matching.go:31-68 | For every taker and queue there is a number of orders that are reached. |
| `MatchingFills.ReachedOnce` | internal/matching/matching.go:31-68 | And only one such number, so that `MatchMeaning` says what the match does. |
| `MatchingFills.FillsAt` | internal/matching/matching.go:48-62 | The j-th trade is with the j-th maker reached, at its price, for the smaller of its size and what the taker still wants. |
| `MatchingRuns.MatchTail` | internal/matching/matching.go:31-68 | What is left is a tail of the queue with at most its first order filled in part, and a taker that wants more crosses none of it. |
| `MatchingRuns.MatchConserves` | internal/matching/matching.go:48-62 | The taker's gain equals the sum of the trades and what the other users' orders lost. |
| `MatchingRuns.FillFormula` | internal/matching/matching.go:31-68 | The taker gains the smaller of what it wants and what other users offer at prices it crosses. |
| `MatchingRuns.TradesAreApart` | internal/matching/matching.go:40-62 | No maker trades twice, every trade has a positive size, and none is between a user and itself. |
| `MatchingRuns.EarlierMakersGone` | internal/matching/matching.go:40-66 | Every trade but the last fills its maker, whose id is in the queue no more. |
| `MatchingRuns.InsertKeeps` | internal/matching/orderbook.go:73-82 | Resting behind every order at its price or better keeps price-time order and distinct ids. |
| `MatchingRuns.Uncrossed` | internal/matching/matching.go:80-88 | In a well-formed book every bid is strictly below every ask. |
| `MatchingRuns.PlaceKeeps` | internal/matching/matching.go:12-27 | Placing an admissible order keeps the book sorted, unfilled, with distinct ids, and uncrossed. |
| `MatchingRuns.CancelKeeps` | internal/matching/cancel.go:12-20 | Cancelling keeps the book well formed. |
| `MatchingRuns.RunKeeps` | internal/matching/matching.go:12-27 | So does every run of orders and cancellations. |
| `MatchingRuns.RunUnused` | internal/matching/matching.go:12-27 | Along a run an id comes to rest only with its own order. |
| `MatchingRuns.SameVersionSameQueues` | internal/matching/matching.go:24 | If a run leaves the version as it was, it has left the whole book as it was. |
| `MatchingLaws.PlacedTrades` | internal/matching/matching.go:31-88 | Every trade is with a resting order of someone else on the other side, at its price, within the limit of the order placed, best prices first, and no resting order trades twice. |
| `MatchingLaws.PlacedLeaves` | internal/matching/matching.go:31-88 | An order that still wants more leaves nothing within its limit on the other side, and a market order leaves nothing at all; what it gained is what the others lost. |
| `MatchingLaws.PlacedCancels` | internal/matching/matching.go:41-46 | What is cancelled are the order's owner's own resting orders within its limit. |
| `MatchingLaws.PlacedRests` | internal/matching/matching.go:12-27 | An order rests if and only if it is a limit order that still wants more, behind all prices as good or better and before all worse ones. |
| `MatchingLaws.CancelledOut` | internal/matching/cancel.go:12-20 | A cancellation takes out the one order with that id and nothing else, and changes nothing if none rests. |
| `OrderQueue.PriceLevel.Push` | internal/matching/price_level.go:24-28 | Appends the order, adds its remaining size to the volume, and wires its back-pointer. |
| `OrderQueue.PriceLevel.Remove` | internal/matching/price_level.go:33-41 | Takes a linked order out of the queue and the volume, and leaves a level alone whose order is not linked. |
| `OrderQueue.LevelFor` | internal/matching/orderbook.go:73-79 | Finds or creates the level at a price, and no other level changes. |
| `OrderQueue.RestOn` | internal/matching/orderbook.go:73-82 | The side's levels, volumes and back-pointers describe the queue with the order in its place. |
| `OrderQueue.RemoveFrom` | internal/matching/orderbook.go:86-98 | The same without the order, its level dropped if it has emptied, so that no level is ever empty. |
| `OrderQueue.Fill` | internal/matching/matching.go:49-51 | A fill takes the same size off the order and its level's volume, and keeps the side wired. |
| `OrderQueue.BestPrice` | internal/matching/orderbook.go:41-56 | The first order of the queue is the first of the level at the best price; there is no level exactly if there is no order. |
| `OrderQueue.BestLevel` | internal/matching/orderbook.go:41-56 | The right-most level of the bids and the left-most of the asks is the one of the queue's first order. |
| `OrderBooks.OrderBook.constructor` | internal/matching/orderbook.go:32-38 | A new book is valid, shows an empty book, and shares no object with anything. |
| `OrderBooks.OrderBook.Rest` | internal/matching/orderbook.go:73-82 | The order joins its own side's queue in its place, and the other side is untouched. |
| `OrderBooks.OrderBook.RemoveOrder` | internal/matching/orderbook.go:86-98 | The order leaves its side's queue, level and index; an order that is not resting changes nothing. |
| `OrderBooks.OrderBook.BestBid` | internal/matching/orderbook.go:41-47 | The level of the first bid, and none exactly if there are no bids. |
| `OrderBooks.OrderBook.BestAsk` | internal/matching/orderbook.go:50-56 | The level of the first ask, and none exactly if there are no asks. |
| `OrderBooks.OrderBook.BestOpposite` | internal/matching/matching.go:71-76 | The best level of the side the taker will hit. |
| `OrderBooks.OrderBook.MeetOwn` | internal/matching/matching.go:43-47 | Cancelling the taker's own front order is a step of the simple matcher. |
| `OrderBooks.OrderBook.MeetOther` | internal/matching/matching.go:48-66 | A trade with the front order, and its removal if that fills it, is a step of the simple matcher. |
| `OrderBooks.OrderBook.MatchLevel` | internal/matching/matching.go:37-67 | The inner loop ends, makes progress, and carries the match on. |
| `OrderBooks.OrderBook.Match` | internal/matching/matching.go:31-68 | The loops end; trades, cancellations, fill and remaining queue equal one fold of the simple matcher. |
| `OrderBooks.OrderBook.Place` | internal/matching/matching.go:12-27 | A valid book stays valid and uncrossed, and result and book equal those of the simple matcher. |
| `OrderBooks.OrderBook.Cancel` | internal/matching/cancel.go:12-20 | A valid book stays valid, and result and book equal those of the simple matcher, an unknown id included. |
| `MarketDepth.GroupsOnce` | internal/matching/depth.go:38-59 | A queue has only one grouping that is best first, complete, and sums what rests at each price. |
| `MarketDepth.GroupedGroups` | internal/matching/depth.go:38-59 | Collecting a sorted queue front to back gives that grouping. |
| `MarketDepth.SnapshotShape` | internal/matching/depth.go:28-34 | A snapshot is strictly monotone on both sides, has positive volumes, and its bids are below its asks. |
| `MarketDepth.SnapshotShows` | internal/matching/depth.go:23-59 | Of each side a snapshot shows the whole grouping, or its best levels as many as asked for, each better than any left out; and the version of the book. |
| `MarketDepth.VolumesAddUp` | internal/matching/depth.go:38-59 | The volumes of all levels add up to what the orders of the side still want. |
| `MarketDepth.SameVersionSameDepth` | internal/matching/depth.go:19-23 | Within a run, equal versions show equal snapshots. |
| `OrderDepth.LevelsGroup` | internal/matching/depth.go:38-59 | The tree's levels in reading order are the grouping of the side's queue, and none of them is empty. |
| `OrderDepth.CollectLevels` | internal/matching/depth.go:38-59 | Walking the tree with the cursor yields the grouping, cut to the best `maxLevels`. |
| `OrderDepth.TakeSnapshot` | internal/matching/depth.go:28-34 | The snapshot of a valid book is the one of the simple matcher's book. |
| `MarketFeed.OrderBookFeed.Publish` | internal/market/orderbook_feed.go:91-118 | Goes through the pairs in turn, each answered at its own moment; skips unreadable and unchanged ones, and records and broadcasts the others. |
| `MarketFeed.FeedOfReadings` | internal/market/orderbook_feed.go:75-118 | Beside an engine whose books change between any two reads, the feed is what its rounds make of what it read. |
| `MarketFeed.BroadcastIsCurrent` | internal/market/orderbook_feed.go:98-116 | However the books change before and after, until a pair is read again what was last broadcast for it is its depth at the moment of its last read, even where nothing was sent then. |
| `MarketFeed.NothingSentTwice` | internal/market/orderbook_feed.go:105-108 | The versions broadcast for a pair strictly increase. |
| `Engines.Engine.BookFor` | internal/matching/engine.go:19-34 | Returns the pair's book, created empty on first use, and never replaces one. |
| `Engines.Engine.Submit` | internal/matching/engine.go:37-42 | The pair's book does what the simple matcher does, and every other pair's book is untouched. |
| `Engines.Engine.Cancel` | internal/matching/engine.go:45-50 | The same for a cancellation. |
| `Engines.Engine.Depth` | internal/matching/engine.go:54-59 | The snapshot of the pair's book; no book changes. |
| `EngineSteps.NextInv` | internal/matching/engine.go:19-34 | Every step of every caller, inside a critical section or not, keeps the locks apart, one book a pair, and each book in the state its recorded operations give. |
| `EngineSteps.ExclusiveNext` | internal/matching/engine.go:19-59 | A step taken when no lock is in its way keeps writers of the map apart from each other and from readers, and callers that work on the same book. |
| `EngineSteps.NeverReplaced` | internal/matching/engine.go:28-32 | No step replaces the book of a pair, the one that files a new book included, or takes anything off the record. |
| `EngineSteps.RunInv` | internal/matching/engine.go:19-50 | In every interleaving a book is never replaced and the record only grows. |
| `EngineSteps.OneBookPerPair` | internal/matching/engine.go:19-34 | From the start, every book in the map belongs to exactly one pair and equals a serial run of its operations, and no other book is in the heap but one that is being made. |
| `EngineSteps.LocksExclude` | internal/matching/engine.go:19-59 | In every interleaving one caller alone writes the map and nobody reads it then, and one alone works on a book. |
| `EngineSteps.BooksStayOk` | internal/matching/engine.go:19-59 | In every interleaving of callers with distinct order ids and sensible fills, every book stays sorted, with distinct ids, and uncrossed. |
| `EngineSteps.AnswersAreSerial` | internal/matching/engine.go:37-59 | Every answer is the one the pair's serial run gives at the moment the operation was carried out: the placement, the cancellation or the snapshot of that book. |
| `EngineSteps.AnsweredFirst` | internal/matching/engine.go:37-59 | The serial order is one the callers could observe: what had its answer before another had one comes first. |
| `EngineSteps.SomeoneGoesOn` | internal/matching/engine.go:19-50 | The locks never block every caller that has no answer yet. |
| `EngineSteps.StepsRunOut` | internal/matching/engine.go:19-59 | A run takes at most seven steps a caller, and nothing is left to do exactly when all have their answers. |
| `OrderWallets.OrderWalletAdapter.AvailableBalance` | cmd/server/server.go:93-99 | Balance minus locked, and zero without a wallet. |
| `OrderWallets.OrderWalletAdapter.LockBalance` | cmd/server/server.go:101-116 | Locks what is available, or refuses and changes nothing. |
| `OrderWallets.OrderWalletAdapter.UnlockBalance` | cmd/server/server.go:118-134 | Unlocks, down to zero at most; without a wallet it does nothing. |
| `OrderWallets.OrderWalletAdapter.ProcessUser` | cmd/server/server.go:142-215 | One party's debit and credit, the receiving wallet created if missing, or a refusal. |
| `OrderWallets.OrderWalletAdapter.SettleTrade` | cmd/server/server.go:136-227 | Both parties or neither. |
| `OrderWallets.SettleConserves` | cmd/server/server.go:136-227 | A settlement keeps every currency's total, whatever the amounts, if each side gives what the other gets. |
| `OrderWallets.LockConserves` | cmd/server/server.go:101-134 | Locking and unlocking keep every currency's total. |
| `OrderReserves.CutOffSplits` | internal/order/service.go:151 | The cut-off cost of a part and of the rest never exceeds that of the whole. |
| `OrderReserves.CutOffBetter` | internal/order/service.go:210-235 | The cut-off cost of a fill at a price no worse than an order's own is no more than was reserved for it. |
| `OrderReserves.CutOffSound` | internal/order/service.go:151 | So the service's conversion is one on which reserves can rest. |
| `OrderReserves.ReserveLocked` | internal/order/service.go:288-293 | One order's reserve is within what its wallet has locked. |
| `OrderRuns.ReservedCovers` | internal/order/service.go:141-155 | Locking a new order's funds covers its reserve, across all its user's orders, and locks nothing beyond. |
| `OrderRuns.ReleaseKeeps` | internal/order/service.go:285-312 | Releasing a live order takes exactly its reserve off the locked funds, with no clamping; the rest stays covered, and what is locked beyond stays locked. |
| `OrderRuns.AdvanceGain` | internal/order/service.go:250-256 | What the trades add to an order is its fill delta, positive exactly if it traded. |
| `OrderRuns.CancelMakersKeeps` | internal/order/service.go:274-313 | Self-trade prevention marks exactly the cancelled orders, releases their reserves, and keeps the rest covered. |
| `OrderSettlement.SettleOne` | internal/order/service.go:210-243 | A trade whose taker can pay is settled without clamping, and the reserves stay covered. |
| `OrderSettlement.SettleAllPaid` | internal/order/service.go:178-244 | So are all trades of a match, one after the other. |
| `OrderSettlement.PayableTotal` | cmd/server/server.go:157-161 | A market taker that has the total cost can pay for its trades in turn; if the pair has two coins, only then. |
| `OrderSettlement.SettleAllUnpaid` | internal/order/service.go:237-243 | If a market taker cannot pay for all of them in turn, the settlement is refused, for want of funds or of a wallet. |
| `OrderSettlement.SettlePrefix` | internal/order/service.go:178-244 | Paid or not, the trades before the first refusal are settled, covered, and cost exactly what their makers pay; only a market taker can be refused. |
| `OrderSettlement.SettledExactly` | internal/order/service.go:181-244 | What is settled for a market taker is as many trades as its available funds pay for in turn, and none without a wallet. |
| `OrderSimulation.MatchFits` | internal/order/service.go:184-208 | Every trade of a match finds its maker in the table, live, on the other side, at that price, and with that much left. |
| `OrderSimulation.MatchTable` | internal/order/service.go:258-313 | After a match every order it met is cancelled, filled, or still queued, and the table's fills agree with the queue. |
| `OrderApply.ApplyPaid` | internal/order/service.go:178-319 | If the taker can pay, the result is applied in full, nothing is clamped, and every reserve stays covered. |
| `OrderApply.ApplyStored` | internal/order/service.go:258-318 | The book after the match and the updated table agree, statuses included. |
| `OrderWorld.RestsExactlyWhenLive` | internal/order/matching_adapter.go:58-73 | A limit order rests with remaining size r exactly if its row is open or partially filled with r to go. |
| `OrderWorld.CreateKeeps` | internal/order/service.go:56-173 | An accepted and affordable order is created, nothing is clamped, the reserves stay covered, and table and books agree. |
| `OrderRefusals.SaleAffordable` | internal/order/service.go:95-115 | What an accepted sale sells is available, so that only a missing wallet can stop it. |
| `OrderRefusals.RefusedUnlessAffordable` | internal/order/service.go:92-170 | An accepted order succeeds if and only if it is affordable, which the caller can check before. |
| `OrderRefusals.OnlyMarketBuysRefused` | internal/order/service.go:94-115 | Only a market buy that cannot pay for its trades in turn, whose total cost is then more than is available, can be refused for want of funds. |
| `OrderRefusals.RefusalBreaks` | internal/order/service.go:165-170 | After a refusal the table no longer agrees with the books. |
| `OrderRefusals.KeptExactlyIfAffordable` | internal/order/service.go:165-170 | An accepted order leaves covered reserves and agreeing table and books if and only if it is affordable. |
| `OrderRefusals.RefusalHappens` | internal/order/service.go:92-95 | A market buy with too little money, whatever it has, that is accepted, matched, refused, and leaves them in disagreement. |
| `OrderRefusals.CoveredAfterRefusal` | internal/order/service.go:239-243 | After a refusal the table's reserves are covered if and only if each wallet had enough locked beyond what it owed to pay for the trades that the taker's available funds pay for in turn, all of it read off the state before. |
| `OrderRefusals.CoveredOnlyIfFree` | internal/order/service.go:239-243 | Where nothing was locked beyond what was owed, they are covered if and only if the trades that the taker's available funds pay for are all free. |
| `OrderLifecycle.CancelOrderKeeps` | internal/order/service.go:361-414 | Cancelling succeeds exactly for the caller's own live limit order, releases exactly its reserve and nothing beyond, and keeps everything in agreement. |
| `OrderLifecycle.CleanupKeeps` | internal/order/service.go:418-459 | The clean-up at startup leaves no order live, with every wallet solvent, and takes exactly what the live orders owed off the locked funds: nothing is clamped, and nothing beyond is released. |
| `OrderLifecycle.RunKeepsWorld` | internal/order/service.go:56-459 | Along every run without a refused settlement: 0 <= locked <= balance, locked covers all reserves, table and books agree. |
| `OrderLifecycle.LimitOrdersAreSmooth` | internal/order/service.go:128-155 | A limit order that is accepted goes through: the settlement never refuses it. |
| `OrderLifecycle.RunConserves` | internal/order/service.go:178-248 | No run changes the total of any currency, whatever the conversion of amounts, refused settlements included. |
| `OrderDrift.SlackExactly` | internal/order/service.go:210-235 | A fill never takes more off the locked funds than its order no longer owes, and takes all of it if and only if it is exact. |
| `OrderDrift.FloorSumExactly` | internal/order/service.go:151 | Two cut-off parts come to the cut-off whole if and only if what was cut off is less than one unit. |
| `OrderDrift.BuysExact` | internal/order/service.go:210-235 | A fill of a buy is exact if and only if its better price makes no difference after the cut-off, and what is cut off the fill and off the rest is less than one unit. |
| `OrderDrift.SalesExact` | internal/order/service.go:35-48 | Where a lot of the coin sold is a whole number of smallest units, every fill of a sale is exact. |
| `OrderDrift.DriftExactly` | internal/order/service.go:182-244 | A match never lessens what a wallet has locked beyond what it owes, and adds nothing anywhere if and only if all its fills are exact. |
| `OrderDrift.SettleAllSpare` | internal/order/service.go:182-244 | Settling a match changes what each wallet has locked beyond what it owes by exactly what the fills leave. |
| `OrderDrift.RunSpare` | internal/order/service.go:56-459 | Along a run what a wallet has locked beyond what it owes grows by exactly what the fills leave, and by nothing else; no cancellation or restart takes it away. |
| `OrderDrift.TightExactly` | internal/order/service.go:295-299 | If every wallet has locked exactly what it owes, that is still so after a run if and only if every fill of the run was exact. |
| `OrderDrift.FundsStranded` | internal/order/service.go:134-155 | A run of two orders that fill each other, after which the buyer owes nothing, half of what it locked is still locked, and a restart leaves it so. |
| `OrderSafety.MirrorsOnce` | internal/matching/orderbook.go:14-38 | There is only one table that lists the resting orders as the books have them. |
| `OrderSafety.OkIsSafe` | internal/order/service.go:56-459 | Where table and books agree and reserves are covered, the weaker invariant for runs with refusals holds. |
| `OrderSafety.SafeMeans` | cmd/server/server.go:101-170 | In a safe world wallets are solvent, books are well formed, and locked funds cover the resting orders by the books' own remaining sizes. |
| `OrderSafety.NewIdRestsNowhere` | internal/order/service.go:120-165 | An id that is new to the table is new to the books, as the engine asks of it. |
| `OrderSafety.CreateSafe` | internal/order/service.go:56-173 | An accepted order leaves a safe world, settled or refused, and an accepted limit order goes through even after earlier refusals. |
| `OrderSafety.RunStaysSafe` | internal/order/service.go:56-459 | Every run from a safe world stays safe, refusals, cancellations and restarts included; all that is asked is that new ids are new. |
| `OrderSpare.CreatedExactly` | internal/order/service.go:56-173 | After earlier refusals too, an accepted order goes through if and only if it is affordable. |
| `OrderSpare.SaleCreated` | internal/order/service.go:95-115 | After earlier refusals too, an accepted sale out of a wallet that exists is never refused. |
| `OrderSpare.AffordedSpare` | internal/order/service.go:178-319 | An order that goes through adds exactly the drift of its fills to what each wallet has locked beyond what it owes. |
| `OrderSpare.RefusedSpare` | internal/order/service.go:239-243 | A refused order takes exactly what the makers of the trades settled before pay, and leaves the table with its new row alone. |
| `OrderSpare.CancelSpare` | internal/order/service.go:361-414 | A cancellation changes none of it, whether the order still rests or not. |
| `OrderSpare.CleanupSpare` | internal/order/service.go:418-459 | On any table and any solvent wallets the clean-up leaves no order live, and locked just what was locked beyond what was owed, or nothing if that is negative. |
| `OrderSpare.RestartRestores` | internal/order/service.go:416-459 | After a restart table and books agree and everything is covered, whatever has been refused before. |
| `OrderSpare.RunSpareExactly` | internal/order/service.go:56-459 | Along every run, refusals and restarts included, what each wallet has locked beyond what it owes is known exactly, event by event. |
| `OrderLaws.BrokenRule` | internal/order/service.go:57-115 | A request is answered with the error of the first rule it breaks, in sides, types, prices, the pair's state and coins, sizes and balances, and changes nothing. |
| `OrderLaws.KeepsOrBreaks` | internal/order/service.go:57-115 | A request keeps every rule if and only if there is none that it breaks first. |
| `OrderLaws.TakenExactly` | internal/order/service.go:57-155 | A request is taken if and only if it keeps every rule and, for a limit order, its wallet exists. |
| `OrderLaws.ChangesOnlyIfKept` | internal/order/service.go:57-173 | A request that changes anything or succeeds keeps every rule. |
| `OrderLaws.RefusedWithoutWallet` | internal/order/service.go:134-155 | A limit order for nothing out of a missing wallet is refused by the wallets, and changes nothing. |
| `OrderLaws.LocksExactly` | internal/order/service.go:134-155 | A limit order that is taken has locked exactly what it may have to pay in the coin it spends, and a market order nothing. |
| `OrderLaws.CreatedRow` | internal/order/service.go:118-173 | The reply is the stored row: as requested, filled by its trades, and filled, partially filled, open or cancelled by its fill and type alone. |
| `OrderLaws.OtherRow` | internal/order/service.go:258-313 | Every other row has what it traded as a maker added to its fill and its status set accordingly, or is cancelled if it was the taker's own and in its way, or is as it was. |
| `OrderLaws.TradedAsAsked` | internal/order/service.go:160-165 | No trade of a limit request is at a price beyond the requested one, and none is with its own user. |
| `OrderLaws.SmallestUnits` | internal/order/service.go:35-48 | How many decimals the smallest unit of each coin has. |
| `OrderLaws.WholeCoins` | internal/order/service.go:210-235 | Whole coins at whole prices come to exactly that many units of either coin. |
| `OrderLaws.TradePays` | internal/order/service.go:203-243 | A settled trade takes the price from the buyer's quote wallet into the seller's, and the size from the seller's base wallet into the buyer's, and touches no other balance. |
| `OrderLaws.SettledPays` | internal/order/service.go:181-244 | A settlement has done that for each trade up to the first refusal, and for no other. |
| `OrderLaws.CreatedPays` | internal/order/service.go:56-173 | What an accepted order does to every balance, refused or not, is what its settled trades do. |
| `OrderLaws.CancelsExactly` | internal/order/service.go:361-414 | Only its owner cancels an order, while it is pending, open or partially filled and rests; it is then cancelled and out of the book, and no other row and no balance changes; each refusal has its error. |
| `OrderLaws.CleansExactly` | internal/order/service.go:418-459 | The clean-up cancels the pending, open and partially filled orders and leaves all other rows and all balances. |
| `OrderServices.OrderService.Validate` | internal/order/service.go:57-90 | The first check that fails, in the service's order. |
| `OrderServices.OrderService.Submit` | internal/matching/engine.go:36-42 | The result of the simple matcher for the stored row, and the books with that one pair changed; the service and the wallets share no object with the engine. |
| `OrderServices.OrderService.CreateOrder` | internal/order/service.go:56-173 | Checks, reserves, stores, submits to the engine in the heap and applies, on every way out, as the specification function does on what the books show. |
| `OrderServices.OrderService.SettleTrades` | internal/order/service.go:181-244 | Settles trade by trade and stops at the first refusal. |
| `OrderServices.OrderService.FillDeltas` | internal/order/service.go:250-256 | The map of what every order gained, as maker or as taker. |
| `OrderServices.OrderService.UpdateMakers` | internal/order/service.go:258-272 | Updates every maker that traded, in whatever order the map yields them. |
| `OrderServices.OrderService.CancelMakers` | internal/order/service.go:274-313 | Cancels the makers taken out by self-trade prevention and returns what they had reserved. |
| `OrderServices.OrderService.ApplyResult` | internal/order/service.go:178-319 | The table, the wallets and the taker's row after a match, on every way out. |
| `OrderServices.OrderService.CancelOrder` | internal/order/service.go:361-414 | The reply and the state after a cancellation in the engine in the heap, on every way out, a crash on a missing pair included. |
| `OrderServices.OrderService.FindAllOpen` | internal/order/repository/order_repository.go:51-59 | Lists every pending, open or partially filled order of the table, each once. |
| `OrderServices.OrderService.CleanupOpenOrders` | internal/order/service.go:418-459 | The table and the wallets after the clean-up of the live orders the table has, in whatever order they come. |
| `EscrowModel.AfterSound` | contracts/contracts/P2PEscrow.sol:54-133 | Whatever is called, by whomever, with whatever calls from inside payouts, the contract stays sound. |
| `EscrowModel.SeenSound` | contracts/contracts/P2PEscrow.sol:83-133 | So it is in every state seen on the way, inside re-entrant calls and in calls that revert. |
| `EscrowModel.CoversLive` | contracts/contracts/P2PEscrow.sol:25-31 | The ether covers the live amounts, an amount is positive exactly if the escrow is live, and no deposit is paid twice. |
| `EscrowModel.PaysExactlyWhen` | contracts/contracts/P2PEscrow.sol:83-133 | A payout succeeds exactly if the arbiter asks for it and the receiver takes it: a release of a funded or paid order, a refund of a live one, a decision on a disputed one; the ether never lacks. |
| `EscrowModel.PaysWhom` | contracts/contracts/P2PEscrow.sol:83-133 | A release pays the buyer, a refund the seller and a decision the side it names, the whole deposit, before anything paid from inside; the order is released or refunded accordingly, however the receiver calls back. |
| `EscrowModel.SeenFirst` | contracts/contracts/P2PEscrow.sol:86-91 | When the receiver gets its turn, the order is closed and emptied and the ether has left. |
| `EscrowModel.SeenThrough` | contracts/contracts/P2PEscrow.sol:86-91 | What is seen during a payout includes all that is seen during each call that its receiver makes. |
| `EscrowModel.ClosedStays` | contracts/contracts/P2PEscrow.sol:83-133 | An order that is paid out never changes again, whatever is called. |
| `EscrowModel.CreatesWhen` | contracts/contracts/P2PEscrow.sol:54-73 | An escrow is created exactly if the arbiter sends ether for an order that never had one, with a buyer and a seller; what is then recorded. |
| `EscrowModel.ChangesState` | contracts/contracts/P2PEscrow.sol:75-80 | The states in which a payment note and a dispute are taken, and the state each leaves. |
| `EscrowModel.Behaves` | contracts/contracts/P2PEscrow.sol:89-91 | A receiver's calls are carried out in turn, each whole or not at all, and its answer decides. |
| `EscrowModel.PaymentsMean` | contracts/contracts/P2PEscrow.sol:83-133 | No order is paid twice, and each payment is a whole deposit to its buyer if released and to its seller if refunded. |
| `EscrowModel.PaidOnce` | contracts/contracts/P2PEscrow.sol:83-133 | Once an order is paid out, nothing that is called later adds or takes back a payment of it. |
| `EscrowModel.HistoryGrows` | contracts/contracts/P2PEscrow.sol:54-73 | Deposits and payments are never taken back. |
| `Escrows.P2PEscrow.constructor` | contracts/contracts/P2PEscrow.sol:47-50 | A new contract is sound and holds nothing. |
| `Escrows.P2PEscrow.CreateEscrow` | contracts/contracts/P2PEscrow.sol:54-73 | Records the deposit, or reverts, exactly as the machine of calls does. |
| `Escrows.P2PEscrow.MarkPaid` | contracts/contracts/P2PEscrow.sol:75-80 | Funded becomes paid, and every other state reverts. |
| `Escrows.P2PEscrow.Release` | contracts/contracts/P2PEscrow.sol:83-92 | Pays the buyer, lets the receiver act, and reverts whole if the ether is not taken. |
| `Escrows.P2PEscrow.Refund` | contracts/contracts/P2PEscrow.sol:95-107 | The same for the seller. |
| `Escrows.P2PEscrow.RaiseDispute` | contracts/contracts/P2PEscrow.sol:110-115 | Funded or paid becomes disputed, and every other state reverts. |
| `Escrows.P2PEscrow.ResolveDispute` | contracts/contracts/P2PEscrow.sol:118-133 | Pays either side of a disputed escrow, and reverts whole if the ether is not taken. |
| `Transfers.WalletUsecase.Transfer` | internal/wallet/usecase/wallet_usecase.go:438-544 | The error that names the first reason against it, by balances and locks, with nothing changed then; and else the two balances and the two log records. |
| `Transfers.MovesExactly` | internal/wallet/usecase/wallet_usecase.go:487-500 | The sender loses exactly the amount and the receiver gains it if and only if both wallets are active and the amount is at most balance minus locked; no other balance, no lock and no wallet's activity changes. |
| `Transfers.RefusedExactly` | internal/wallet/usecase/wallet_usecase.go:487-493 | Suspended if a wallet is not active, insufficient balance if the amount is more than balance minus locked, and none else. |
| `Transfers.TransferKeeps` | internal/wallet/usecase/wallet_usecase.go:487-500 | A transfer keeps the two balances' sum and every total, leaves the sender's available balance non-negative, and touches no other wallet. |
| `Transfers.NextInv` | internal/wallet/usecase/wallet_usecase.go:460-500 | Every step keeps locks and holders in agreement, and a locked row as its holder read it. |
| `Transfers.CommitsExactly` | internal/wallet/usecase/wallet_usecase.go:487-500 | Among others, a transfer commits if and only if both wallets are active and the amount is there when it holds both locks, and else aborts. |
| `Transfers.WaitsIfBlocked` | internal/wallet/usecase/wallet_usecase.go:460-477 | A transfer that has not ended cannot go on exactly if it waits for a lock that some transfer holds. |
| `Transfers.NoCycle` | internal/wallet/usecase/wallet_usecase.go:460-477 | The wait-for graph has no cycle, in every state in which locks and holders agree. |
| `Transfers.NeverDeadlocked` | internal/wallet/usecase/wallet_usecase.go:460-477 | From the start, after any schedule, there is no cycle of waits, and as long as a transfer is unfinished some transfer can go on. |
| `Transfers.Progress` | internal/wallet/usecase/wallet_usecase.go:460-477 | As long as a transfer is unfinished, some transfer can go on. |
| `Transfers.StepsRunOut` | internal/wallet/usecase/wallet_usecase.go:460-500 | A run takes at most three steps a transfer, and nothing is left to do exactly when all have ended. |
| `Transfers.RunIsSerial` | internal/wallet/usecase/wallet_usecase.go:460-500 | Every interleaving leaves the balances of the transfers that have ended, run one after the other in the order they ended, each of them once. |
| `Transfers.RunKeepsMoney` | internal/wallet/usecase/wallet_usecase.go:487-500 | Every interleaving keeps every currency's total and every wallet solvent. |

## Left out

- HTTP handlers, authentication, KYC, configuration, migrations and logging: plumbing.
- Payment, custody and price providers, and the websocket hub: foreign calls.
- Postgres and GORM: tables are maps of rows, a transaction is all or nothing, and `FindByIDForUpdate` is a lock; failures of the database itself are not modelled.
- Floating point: orders are aligned, so rounding to nearest and the comparison tolerance do not arise; whether the conversion through floating point is sound in the sense of `OrderReserves.Sound` is not shown.
- Integer widths: `int64` and `uint64` are unbounded here.
- The tree's comparator and key type: keys are integers in their usual order, as in the order book; `Floor`, `Ceiling`, `Values`, `Clear`, `String` and the iterator's `First`, `Last`, `NextTo` and `PrevTo` are not modelled.
- The linked list of a price level: it is a sequence, and an order's list element is a flag that says whether it is linked.
- EngineSteps.Next: the work on a book is one read and one write of it, and `BestBidAsk`, which only reads, is left out.
- The order and trade ids are parameters, taken to be new; times are left out.
- The table of trades, the wallet's transaction records in settlement, fees (always zero there) and the listing of orders and trades: written or read only.
- OrderLifecycle.RunKeepsWorld: does not cover runs in which a settlement is refused, because after one the table and the books disagree, which is proved; what every run keeps is in `OrderSafety.RunStaysSafe`, `OrderSpare.RunSpareExactly` and `OrderLifecycle.RunConserves`.
- Deposits, withdrawals, the market maker and its treasury, and the peer-to-peer wallet adapter: other writers of the wallets with weaker rules.
- MarketFeed.OrderBookFeed.Publish: encoding a message cannot fail here.
- EscrowModel.AfterSound: gas, events and time stamps are left out, and a receiver's calls are fixed beforehand, which covers every way it can behave.
- Transfers.WalletUsecase.Transfer: user ids are numbers, of which only the order matters; the lookup of an address is a map.
- Transfers.NextInv: wallets are taken to exist as soon as they are locked, so two first transfers that create the same wallet at once are not modelled.
