# Order-book reconstruction: a verified model

This project models, in Dafny, how the engine rebuilds limit-order books from NASDAQ
TotalView-ITCH 5.0 and proves the equivalences and whole-run invariants the design
relies on. Prices are integers, quantities are unsigned 32-bit values, and every 32-bit
or 64-bit wrap-around that matters is written out.

How the modules fit together:

- `Levels` defines a side of the book as a plain price-to-quantity map with its best
  level and its ladder. `SimpleLevels` (the tree and the sorted vector) and
  `WindowedLevels` (the tick-indexed window with its overflow) are classes proved to
  behave as that map under every operation; `LevelStore` is the template parameter that
  chooses between them.
- `Orders` says what a message does to the live orders and what the level totals ought
  to be; `ObjectPool` and `OrderBook` are the pool and the incremental book proved
  against it.
- `Prelude` holds optional values and the 64-bit word size.
- `SpscRing` is the ring as a system of single loads, stores and slot accesses with
  64-bit counters. `Pipeline` and `Sharded` put it under the two replay drivers, with
  `BookSet` as what the shards fill. `Fairness` shows that both drivers end under every
  weakly fair schedule.
- `Messages`, `Itch`, `Framing` and `Mold` are the wire formats and the transports.
- `Synthetic` is the never-crossed feed generator over an arbitrary random stream.
- `Decimal`, `Json`, `JsonLine`, `Mt5`, `Depth` and `Fix` are the text codecs. `Seqs`
  holds facts about concatenation.
- `Replay` joins these: the same bytes through either driver or either transport give
  the same books, and the synthetic feed never shows a crossed market.

The order book is proved under what the feed promises of a message: an added reference
is not live, prices are not negative, and a level total stays below 2^32. The first of
these is shown to be exactly what the totals need (`Orders.AddMirrorsIffFresh`). A side
byte other than Buy goes to the asks, as in the code.

Where code and comments differ, the code is followed. The comment in
`include/core/spsc_ring.hpp` (lines 102-107) reads a non-zero `size_approx` as "definitely
not empty". `SpscRing.StaleNonZero` gives a run where that fails;
`SpscRing.SizeApproxExact` says exactly when it holds, and `SpscRing.SizeApproxForOwner`
that it does for the consumer.
The comment in `include/core/windowed_levels.hpp` (line 112) assumes a non-empty window
where the code also handles an empty one. `packetize_mold` accepts a limit of 65535
messages, whose full datagrams collide with the end-of-session marker, and a limit of 0,
which sends nothing; `Mold.DeliveredIff` is the exact condition for a stream to arrive
whole and `Mold.DeliversRest` says what arrives otherwise. `merge_from` keeps the books a
set already has, so `replay_sharded` into such a set need not be the sequential replay:
`Replay.HeldBookMissesFeed` is a case where it is not, and `Sharded.ShardedInto` says
exactly when it is. `encode` of the FIX codec accepts values that hold SOH;
`Fix.ParseEncode` says that exactly those do not come back.

Check the project with `dafny verify dfyconfig.toml`.

## Model

| member | source | states |
|---|---|---|
| `Levels.BestKey` | include/core/flat_levels.hpp:26-31 | begin() of a Compare-ordered map is the one level better than every other |
| `Levels.DecWithin` | include/core/flat_levels.hpp:22-25 | a decrement the level can bear subtracts exactly there, leaves every other price alone and keeps no zero level |
| `Levels.LadderIsLadder` | include/core/flat_levels.hpp:37-45 | the reference ladder is strictly best-first with exactly one row per level |
| `Levels.LadderUnique` | include/core/flat_levels.hpp:37-45 | any strictly best-first listing of all levels is that ladder, so top(n) has one right answer |
| `SimpleLevels.MapLevels.IncLevel` | include/core/flat_levels.hpp:21-21 | at every price the quantity is the old one plus, at p only, q, in 32-bit arithmetic; the levels are the old ones and p |
| `SimpleLevels.MapLevels.DecLevel` | include/core/flat_levels.hpp:22-25 | every other level is untouched; the level at p is the 32-bit difference, and is gone exactly when it was absent or the difference is zero |
| `SimpleLevels.MapLevels.Best` | include/core/flat_levels.hpp:26-31 | none exactly on an empty side, else the level better than every other, with its quantity |
| `SimpleLevels.MapLevels.Top` | include/core/flat_levels.hpp:37-45 | the first n rows of the ladder |
| `SimpleLevels.LowerBoundFinds` | include/core/flat_levels.hpp:90-97 | on a sorted vector the lower bound is the position of the price if it is held, and otherwise where inserting it keeps the order |
| `SimpleLevels.FlatLevels.Find` | include/core/flat_levels.hpp:90-97 | the binary search returns the lower bound |
| `SimpleLevels.FlatLevels.IncLevel` | include/core/flat_levels.hpp:59-63 | the sorted vector stays the ladder of the map, and the map changes as the plain map does, 32-bit wrap included |
| `SimpleLevels.FlatLevels.DecLevel` | include/core/flat_levels.hpp:64-67 | likewise for a decrement, erasing a row that reaches zero |
| `SimpleLevels.FlatLevels.Best` | include/core/flat_levels.hpp:68-73 | the answer of the plain map |
| `SimpleLevels.FlatLevels.QtyAt` | include/core/flat_levels.hpp:74-77 | the answer of the plain map |
| `SimpleLevels.FlatLevels.Size` | include/core/flat_levels.hpp:78-78 | the number of levels of the plain map |
| `SimpleLevels.FlatLevels.Top` | include/core/flat_levels.hpp:79-84 | the first n rows of the ladder of the plain map |
| `WindowedLevels.Partition` | include/core/windowed_levels.hpp:183-188 | every level is in exactly one of an occupied slot and the overflow |
| `WindowedLevels.SizeIsCount` | include/core/windowed_levels.hpp:75-75 | count_ plus the overflow size is the number of levels |
| `WindowedLevels.WindowBestIsBest` | include/core/windowed_levels.hpp:112-117 | with anything in the window, its best slot is the best level of all and beats every overflow price |
| `WindowedLevels.BestAfterFill` | include/core/windowed_levels.hpp:134-142 | which slot is best after a slot is filled, in every case |
| `WindowedLevels.BestAfterClear` | include/core/windowed_levels.hpp:144-157 | clearing another slot keeps the best; clearing the best leaves only slots past it, which is why the forward walk suffices |
| `WindowedLevels.TakeWindow` | include/core/windowed_levels.hpp:88-95 | a row taken from the window is the best remaining level, and the walk to the next slot skips no level |
| `WindowedLevels.TakeOverflow` | include/core/windowed_levels.hpp:96-99 | once the window is exhausted, the overflow head is the best remaining level |
| `WindowedLevels.CollectWindow` | include/core/windowed_levels.hpp:162-166 | re-centring collects each in-window level once and nothing else |
| `WindowedLevels.CollectOverflow` | include/core/windowed_levels.hpp:167-167 | and each overflow level once |
| `WindowedLevels.WindowedLevels.BestPrice` | include/core/windowed_levels.hpp:112-117 | is the best level over window and overflow; the read of an empty overflow and the overflow-wins branch are unreachable |
| `WindowedLevels.WindowedLevels.NextWindowIdx` | include/core/windowed_levels.hpp:120-132 | the nearest occupied slot in Compare order, with every slot in between empty; false exactly when none is left |
| `WindowedLevels.WindowedLevels.PlaceInWindow` | include/core/windowed_levels.hpp:134-142 | for a total below 2^32, raises that level of the plain map and keeps count_, the best slot and the representation |
| `WindowedLevels.WindowedLevels.RescanBest` | include/core/windowed_levels.hpp:144-157 | restores the best slot by the forward walk alone; the full-scan safety net is unreachable |
| `WindowedLevels.WindowedLevels.RecenterTo` | include/core/windowed_levels.hpp:161-181 | on a non-negative centre better than every level, the only kind inc() passes: the levels are unchanged, the centre lies in the window, and every level left outside is on the worse side of the whole window |
| `WindowedLevels.WindowedLevels.IncLevel` | include/core/windowed_levels.hpp:25-38 | for every state, every price p >= 0 and every total below 2^32, the plain-map increment, whether placed, spilled or re-centred; for every window size >= 1 and both orders |
| `WindowedLevels.WindowedLevels.DecLevel` | include/core/windowed_levels.hpp:40-52 | the plain-map decrement, in the window or in the overflow |
| `WindowedLevels.WindowedLevels.Best` | include/core/windowed_levels.hpp:54-67 | the answer of the plain map |
| `WindowedLevels.WindowedLevels.QtyAt` | include/core/windowed_levels.hpp:69-73 | the answer of the plain map |
| `WindowedLevels.WindowedLevels.Size` | include/core/windowed_levels.hpp:75-75 | the number of levels of the plain map |
| `WindowedLevels.WindowedLevels.Top` | include/core/windowed_levels.hpp:79-101 | the merge of window and overflow is the first n rows of the ladder of the plain map, for every n |
| `LevelStore.NewStore` | include/book/order_book.hpp:160-161 | an empty store of the kind asked for, ordered for its side; the window is 65536 ticks |
| `ObjectPool.ObjectPool.Alloc` | include/core/object_pool.hpp:26-34 | takes the last free handle, or grows by one slot exactly when none is free |
| `ObjectPool.TakeFree` | include/core/object_pool.hpp:26-31 | reusing a free handle keeps index and free list a partition of all slots, with handles distinct |
| `ObjectPool.Grow` | include/core/object_pool.hpp:32-33 | so does growing when nothing is free |
| `ObjectPool.GiveBack` | include/core/object_pool.hpp:35-35 | so does freeing |
| `ObjectPool.LiveCount` | include/core/object_pool.hpp:40-41 | live() is the number of indexed references |
| `Orders.SplitSum` | include/book/order_book.hpp:135-144 | a level total does not depend on the order in which the orders are summed |
| `Orders.OneOrderSums` | include/book/order_book.hpp:43-50 | the totals of a single order: all its shares at its price, on the bids exactly for side byte B |
| `Orders.AddIs` | include/book/order_book.hpp:43-50 | the order enters with its side, price and shares, every other order is as it was, and a zero-share add changes nothing |
| `Orders.ReduceIs` | include/book/order_book.hpp:54-66 | an order survives exactly when less than its shares are taken, at the same side and price with the difference; every other order is as it was |
| `Orders.RemoveIs` | include/book/order_book.hpp:69-77 | the order is gone and every other is as it was |
| `Orders.ReplaceIs` | include/book/order_book.hpp:82-89 | the new reference rests on the old side at the new price and size, the old one is gone unless reused, others are as they were, and an unknown reference changes nothing |
| `Orders.ApplyIs` | include/book/order_book.hpp:92-113 | which operation each message type stands for |
| `Orders.SumPositive` | include/book/order_book.hpp:135-144 | a level total is positive exactly when some order rests there |
| `Orders.MirrorUnique` | include/book/order_book.hpp:145-151 | levels that equal the per-level order sums are determined by the orders |
| `Orders.MirrorAdd` | include/book/order_book.hpp:43-50 | adding a fresh order and raising its level keeps every level the sum of its orders |
| `Orders.MirrorTake` | include/book/order_book.hpp:54-66 | taking shares off an order and its level keeps every level the sum of its orders, dropping what reaches zero |
| `Orders.MirrorOther` | include/book/order_book.hpp:155-158 | the other side is untouched |
| `Orders.BestOfOrders` | include/book/order_book.hpp:116-117 | best() read off the orders alone: no quote exactly without orders on the side, otherwise the best price any of them rests at with the total there |
| `Orders.AddMirrorsIffFresh` | include/book/order_book.hpp:43-50 | the totals survive an add if and only if the reference was not live |
| `Orders.SidesStayKnown` | include/book/order_book.hpp:92-113 | if every add carries Buy or Sell, every order of every later state does |
| `OrderBook.Book.AddOrder` | include/book/order_book.hpp:43-50 | within the feed's promises, the order map gains the order (a zero-share add changes nothing); levels, pool and index stay consistent; capacity is the new peak |
| `OrderBook.Book.ReduceOrder` | include/book/order_book.hpp:54-66 | false exactly for an unknown reference; the order keeps its shares less qty when that leaves any, and is dropped otherwise; every other order is as it was; levels, pool and index stay consistent |
| `OrderBook.Book.RemoveOrder` | include/book/order_book.hpp:69-77 | drops the order, false exactly for an unknown reference |
| `OrderBook.Book.ReplaceOrder` | include/book/order_book.hpp:82-89 | within the feed's promises, drops the old reference and adds the new one on the inherited side, reusing the freed slot |
| `OrderBook.Book.ApplyMessage` | include/book/order_book.hpp:92-113 | within the feed's promises, the new orders are the message applied to the old ones, with all invariants kept |
| `OrderBook.Book.Replay` | include/book/order_book.hpp:92-113 | over every run of acceptable messages the invariants hold, the orders are the fold, and capacity() is the highest number of orders ever live at once |
| `OrderBook.Book.Count` | include/core/object_pool.hpp:40-41 | order_count() and live() are the number of live orders, capacity() the peak |
| `OrderBook.Book.QtyAt` | include/book/order_book.hpp:118-120 | the sum of the live orders resting there |
| `OrderBook.Book.Depth` | include/book/order_book.hpp:126-128 | the first n rows of the ladder of the side |
| `OrderBook.Book.OrderCount` | include/book/order_book.hpp:121-121 | the number of live orders |
| `OrderBook.Book.InvariantOk` | include/book/order_book.hpp:135-152 | decides exactly whether all shares are non-zero, all sides known and both stores equal the per-level sums, on any properly stored book whose sums fit 32 bits, consistent or not |
| `OrderBook.Tally` | include/book/order_book.hpp:138-144 | one round of the rebuild keeps the rebuilt sides equal to the sums of the orders seen |
| `OrderBook.SameSide` | include/book/order_book.hpp:145-151 | equal sizes and equal quantities at every rebuilt price decide equality of the maps |
| `OrderBook.CheckedReplay` | include/book/order_book.hpp:135-152 | after every run, over every store, invariant_ok() is true exactly when every live order has side B or S |
| `OrderBook.SameLevelsOfBooks` | include/book/order_book.hpp:169-171 | books with the same orders hold the same levels, whatever their stores |
| `OrderBook.Book.Query` | include/book/order_book.hpp:116-131 | best quotes, quantity at a price, depth, level counts and order count are those of the per-level sums of the live orders |
| `OrderBook.Ask` | include/book/order_book.hpp:116-131 | the same after any run, over the store asked for |
| `OrderBook.OneRightAnswer` | include/book/order_book.hpp:116-131 | the live orders determine every answer |
| `OrderBook.Parity` | include/book/order_book.hpp:169-171 | a map, a flat and a windowed book answer every query identically and rightly after every run |
| `SpscRing.MaskWrapped` | include/core/spsc_ring.hpp:70-82 | masking a counter that wrapped at 2^64 picks the slot of the unwrapped one |
| `SpscRing.FullTestAgrees` | include/core/spsc_ring.hpp:66-68 | the 64-bit full test is the unbounded one |
| `SpscRing.EmptyTestAgrees` | include/core/spsc_ring.hpp:78-80 | the 64-bit empty test is the unbounded one |
| `SpscRing.WrapInvisible` | include/core/spsc_ring.hpp:63-85 | in every state the invariant allows, both tests and both slot indices are those of counters that never wrap |
| `SpscRing.StepInv` | include/core/spsc_ring.hpp:63-85 | every single load, store and slot access of either side keeps the invariant |
| `SpscRing.RunInv` | include/core/spsc_ring.hpp:63-85 | so it holds in every state of every interleaving |
| `SpscRing.HeldIs` | include/core/spsc_ring.hpp:63-85 | pushed items are the popped ones followed by the slots read from tail on |
| `SpscRing.Fifo` | include/core/spsc_ring.hpp:63-85 | over every interleaving: FIFO, at most capacity items held, cached counters lag safely, and the slot written is never the slot being read |
| `SpscRing.GenuineRefusals` | include/core/spsc_ring.hpp:66-81 | push gives up only on a full ring and pop only on an empty one, at the deciding load |
| `SpscRing.Monotone` | include/core/spsc_ring.hpp:38-40 | the pushed and popped histories only grow |
| `SpscRing.SizeApproxIs` | include/core/spsc_ring.hpp:108-112 | for any two loads of any run, the result is the true difference of the counts read modulo 2^64, and that very number exactly when it is below 2^64; it is at most capacity plus the pops in between |
| `SpscRing.SizeApproxSound` | include/core/spsc_ring.hpp:108-113 | below 2^64, zero means empty at the second load and non-zero means non-empty at some instant between the loads |
| `SpscRing.SizeApproxExact` | include/core/spsc_ring.hpp:102-113 | the ring is non-empty at the second load exactly when the result exceeds the pops made since the first, and was non-empty at the first exactly when it exceeds the pushes made since |
| `SpscRing.SizeApproxForOwner` | include/core/spsc_ring.hpp:102-113 | with no pop between the loads, as when the consumer asks, non-zero is exactly non-empty at the second load; with no push, as when the producer asks, exactly non-empty at the first |
| `SpscRing.StaleNonZero` | include/core/spsc_ring.hpp:102-113 | a run in which a third thread reads non-zero for a ring that is empty |
| `SpscRing.HeadFirstUnderflows` | include/core/spsc_ring.hpp:95-100 | loading head first gives the true difference exactly when the consumer has not overtaken the value read |
| `SpscRing.NoRetry` | include/core/spsc_ring.hpp:28-32 | a side's own step shortens its call and the other side's steps do not touch it |
| `SpscRing.WaitFree` | include/core/spsc_ring.hpp:28-32 | whatever the other thread does, a push or a pop under way returns by its third further step |
| `SpscRing.RoundUpPow2` | include/core/spsc_ring.hpp:116-120 | the least power of two >= max(n, 2), for n <= 2^63 |
| `SpscRing.RoundUpEndsIff` | include/core/spsc_ring.hpp:116-120 | the doubling loop ends if and only if n <= 2^63 |
| `SpscRing.Pow2IsGoodCap` | include/core/spsc_ring.hpp:36-40 | every power of two up to 2^63 divides 2^64, which the wrap argument needs |
| `SpscRing.SpscRing.Push` | include/core/spsc_ring.hpp:63-73 | alone, push succeeds exactly when fewer than capacity items are held, and appends the item |
| `SpscRing.SpscRing.Pop` | include/core/spsc_ring.hpp:76-85 | alone, pop succeeds exactly when something is held, and returns the oldest; otherwise out is untouched |
| `Pipeline.ReplaySingleThreaded` | include/feed/pipeline.hpp:20-28 | the book after all decoded messages in order, and their count |
| `Pipeline.FoldSplits` | include/feed/pipeline.hpp:20-28 | replaying nothing changes nothing, one message is one apply, and a feed may be replayed in two parts |
| `Pipeline.MoveInv` | include/feed/pipeline.hpp:39-70 | every step of either thread keeps the protocol invariant |
| `Pipeline.PipelineIsSequential` | include/feed/pipeline.hpp:39-70 | in every interleaving what was applied is a prefix, and a consumer out of its loop has applied every message once, in order, with the producer finished |
| `Pipeline.Progress` | include/feed/pipeline.hpp:39-70 | in every reachable non-final state some thread has an enabled step that decreases a measure |
| `Pipeline.WorkFalls` | include/feed/pipeline.hpp:39-70 | under any schedule, a successful push or pop and the clearing of the flag each take exactly one off the work left, and no other step changes it |
| `Pipeline.GainsBounded` | include/feed/pipeline.hpp:39-70 | any run holds at most 2n + 1 such steps for n messages, and a run that has ended exactly that many |
| `Pipeline.RankNeverRises` | include/feed/pipeline.hpp:39-70 | no step of either thread raises the distance to the end, and each step of the thread that can help lowers it |
| `Fairness.PipelineTerminates` | include/feed/pipeline.hpp:39-70 | under every weakly fair infinite schedule the consumer leaves its loop, after which nothing moves and book and count are those of the single-threaded replay |
| `Fairness.FairScheduleExists` | include/feed/pipeline.hpp:39-70 | weakly fair schedules exist from every start |
| `Pipeline.Finish` | include/feed/pipeline.hpp:39-70 | from every reachable state some continuation ends |
| `BookSet.Trim` | include/book/book_set.hpp:79-83 | strips exactly the trailing spaces |
| `BookSet.BookSet.Apply` | include/book/book_set.hpp:23-43 | a directory entry names its locate and creates its book if missing; an order message is applied to its locate book, created if missing; other types change nothing; no other locate changes |
| `BookSet.EmplaceAll` | include/book/book_set.hpp:70-71 | the insertion loop keeps the value of every key already present and takes the others, in any iteration order |
| `BookSet.BookSet.MergeFrom` | include/book/book_set.hpp:69-74 | at every locate the set knows what it knew before, completed by what the other knew, and the other is left empty |
| `BookSet.ApplyTouchesOne` | include/book/book_set.hpp:23-43 | a message changes its own locate and no other |
| `BookSet.FoldOfLocate` | include/book/book_set.hpp:23-43 | what a set knows about a locate after any run depends on that locate's messages alone |
| `BookSet.KnownIff` | include/book/book_set.hpp:23-43 | a replay creates books for exactly the locates named by a directory entry or an order message, and symbols for exactly those with a directory entry |
| `Sharded.OfShardNext` | include/feed/sharded_pipeline.hpp:61-66 | the next message of a shard is the next message of the feed that hashes to it |
| `Sharded.FarmMoveInv` | include/feed/sharded_pipeline.hpp:44-67 | every step of the producer or of any worker keeps the invariant of all shards |
| `Sharded.FarmRunInv` | include/feed/sharded_pipeline.hpp:29-72 | which therefore holds in every state of every schedule |
| `Sharded.LocateInShard` | include/feed/sharded_pipeline.hpp:62-64 | all messages of a locate go to one shard, in feed order, under the 32-bit hash |
| `Sharded.HashInverse` | include/feed/sharded_pipeline.hpp:62-63 | the 32-bit product can be undone, so no two locates share a hash |
| `Sharded.ShardOf` | include/feed/sharded_pipeline.hpp:62-63 | a worker index: the remainder of the hash by the worker count |
| `Sharded.MergedSlot` | include/feed/sharded_pipeline.hpp:70-70 | after merging k shards, exactly the locates hashed to them are known, as in the sequential replay |
| `Sharded.MergeIsReplay` | include/feed/sharded_pipeline.hpp:70-70 | merging all shards into any set is merging the sequential replay into it |
| `Sharded.MergeShards` | include/feed/sharded_pipeline.hpp:70-70 | the merge loop over the shard objects |
| `Sharded.ShardedIsSequential` | include/feed/sharded_pipeline.hpp:29-72 | for every feed, worker count and schedule, once joined, the merged books and symbols are those of the sequential replay into any set that knows none of the feed's locates, and every message was pushed |
| `Sharded.ShardedInto` | include/feed/sharded_pipeline.hpp:29-72 | into any set whatever: what it already held stays as it was, and the result is the sequential one if and only if each book held comes back unchanged from its own order messages and each symbol held is the one the feed names last |
| `Sharded.FoldOfSlot` | include/book/book_set.hpp:23-43 | what a run leaves at a locate: the book after its order messages, and the symbol named last, else the one held |
| `Sharded.LastNameIs` | include/book/book_set.hpp:25-28 | the symbol is that of the last directory entry |
| `Replay.HeldBookMissesFeed` | include/book/book_set.hpp:66-74 | a book with one order and a feed adding a second: for every worker count and schedule the sharded replay leaves one order where the sequential replay holds two |
| `Sharded.FarmProgress` | include/feed/sharded_pipeline.hpp:44-69 | no deadlock: until all workers are out, some thread has a step that decreases a measure |
| `Sharded.FarmWorkFalls` | include/feed/sharded_pipeline.hpp:44-69 | under any schedule, a successful push or pop and the setting of the flag each take exactly one off the work left, and no other step changes it |
| `Sharded.FarmGainsBounded` | include/feed/sharded_pipeline.hpp:44-69 | any run holds at most 2n + 1 such steps for n messages, whatever the number of workers, and a joined run exactly that many |
| `Fairness.OneTick` | include/feed/sharded_pipeline.hpp:44-69 | no step of any thread raises the total distance to the end; a helpful thread's step lowers it, and any other leaves that thread helpful |
| `Fairness.FarmTerminates` | include/feed/sharded_pipeline.hpp:44-69 | under every weakly fair infinite schedule of producer and workers all workers leave their loops, for good |
| `Fairness.ShardedTerminates` | include/feed/sharded_pipeline.hpp:29-72 | and the merged books are then the sequential replay |
| `Fairness.FairFarmScheduleExists` | include/feed/sharded_pipeline.hpp:44-69 | weakly fair schedules exist from every start |
| `Sharded.FarmCanFinish` | include/feed/sharded_pipeline.hpp:44-69 | from every reachable state some continuation joins all workers |
| `Itch.ReadWritten` | include/feed/synthetic.hpp:14-27 | reading n big-endian bytes undoes writing them, for values in range |
| `Itch.WriteRead` | src/itch/decoder.cpp:11-24 | and writing undoes reading, with the value in range |
| `Itch.AppendBE` | include/feed/synthetic.hpp:24-27 | the shift loop appends the big-endian bytes |
| `Itch.ReadBE` | src/itch/decoder.cpp:11-24 | the accumulator loop reads them |
| `Itch.DecodeAccepts` | src/itch/decoder.cpp:57-159 | accepts exactly the handled types given at least their wire length; every field is in range |
| `Itch.DecodedHeader` | src/itch/decoder.cpp:57-63 | locate at byte 1 and timestamp at byte 5, big-endian, in every decoded message |
| `Itch.DecodedEvent` | src/itch/decoder.cpp:66-70 | S: the event code at byte 11, all else blank |
| `Itch.DecodedDirectory` | src/itch/decoder.cpp:72-76 | R: the symbol at bytes 11-18, all else blank |
| `Itch.DecodedAdd` | src/itch/decoder.cpp:78-96 | A and F: reference, side, shares, symbol and price by offset, all else blank |
| `Itch.DecodedExecution` | src/itch/decoder.cpp:98-113 | E and C: reference, shares and match number by offset, and for C the price at byte 32, all else blank |
| `Itch.DecodedCancel` | src/itch/decoder.cpp:115-126 | X and D: the reference, and for X the shares, by offset, all else blank |
| `Itch.DecodedReplace` | src/itch/decoder.cpp:128-135 | U: both references, shares and price by offset, all else blank |
| `Itch.DecodedTrade` | src/itch/decoder.cpp:137-146 | P: reference, side, shares, symbol, price and match number by offset, all else blank |
| `Itch.DecodedCross` | src/itch/decoder.cpp:148-153 | Q: symbol, price and match number by offset, all else blank |
| `Itch.WireLengths` | src/itch/decoder.cpp:28-55 | the length of every type by its letter, 0 for any other |
| `Itch.BEDigit` | include/feed/synthetic.hpp:14-27 | byte i of a big-endian field |
| `Itch.DecodeEncode` | src/itch/decoder.cpp:57-159 | decoding the layout of any message in wire range gives the message, at its table length |
| `Itch.HeaderRoundTrip` | include/feed/synthetic.hpp:28-34 | type, locate and 48-bit timestamp survive |
| `Itch.FillerIsZero` | include/feed/synthetic.hpp:28-34 | the tracking number, and a directory entry past its symbol, are zero bytes |
| `Framing.Walk` | include/feed/framing.hpp:19-31 | for any decoder, delivers the decodable bodies in order and returns the bytes consumed, with all reads in bounds |
| `Framing.ForEachFramedMessage` | include/feed/framing.hpp:19-31 | the same for the ITCH decoder; the offset never exceeds the length |
| `Framing.BodiesByByte` | include/feed/framing.hpp:21-29 | byte by byte: what stops the walk and what it delivers |
| `Framing.CollectSplits` | include/feed/framing.hpp:27-27 | an undecodable body is left out and nothing else is |
| `Framing.BodiesOfFrames` | include/feed/framing.hpp:19-31 | deframing framed bodies gives the bodies, whatever follows |
| `Framing.FramesOfBodies` | include/feed/framing.hpp:19-31 | framing the bodies of any stream gives the bytes consumed, and no whole frame is left |
| `Framing.CutBodies` | include/feed/framing.hpp:24-25 | a stream cut at any byte yields a prefix of its bodies |
| `Framing.FeedRoundTrip` | include/feed/synthetic.hpp:14-39 | laying out, framing, deframing and decoding any messages in range gives them back and consumes the whole buffer |
| `Framing.CutFeed` | include/feed/framing.hpp:19-31 | a feed cut at any byte decodes to a prefix of its messages |
| `Mold.HeaderRoundTrip` | include/feed/moldudp64.hpp:28-52 | session, sequence number and count survive; the blocks follow at byte 20 |
| `Mold.Pad10` | include/feed/moldudp64.hpp:44-46 | the session name, cut to ten bytes or padded with spaces |
| `Mold.Packetize` | include/feed/moldudp64.hpp:56-77 | the datagrams are the frames of the stream in groups of k, numbered from 1 |
| `Mold.TakeFrames` | include/feed/moldudp64.hpp:56-77 | one datagram takes exactly min(k, remaining) whole frames |
| `Mold.WalkBlocks` | include/feed/moldudp64.hpp:84-108 | walks the blocks of a datagram up to its count or a truncation, numbering each |
| `Mold.BlocksByByte` | include/feed/moldudp64.hpp:95-99 | byte by byte: the count, the end or a truncation stop the walk, an empty block does not |
| `Mold.NumberedOne` | include/feed/moldudp64.hpp:100-105 | one body takes its number whether or not it decodes |
| `Mold.MoldSession.OnPacket` | include/feed/moldudp64.hpp:84-108 | the whole new receiver state and what is delivered, including short headers and end of session |
| `Mold.ReceiveCases` | include/feed/moldudp64.hpp:84-108 | a short datagram changes nothing, an end of session only ends it, any other starts the session, delivers its blocks from its number and moves the expected number past them |
| `Mold.CountersCount` | include/feed/moldudp64.hpp:88-105 | over every run, messages() grows by what was handed to the sink and packets() by the datagrams of 20 bytes or more |
| `Mold.FreshCounters` | include/feed/moldudp64.hpp:88-105 | from a fresh session the counts are exact |
| `Mold.PacketsCarry` | include/feed/moldudp64.hpp:56-77 | each datagram carries its group of bodies under the right sequence number |
| `Mold.ReceiveCarried` | include/feed/moldudp64.hpp:84-108 | receiving such a datagram delivers that group, numbered |
| `Mold.DeliverAll` | include/feed/moldudp64.hpp:84-108 | receiving all datagrams in order delivers all bodies with no gap |
| `Mold.PacketizedStreamIsDelivered` | include/feed/moldudp64.hpp:56-108 | packetise any stream with a limit that fills no datagram to 65535 and receive it: exactly its messages, in order, each with its 1-based frame number, gaps 0, and the expected number one past the last frame |
| `Mold.DeliversRest` | include/feed/moldudp64.hpp:84-108 | for every limit from 0 to 65535, exactly which messages come out: all but those of full 65535-message datagrams, none for limit 0; the session is taken to have ended exactly when a datagram filled up |
| `Mold.DeliveredIff` | include/feed/moldudp64.hpp:56-108 | for every limit, the stream arrives whole, numbered, without gap or early end, if and only if it is empty or the limit is not 0 and fills no datagram to 65535 |
| `Mold.PacketizedDeliveredIff` | include/feed/moldudp64.hpp:56-108 | the same of the datagrams that packetize_mold makes of any byte stream |
| `Mold.LedgerStep` | include/feed/moldudp64.hpp:84-108 | what one datagram adds to the balance of expected number, walked messages, gaps and backward jumps |
| `Mold.Ledger` | include/feed/moldudp64.hpp:84-108 | the balance over any run of datagrams, duplicates, reorderings and malformed ones included, modulo 2^64 |
| `Mold.GapsFrom` | include/feed/moldudp64.hpp:84-108 | gaps after the first delivery, with messages pending since the last, for any limit |
| `Mold.GapsAreMisses` | include/feed/moldudp64.hpp:84-108 | drop any datagrams, with any limit: gaps is exactly the messages in missed datagrams between the first and the last counted, a full 65535-message datagram being as good as missed |
| `Mold.GapsAreLosses` | include/feed/moldudp64.hpp:84-108 | without a full datagram: exactly the messages in dropped datagrams between the first and the last delivered |
| `Synthetic.ShadowedIsUncrossed` | include/feed/synthetic.hpp:287-301 | a book whose orders are all in the shadow list is uncrossed |
| `Synthetic.ShadowsAdd` | include/feed/synthetic.hpp:315-316 | an add keeps every order shadowed |
| `Synthetic.ShadowsReduce` | include/feed/synthetic.hpp:329-335 | so does an execution, even of an order already gone |
| `Synthetic.ShadowsDelete` | include/feed/synthetic.hpp:336-344 | so does the swap-pop, whichever entry it moves |
| `Synthetic.ApartAdd` | include/feed/synthetic.hpp:302-317 | an add clear of the opposite shadow prices keeps bids below asks and the one- and two-cent floors |
| `Synthetic.ApartDelete` | include/feed/synthetic.hpp:341-344 | the swap-pop keeps that separation |
| `Synthetic.TotalsAdd` | include/feed/synthetic.hpp:308-314 | level totals grow by at most one order's shares an add |
| `Synthetic.AddKeeps` | include/feed/synthetic.hpp:302-317 | one add keeps the whole simulation and is a message the book accepts |
| `Synthetic.DeleteKeeps` | include/feed/synthetic.hpp:336-344 | one delete keeps the whole simulation |
| `Synthetic.Generator.Best` | include/feed/synthetic.hpp:292-301 | the extreme shadow price of a side if it has an entry, its seed price exactly otherwise |
| `Synthetic.Generator.PriceFor` | include/feed/synthetic.hpp:303-306 | one cent and a drawn number of cents beyond the opposite best, a bid no lower than one cent; hence strictly clear of the other side and above the floor |
| `Synthetic.Generator.AddOrder` | include/feed/synthetic.hpp:302-317 | the message that the next two draws call for, both arrays extended, and the simulation kept |
| `Synthetic.Generator.Execute` | include/feed/synthetic.hpp:329-335 | the execution that the next two draws call for, and the simulation kept |
| `Synthetic.Generator.Delete` | include/feed/synthetic.hpp:336-344 | the deletion that the next draw calls for, both arrays swap-popped, and the simulation kept |
| `Synthetic.Generator.Print` | include/feed/synthetic.hpp:345-355 | the print at the mid that the next two draws call for; it changes no book |
| `Synthetic.Generator.Next` | include/feed/synthetic.hpp:325-358 | one round of the main loop: the kind the roll calls for, its effect on the arrays, and the clock |
| `Synthetic.MakeSyntheticBook` | include/feed/synthetic.hpp:268-360 | for every random stream: n framed messages in wire range, exactly those the stream calls for step by step, every prefix of which reconstructs to an uncrossed book |
| `Synthetic.StepIsDetermined` | include/feed/synthetic.hpp:268-360 | the random stream leaves no choice of message |
| `Synthetic.FirstBid` | include/feed/synthetic.hpp:283-321 | the first message is a bid at 1001000 less 0 to 9 cents, reference 1 |
| `Synthetic.NeverCrossed` | include/feed/synthetic.hpp:262-267 | the bytes cut anywhere still reconstruct to an uncrossed book |
| `Synthetic.QuotesUncrossed` | include/feed/synthetic.hpp:262-267 | uncrossed orders give best bid < best ask for every level store that mirrors them |
| `Decimal.ReadBack` | include/mt5/protocol.hpp:128-137 | strtoll reads back what to_string wrote, saturated to 64 bits, and stops right after it |
| `Decimal.StrToLLIs` | include/mt5/protocol.hpp:128-137 | strtoll on any text: white space, at most one sign, digits saturated to 64 bits, stopping at the first other character |
| `Decimal.StrToLLNone` | include/mt5/protocol.hpp:128-137 | and nothing when there is no digit |
| `Decimal.ClampIs` | include/mt5/protocol.hpp:128-137 | saturation is to the 64-bit range |
| `Decimal.NatStrCanonical` | include/mt5/protocol.hpp:199-199 | decimal text has no leading zero |
| `Fix.Checksum` | include/fix/message.hpp:35-39 | the 32-bit sum modulo 256 is the true byte sum modulo 256 |
| `Fix.SumSplits` | include/fix/message.hpp:35-39 | the sum of the bytes and nothing more |
| `Fix.Encode` | include/fix/message.hpp:49-62 | the assembled string is the text of 8, 9, 35, the body fields and 10 |
| `Fix.StandardFields` | include/fix/message.hpp:49-62 | tags 8, 9, 35, the body and 10 in that order; tag, equals sign, value, byte 1 |
| `Fix.Parse` | include/fix/message.hpp:65-78 | the fields up to the first incomplete one; true exactly when there is any |
| `Fix.TakeFieldIs` | include/fix/message.hpp:69-75 | a whole field is read by its first equals sign and the next SOH; without either there is none |
| `Fix.ParseEncode` | include/fix/message.hpp:49-78 | parsing an encoded message returns 8, 9, 35, the body in order and 10, if and only if no value holds SOH |
| `Fix.ParseReturnsIff` | include/fix/message.hpp:65-78 | any fields come back from their text if and only if no value holds SOH |
| `Fix.BodyLengthCounts` | include/fix/message.hpp:49-62 | BodyLength is the number of bytes between field 9 and field 10 |
| `Fix.EncodedValidates` | include/fix/message.hpp:82-89 | every encoded message passes valid_checksum |
| `Fix.ValidIff` | include/fix/message.hpp:82-89 | valid exactly when a last trailer exists and the three characters after it spell the sum of all before |
| `Fix.NoTrailerFails` | include/fix/message.hpp:82-89 | a message without a trailer is not valid |
| `Fix.TrailerIs` | include/fix/message.hpp:83-84 | the trailer is byte 1 and then 10= |
| `Fix.TamperDetected` | include/fix/message.hpp:82-89 | changing any one byte before the SOH that precedes "10=" makes it fail |
| `Fix.SealedFind` | include/fix/message.hpp:82-89 | the last trailer match is the real one |
| `Json.FindValue` | include/mt5/protocol.hpp:66-86 | the scanning loop finds the value of the first true key position |
| `Json.KeyAtIff` | include/mt5/protocol.hpp:73-79 | on any text, a quoted name is a key exactly when a brace, a comma or the start precedes it and a colon follows, over spaces and tabs |
| `Json.ValueAfter` | include/mt5/protocol.hpp:80-82 | its value starts after the colon and any spaces and tabs |
| `Json.FirstKeyIsFirst` | include/mt5/protocol.hpp:66-86 | the first key of that name is taken |
| `Json.Escape` | include/mt5/protocol.hpp:94-104 | the loop computes the escaping |
| `Json.EscSplits` | include/mt5/protocol.hpp:97-101 | character by character, with these four escapes |
| `Json.EscPlain` | include/mt5/protocol.hpp:97-101 | every other character stands for itself |
| `Json.JsonGetStr` | include/mt5/protocol.hpp:108-127 | reads the string at the key; out is untouched unless the whole string is read |
| `Json.UnescapeCases` | include/mt5/protocol.hpp:113-126 | the closing quote, the known escapes, an unknown escape, a lone backslash and an unterminated string |
| `Json.UnescapeEsc` | include/mt5/protocol.hpp:94-127 | unescaping undoes escaping, up to the closing quote, for every string |
| `Json.EscShape` | include/mt5/protocol.hpp:94-104 | an escaped string has no newline and every quote in it follows a backslash |
| `JsonLine.NoKeyInside` | include/mt5/protocol.hpp:66-86 | inside a field no key matches but its own at its own place: not in an escaped value and not across its quotes |
| `JsonLine.FindsField` | include/mt5/protocol.hpp:66-86 | for any key on any line of fields, the scanner finds the first field with that key or none |
| `JsonLine.GetsText` | include/mt5/protocol.hpp:108-127 | a string value comes back exactly |
| `JsonLine.GetsInt` | include/mt5/protocol.hpp:128-137 | an integer comes back, saturated to 64 bits |
| `JsonLine.GetsBool` | include/mt5/protocol.hpp:148-154 | a boolean comes back |
| `JsonLine.BoolCases` | include/mt5/protocol.hpp:148-154 | on any text, true and false by their literals alone |
| `JsonLine.LineIsOneLine` | include/mt5/protocol.hpp:172-212 | a line's only newline is its last character |
| `Mt5.EncodeOrder` | include/mt5/protocol.hpp:196-205 | the concatenation is the line of the order's fields |
| `Mt5.OrderLine` | include/mt5/protocol.hpp:196-205 | the line character by character |
| `Mt5.EncodeAck` | include/mt5/protocol.hpp:206-212 | the concatenation is the line of the ack's fields |
| `Mt5.AckLine` | include/mt5/protocol.hpp:206-212 | the line character by character |
| `Mt5.KindsRead` | include/mt5/protocol.hpp:156-170 | the type a receiver dispatches on is order or ack, and the version 1 |
| `Mt5.ParseOrderIs` | include/mt5/protocol.hpp:252-264 | on any line: accepted exactly with id, symbol and a non-empty side; absent optional fields keep what was there |
| `Mt5.ParseAckIs` | include/mt5/protocol.hpp:265-273 | on any line: accepted exactly with an id; absent fields keep what was there, the retcode cut to 32 bits |
| `Mt5.OrderRoundTrip` | include/mt5/protocol.hpp:196-265 | parsing an encoded order gives it back for all string contents, with the id saturated at 2^63 - 1 and any side but Buy read as Sell |
| `Mt5.OrderReturnsIff` | include/mt5/protocol.hpp:196-265 | the very order comes back if and only if its id is below 2^63 and it has a side |
| `Mt5.AckReturnsIff` | include/mt5/protocol.hpp:206-273 | the very ack comes back if and only if its id is below 2^63 |
| `Mt5.EncodedOnOneLine` | include/mt5/protocol.hpp:196-212 | encoded orders and acks are single lines |
| `Depth.AppendRows` | include/mt5/protocol.hpp:227-230 | the row loop appends the bracketed, comma-separated pairs |
| `Depth.LadderTextIs` | include/mt5/protocol.hpp:225-236 | the ladder text row by row |
| `Depth.EncodeDepth` | include/mt5/protocol.hpp:222-238 | the assembled string is the line of the depth fields |
| `Depth.DepthLine` | include/mt5/protocol.hpp:222-238 | the line character by character |
| `Depth.DepthKindRead` | include/mt5/protocol.hpp:156-170 | the type read is depth, and the version 1 |
| `Depth.ParseLevels` | include/mt5/protocol.hpp:276-299 | the nested bracket-scanning loops end on every text and read the ladder, or the rows before a malformed pair |
| `Depth.ReadRowsCases` | include/mt5/protocol.hpp:282-287 | what ends the scan, well or badly, and what it skips |
| `Depth.LevelsCases` | include/mt5/protocol.hpp:276-281 | a value that is no bracket leaves the ladder as it was |
| `Depth.ParseDepthIs` | include/mt5/protocol.hpp:301-308 | only the symbol is required; a missing ladder keeps what was there |
| `Depth.RowsRead` | include/mt5/protocol.hpp:276-299 | the reader undoes the row loop, whatever follows the ladder |
| `Depth.DepthRoundTrip` | include/mt5/protocol.hpp:222-308 | parse_depth of encode_depth returns the symbol and both ladders, for every string, 64-bit prices and 32-bit quantities, empty ladders included |
| `Depth.DepthOnOneLine` | include/mt5/protocol.hpp:222-238 | an encoded snapshot is a single line |
| `Replay.ReplayBytes` | include/feed/pipeline.hpp:20-28 | on a byte stream: the orders are the old ones with every decoded message applied in order, and the count is theirs |
| `Replay.PipelinedReplay` | include/feed/pipeline.hpp:39-70 | for every byte stream, starting book and schedule, the pipelined replay ends with the orders and count of the single-threaded one |
| `Replay.PipelinedReturns` | include/feed/pipeline.hpp:39-70 | and under every weakly fair schedule it does end |
| `Replay.TransportsAgree` | include/feed/moldudp64.hpp:13-19 | the same feed by file and by datagram replays to the book of the messages that were laid out |
| `Replay.BookOfLocate` | include/book/book_set.hpp:13-20 | the book a set keeps for a locate is the book of that locate's messages |
| `Replay.ShardedReplay` | include/feed/sharded_pipeline.hpp:17-28 | for every byte stream, worker count and schedule, every instrument ends with the orders its own messages leave |
| `Replay.SyntheticQuotes` | include/feed/synthetic.hpp:262-267 | generate from any random stream, cut at any byte, deframe, decode and replay into a book over any store: the quotes are those of the messages read, and best bid < best ask whenever both exist |

## Left out

- The C++ memory model: atomics are sequentially consistent steps; acquire and release strength, cache-line padding, `cpu_relax` and thread pinning are not modelled.
- Unfair scheduling: termination is proved under weak fairness; under an unfair scheduler only that the end stays reachable and that successful steps are bounded.
- `head & mask_` is written `head % cap`, which is the same number for the power-of-two capacities the constructor makes.
- `slots_` of the ring and of the window, and the pool's vectors, are sequence-valued fields that methods reassign; aliasing of references across a growing pool is not modelled.
- ObjectPool.ObjectPool.Alloc: does not model the truncation of a handle to 32 bits, which matters only past 2^32 orders live at once.
- `std::unordered_map` iteration order: the loops that depend on it are modelled with an arbitrary order.
- Floating point: doubles in the MT5 codec are kept as the decimal text they are written as; `%.10g`, `strtod`, `book/metrics.hpp` and the VWAP of `book/tape.hpp` are out.
- parse_order, parse_ack and parse_depth are modelled as functions of the line and of what the output held before; the partly filled output after a failed parse is not modelled.
- Books inside `BookSet`, `Pipeline` and `Sharded` are values of an arbitrary type with an arbitrary apply; moving them between sets is copying.
- Book lookup by symbol, `total_orders` and the counters of `BookSet` beyond apply and merge: easy members.
- OrderBook.Book.AddOrder: like ReplaceOrder, ApplyMessage, Replay and what is built on them, assumes the promises above; behaviour after a live reference is re-added, a negative price or a level total past 2^32 is not modelled beyond `Orders.AddMirrorsIffFresh`.
- OrderBook.Book.InvariantOk: assumes per-level sums below 2^32, so the wrapped totals of the rebuild are not modelled.
- WindowedLevels.WindowedLevels.IncLevel: like PlaceInWindow, assumes a non-negative price and a total below 2^32; RecenterTo is a private helper, modelled for the arguments inc() passes.
- Synthetic.MakeSyntheticBook: covers up to 4,293,966 messages, beyond which the 32-bit price field could wrap; the random source is an arbitrary stream of numbers, not `mt19937`.
- Replay.SyntheticQuotes: covers up to 1,684,961 messages, while 2549 shares a message cannot fill a 32-bit level total.
- The other two feed generators: only the message layouts they share are modelled.
- MT5 hello, subscribe, tick, heartbeat, nop, bye and signal messages and `kind_of`: the same line format with fewer fields.
- `atoi` outside the range of int, which the language leaves undefined, is read as the 64-bit saturated value.
- FIX order-entry builders and lookups over parsed fields: easy members over `Fix.Encode` and `Fix.Parse`.
- Sockets, UDP, WebSocket, SHA-1 and base64, latency histograms, the tape, applications, benchmarks, the fuzz harness and the Expert Advisor.
