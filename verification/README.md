# A verified model of the market-data engine

This project models the engine's hard core in Dafny and proves what the code and its documentation promise, for
every input and every run. Six parts are modelled, and they compose:

- **Order book** (`BookSpec`, `BookState`, `OrderPool`, `OrderBook`, `BookLaws`, `BookEffects`, `BookCounters`,
  `Ladder`, `RescanWork`). `BookSpec` says what a book is: a map of live orders, one FIFO queue of refs per price
  level, the side that owns each level and the two cached best indices. The class `OrderBook` does what the code does,
  with intrusive prev/next lists, a hash index from ref to node, a free-list pool grown in chunks and rescan loops, and
  every method is proved to do to the abstract book exactly what `BookSpec` says. A node pointer is an address in the
  pool's memory, which is its chunks end to end.
- **Recovery of a numbered feed** (`Sequencer`, `Recovery`, `Delivery`, `Pipeline`). The sequencer and the consumer's
  handle step, over arbitrary arrival orders with duplicates, losses and overflows; and the producer's hold-back.
- **The ring and the channel** (`SpscRing`). The two threads' atomic steps interleaved in any way, loads possibly
  stale, counters wrapping at 2^64; and push and pop as one thread runs them.
- **Recovery of a depth feed** (`DepthResync`, `DepthConsumer`). Seeking and streaming over ranges of update ids, with
  absolute level sets, failed fetches and new snapshots at any point.
- **The latency histogram** (`Histogram`). Bucket arithmetic in 64 bits, recording, and percentile queries.
- **The wire** (`Wire`, `Layouts`, `Framing`, `Generator`; `Engine` puts file, producer, ring, sequencer and book
  together). Big-endian fields, encoders, parser, framing, file reader, and the generator with its random draws
  nondeterministic.

`dafny verify dfyconfig.toml` checks everything.

## What the main results are

- *Heap refinement.* `OrderBooks.OrderBook.Valid` says that the linked lists, the index, the counters and the pool
  represent an abstract book; `Apply`, `Reset` and the reads are proved against it for every event.
- *What each event does.* For every kind of event and any size, the orders, the queues, the owners, the level totals and
  the best prices afterwards are stated without the steps that lead there (`BookEffects`); and over any run every
  statistic is the number of the events it is meant to count (`BookCounters.StatisticsExact`).
- *Best prices.* The cached indices are the true extremes after an event **if and only if** the event is not a
  `Hazard` (`BookLaws.BestExact`): an add that joins a level of the other side and improves on it, or the removal of
  the last order of a best level that its order's side does not own. Both hazards are reachable
  (`BookLaws.AddHazardReached`, `RemoveHazardReached`). Over a run the indices are right all along if and only if no
  event of it is a hazard (`BookLaws.BestRunExact`). Runs that keep each level to one side meet none
  (`BookLaws.BestAlways`), and the generator's runs are such runs. For level-by-level feeds it is unconditional.
- *First come, first served.* Along every queue of every run the events that made the orders rest rise strictly
  (`BookLaws.FirstInFirstOut`).
- *Rescan work.* Every method of the book says what its rescans cost. Over any run the slots inspected, the rescans
  that found nothing, what resets dropped and where the best price stands add up **exactly** to what it climbed
  (`RescanWork.RescanAccount`, `LevelRescanAccount`).
- *Whole-run recovery.* `Recovery.RunOk`: over any arrivals the applied numbers strictly increase and every published
  book is the replay of a contiguous stretch of the stream. What an overflow loses is stated (`OverflowLoses`), and
  every arrival is accounted for (`ArrivalsConserved`). Every counter is a number of arrivals told by the state they
  meet (`CountersExact`), and a book is marked stale exactly when something waits behind it (`StaleMarks`).
- *Lossless reordering is invisible*, and a file with or without an injected gap, and with frames that do not parse, is
  absorbed **if and only if** the messages that overtake the held one fit the buffer, and those behind the first frame
  that does not parse do (`Delivery.GapInjection`).
- *Ring safety* under every interleaving (`SpscRings.Always`, `NoCollision`), and wrap-around changes no decision. An
  item is dropped exactly when a send under DropNew finds the ring full, and is then never published (`DropsExact`,
  `FullRing`).
- *Depth recovery.* Over any run of any events the ladder is exact at every event boundary **if and only if** all that
  was taken up of the events was true (`DepthResync.RunExact`). For a truthful feed whose new snapshots date from
  outside the ids of the event that triggered them, that is so **if and only if** no event that reaches the book sets a
  size to zero where, in the band, the other side stands (`DepthResync.RecoveryExact`); and then the real book's levels
  and best prices are the exchange's (`DepthConsumers.DepthConsumer.Follow`). By ids alone it is said what every event
  leads to, a new snapshot being asked for exactly when ids are missing (`EventByIds`); and from wherever a run has got
  to, one successful fetch and an unbroken stretch bring it back to streaming (`CatchesUp`, `CaughtUpExact`).
- *Percentiles.* The value reported for a rank is the highest equivalent of that rank's sample, less than one part in
  10^figures too high.
- *The parser* agrees, on every sequence of bytes, with a reader that knows only the parts of each message and their
  widths (`Layouts.ParseReads`): every offset, length, kind and error case follows.
- *The generated file* reads back as the messages sent, cut anywhere it reads back as the messages complete before the
  cut, and replaying it gives no unknown ref, no rejected price, and a book that is never crossed.
- *End to end* (`Engine.EndToEnd`). For every schedule of the two threads on the ring, under either policy, with or
  without a gap injected, the consumer is where the recovery theorems say; and under Block, once the producer is done
  and the ring empty, its book holds exactly the generator's live orders.

## Where the code and its documentation differ

The model follows the code in each case.

- `src/sequencer.cpp:34` says a duplicate future number overwrites the buffered event; `emplace` keeps the first. The
  capacity test at lines 29-33 runs before any duplicate test, so a duplicate overflows the buffer exactly when it is
  full, and otherwise changes nothing (`Recovery.DuplicateBuffered`; a run: `DuplicateOverflows`).
- `include/feedhandler/order_book.hpp:49-50` calls delete O(1) amortised. For every n and k, 2k events make the rescans
  of k deletes inspect k * n slots (`RescanWork.SeesawCost`), so no constant bounds the slots per event
  (`NotAmortisedConstant`). The exact account is `RescanWork.RescanAccount`.
- `include/feedhandler/sequencer.hpp:43-44` asks the consumer not to publish while stale. It publishes a book marked
  stale exactly when a message is the one an already stale feed was waiting for (`Recovery.PublishesWhileStale`; a run:
  `StaleBookPublished`). Each book published is still a contiguous, in-order state.
- `src/pipeline.cpp:128-133` calls an overflow a snapshot reload; it empties the book and rebuilds from the number that
  overflowed alone (`Recovery.OverflowStartsOver`). No number between the one then expected and that one is applied in
  any continuation (`OverflowLoses`; a number that arrives twice and is lost: `ReceivedAndLost`).
- `apps/live_feed.cpp:954-967`: a new snapshot skips the message that triggered it. When its id falls inside that
  event, the rest of the event is applied without the skipped levels (`DepthResync.TornEvent`).
- `src/order_book.cpp:262-275`: a zero size removes the level whichever side owns it, so an event that turns an ask into
  a bid at one price loses the level (`DepthResync.AskTurnsBid`).

## Model

| member | source | states |
|---|---|---|
| BookSpec.TickFlooring | src/order_book.cpp:61-68 | to_price(to_index(p)) is p floored to the grid, every slot is the slot of its own price, and the band's slots run from 0 to the last level |
| BookSpec.Normalise | src/order_book.cpp:48-52 | a valid configuration is kept, and of an invalid one only what makes it so is changed |
| BookSpec.WithoutSplit | src/order_book.cpp:81-92 | taking an order out of a queue leaves all others in their places and order |
| BookSpec.ApplyWellFormed | src/order_book.cpp:192-251 | every event keeps queues, orders, levels and sides consistent: each live ref in exactly one queue, once |
| BookLaws.OnGridAlways | src/order_book.cpp:117-149 | over any run every order rests at the slot of its price |
| BookLaws.TimePriority | src/order_book.cpp:192-251 | no event lets one resting order overtake another at its level |
| BookLaws.FirstInFirstOut | src/order_book.cpp:70-92 | over any run, along every queue, the event that last made each order rest (an add, or a replacement) comes strictly after that of the order in front |
| BookLaws.ReplaceLosesPriority | src/order_book.cpp:224-237 | a replaced order keeps its side, takes the new price and size and goes to the back of its new level; its old level loses its place only; every other order and queue is unchanged |
| BookLaws.ReduceAdds | src/order_book.cpp:175-180 | two partial reductions equal one of their sum, also when the order is used up |
| BookLaws.AggregatesAlways | include/feedhandler/order_book.hpp:110-116 | over any run every order's size fits 32 bits, and the aggregate of every level whose count does fits 64 |
| BookLaws.BestExact | src/order_book.cpp:135-173 | after an event the cached best prices are true exactly when it was no hazard, as read off the book before it |
| BookLaws.BestRunExact | src/order_book.cpp:94-173 | over any run the cached best prices are true at every moment exactly when no event of it is a hazard |
| BookLaws.AddHazardReached | src/order_book.cpp:135-148 | a two-event run whose second event, a bid joining an ask's level, makes the best bid wrong |
| BookLaws.RemoveHazardReached | src/order_book.cpp:151-173 | a run that ends right, whose next delete leaves the best bid at an empty level |
| BookLaws.UniformStep | src/order_book.cpp:135-173 | an event that lands on an empty level or its own side keeps levels one-sided and is no hazard |
| BookLaws.BestAlways | src/order_book.cpp:94-173 | over any run that keeps levels one-sided, best bid and ask are the extreme populated levels of their sides |
| BookLaws.AddThenDelete | src/order_book.cpp:117-173 | deleting an order just added restores the whole book exactly when the add was no hazard |
| BookEffects.Addition | src/order_book.cpp:117-149 | an add of a new ref within the band joins the back of its price's level, claims an empty level, adds its size to the total and is the best if better; any other add changes nothing |
| BookEffects.Reduction | src/order_book.cpp:175-213 | a cancel or an execution of either kind takes the smaller of its size and the order's from the order and from the level's total; the order goes exactly when nothing is left; every other order, queue and owner is unchanged |
| BookEffects.Deletion | src/order_book.cpp:216-222 | a delete takes out the order with its place and its size, and nothing else |
| BookEffects.RemoveTakesOut | src/order_book.cpp:151-173 | after a removal the best prices are what they were, or, when the best level has emptied, the next level of that side |
| BookEffects.ReplaceIsDeleteThenAdd | src/order_book.cpp:224-237 | a replace is a delete and then an add with the old order's side, whether or not the add is accepted |
| BookEffects.Ignored | src/order_book.cpp:192-251 | an event for a ref the book does not have, or not about orders, leaves the book as it is |
| BookEffects.CrossedMeaning | src/order_book.cpp:339-341 | with right best prices the book is crossed exactly when some bid level is at or above some ask level |
| BookCounters.StatisticsExact | src/order_book.cpp:182-251 | over any run each statistic is the number of its events, told by kind, fields and the book they meet or leave |
| Ladders.BestOkMeaning | src/order_book.cpp:304-314 | what true best indices mean: the extreme populated level of the side, or -1 for an empty side |
| Ladders.StoredBest | src/order_book.cpp:253-302 | a level set of any side on any level leaves true best indices true |
| Ladders.BidDepthExact | src/order_book.cpp:316-325 | entry k of the bid listing is the bid level with exactly k better ones; its length is min(n, levels); entry 0 is the best |
| Ladders.AskDepthExact | src/order_book.cpp:327-337 | the same for asks, from the lowest price up |
| Ladders.RankOrders | src/order_book.cpp:316-337 | levels with more better ones are strictly worse, so listings are strictly ordered |
| RescanWork.SlotsDownIs | src/order_book.cpp:94-103 | a downward rescan inspects exactly the slots from its start to the level it finds, or to the bottom |
| RescanWork.SlotsUpIs | src/order_book.cpp:105-115 | an upward rescan likewise, to the level it finds or the top |
| RescanWork.EventBalanced | src/order_book.cpp:192-251 | every event keeps the account of rescan work balanced against the best prices |
| RescanWork.RescanAccount | src/order_book.cpp:94-173 | over any run of events and resets: climbed = scanned + rescans that found nothing + dropped by resets + standing, on either side, so scanned <= climbed |
| RescanWork.LevelRescanAccount | src/order_book.cpp:253-302 | the same over any run of level sets and resets |
| RescanWork.SeesawCost | src/order_book.cpp:151-173 | for every n and k, 2k events whose rescans inspect k * n slots |
| RescanWork.NotAmortisedConstant | include/feedhandler/order_book.hpp:49-50 | no constant bounds the slots inspected per event |
| OrderPools.OrderPool.Grow | src/order_book.cpp:12-20 | one chunk more, all of it free, and no existing node moved or changed |
| OrderPools.OrderPool.Alloc | src/order_book.cpp:22-27 | hands out the free list's head, growing only when it is empty; the node is no longer free |
| OrderPools.OrderPool.Release | src/order_book.cpp:29-32 | the node becomes the head of the free list and nothing else changes |
| OrderPools.OrderPool.ResetAll | src/order_book.cpp:34-43 | afterwards the free list is exactly all nodes, each once |
| BookState.LinkedBackOk | src/order_book.cpp:70-79 | linking at the back appends to the list and touches no node off it |
| BookState.UnlinkedOk | src/order_book.cpp:81-92 | unlinking removes exactly that place from the list, whichever ends it was at |
| BookState.Inserted | src/order_book.cpp:127-142 | a state with one more linked node represents the book with one more order |
| BookState.Removed | src/order_book.cpp:156-166 | a state with one node unlinked and freed represents the book without the order |
| BookState.DetachedNode | src/order_book.cpp:156-166 | a live node is in its level's list and off the free list, and alone on a level it is the whole aggregate, so zeroing it again changes nothing |
| BookState.Shrunk | src/order_book.cpp:175-178 | reducing a node and its level's aggregate by the same amount represents the reduced order |
| OrderBooks.OrderBook.constructor | src/order_book.cpp:48-57 | the configuration is normalised and the new book represents the empty one |
| OrderBooks.OrderBook.LinkBack | src/order_book.cpp:70-79 | the list splice at the back |
| OrderBooks.OrderBook.Unlink | src/order_book.cpp:81-92 | the list splice that takes a node out |
| OrderBooks.OrderBook.RescanBestBidFrom | src/order_book.cpp:94-103 | finds the highest bid level at or below the start, or -1, and its work grows by exactly the slots inspected |
| OrderBooks.OrderBook.RescanBestAskFrom | src/order_book.cpp:105-115 | finds the lowest ask level at or above the start, or -1, and its work grows by exactly the slots inspected |
| OrderBooks.OrderBook.OnAdd | src/order_book.cpp:117-149 | does to the abstract book what an add does, counts an out-of-band price, and accounts for what the best price climbs |
| OrderBooks.OrderBook.RemoveOrder | src/order_book.cpp:151-173 | removes the order from list, index, counters and pool, and repairs the best price at exactly the work of the abstract removal |
| OrderBooks.OrderBook.ReduceOrder | src/order_book.cpp:175-180 | reduces the order, and removes it when nothing is left |
| OrderBooks.OrderBook.Apply | src/order_book.cpp:192-251 | for every event the heap represents the abstract book after the event, every counter is as the event demands, and the rescan work is the event's |
| OrderBooks.OrderBook.PoolSplit | src/order_book.cpp:12-43 | free nodes and live orders' nodes split the pool exactly: free + live_orders = chunks x chunk size, free list acyclic |
| OrderBooks.Follow | src/order_book.cpp:48-357 | the real book driven through any events and resets has the abstract run's contents and rescan work, balanced |
| OrderBooks.FollowLevels | src/order_book.cpp:253-302 | the same through any level sets and resets |
| OrderBooks.LevelIdxExact | src/order_book.cpp:127-133 | a node's 32-bit level index is its level's for every level of a band exactly when the band has at most 2^32 levels |
| OrderBooks.OrderBook.OneList | include/feedhandler/order_book.hpp:100-116 | a live order's node is on its own level's list and on no other |
| OrderBooks.OrderBook.LevelMeaning | include/feedhandler/order_book.hpp:110-116 | a level's count and aggregate are the length and sum of its list, whose prev and next are mutually inverse from head to tail |
| OrderBooks.OrderBook.Reset | src/order_book.cpp:348-357 | afterwards the book is as new but for its stats and its chunks, all of which are free |
| OrderBooks.OrderBook.SetLevel | src/order_book.cpp:253-302 | sets or removes the one quote of a level, keeps best prices true and counters right |
| OrderBooks.OrderBook.ObserveEventBoundary | src/order_book.cpp:186-190 | counts an event boundary that finds the book newly crossed |
| OrderBooks.OrderBook.BestReported | src/order_book.cpp:304-314 | while the cached indices are right, the best prices reported are the true ones with their level's total and count |
| OrderBooks.OrderBook.LadderReported | src/order_book.cpp:304-314 | fed level by level, the best prices reported are always the true ones |
| OrderBooks.OrderBook.RowReported | src/order_book.cpp:304-337 | a row reports the slot's price, and the total and number of the orders queued there |
| OrderBooks.OrderBook.QuoteReported | src/order_book.cpp:304-337 | fed level by level, a row reports the slot's price and its quote's size, as one order |
| OrderBooks.OrderBook.CrossedReported | src/order_book.cpp:339-341 | crossed means that the best bid reported is at or above the best ask reported, right or not |
| OrderBooks.OrderBook.LadderCrossing | src/order_book.cpp:339-341 | fed level by level, crossed means that some bid stands at or above some ask |
| OrderBooks.OrderBook.DepthBids | src/order_book.cpp:316-325 | fills the listing that BidDepthExact describes and nothing after it |
| OrderBooks.OrderBook.DepthAsks | src/order_book.cpp:327-337 | fills the listing that AskDepthExact describes and nothing after it |
| Sequencers.Sequencer.TryOffer | src/sequencer.cpp:9-36 | the four dispositions and the whole new state, exactly when an offer overflows and asks for a snapshot, and exactly when it is absorbed as a repeat |
| Sequencers.Sequencer.TryPop | src/sequencer.cpp:38-52 | releases the expected number if it is buffered, and clears stale when the buffer is empty |
| Sequencers.Sequencer.ResyncToSnapshot | src/sequencer.cpp:54-60 | drops what is buffered and expects the number after the snapshot |
| Recovery.Drained | src/pipeline.cpp:124-126 | draining applies buffered numbers in turn until the next one is missing |
| Recovery.Handled | src/pipeline.cpp:120-134 | one message, of any number, keeps every invariant of the feed and does the bookkeeping its case demands |
| Recovery.RunOk | src/pipeline.cpp:115-134 | over any arrivals: the book is stream[base..expected) replayed in order, applied numbers strictly increase, every published book is such a contiguous state, what has arrived since the start or the last overflow is applied or buffered, stale iff something waits |
| Recovery.PublishesWhileStale | src/pipeline.cpp:115-134 | a message makes the consumer publish a book marked stale exactly when it is the number an already stale feed expects |
| Recovery.StaleMarks | src/pipeline.cpp:115-127 | each book that a message in turn makes the consumer publish is marked stale exactly when something is still buffered behind its number |
| Recovery.StaleBookPublished | src/pipeline.cpp:115-134 | a two-message run that publishes a stale book |
| Recovery.DuplicateBuffered | src/sequencer.cpp:27-35 | a buffered number offered again overflows exactly when the buffer is full, and otherwise changes nothing, whatever event it carries |
| Recovery.DuplicateOverflows | src/sequencer.cpp:27-35 | a run where the second copy of one early number makes the consumer start over |
| Recovery.OverflowStartsOver | src/pipeline.cpp:128-133 | an overflow at n leaves the book of n alone, an empty buffer and one more publication |
| Recovery.OverflowLoses | src/pipeline.cpp:128-133 | after an overflow at n, no number from the one then expected up to n - 1 is applied in any continuation |
| Recovery.ReceivedAndLost | src/pipeline.cpp:120-134 | a run where a number arrives twice and is never applied |
| Recovery.ArrivalsConserved | src/sequencer.cpp:9-60 | over any run: arrivals = accepted + duplicates + overflowed + buffered + repeats of buffered numbers + discarded by overflows |
| Recovery.CountersExact | src/sequencer.cpp:9-60 | over any run: duplicates, gap_episodes, missing_total, reorder_overflow and snapshot_recoveries are the numbers of the arrivals that were old, opened a gap (and what they skip), or met a full buffer; accepted is what came in turn plus buffered_released; every publication is an acceptance or a recovery |
| Recovery.ReplayIsRun | src/pipeline.cpp:115-118 | replaying a stretch of the stream is the plain run of its events on a new book |
| Recovery.PublishedLaws | src/pipeline.cpp:115-118 | every published book keeps its orders on the grid and in width, and has right best prices if its stretch of the stream keeps levels to one side |
| Delivery.LosslessState | src/sequencer.cpp:9-60 | the sequencer never overflows exactly when the arrivals are lossless, and then expected is the least number not received and the buffer the received numbers above it |
| Delivery.ReorderingInvisible | src/sequencer.cpp:9-52 | lossless arrivals covering start..n end with the clean run's book, not stale, each event applied once in order |
| Delivery.PermanentGap | src/pipeline.cpp:70-73 | a number that never arrives holds expected back for good, short of an overflow |
| Delivery.Produce | src/pipeline.cpp:62-97 | the producer's loop sends what the hold-back of the parsed frames says |
| Delivery.DeliveredKeeps | src/pipeline.cpp:79-97 | holding back loses and invents nothing, and every message carries its own frame's event |
| Delivery.DeliveredOrder | src/pipeline.cpp:79-97 | the order in which messages leave the producer, whatever parses and whatever the injection setting: that of the frames, but for the held one, which goes right behind those that overtake it |
| Delivery.PeakExact | src/sequencer.cpp:9-38 | different numbers are lossless exactly when at every moment those that wait for the least missing one fit the buffer |
| Delivery.GapExact | src/pipeline.cpp:79-97 | for any frames and injection setting, the order is lossless exactly when what overtakes the held frame, and what lies behind the first frame that does not parse, are each at most the buffer's capacity |
| Delivery.AllParse | src/pipeline.cpp:79-97 | when every frame parses, none lies behind a lost one and min(distance, frames after it) overtake the held frame, or none without injection |
| Delivery.GapInjection | src/pipeline.cpp:68-134 | from frames to book, for any frames and every injection setting: no overflow exactly when all that waits fits; then the clean run's book and publications of every frame before the first that does not parse, stale exactly when frames behind it arrived |
| Pipeline.Consumer.HandleMsg | src/pipeline.cpp:120-134 | the consumer's handle, on the real book and sequencer, does the model's step |
| Pipeline.Consumer.DrainReady | src/pipeline.cpp:125-126 | the drain loop does the model's drain |
| Pipeline.Consumer.Consume | src/pipeline.cpp:115-134 | a whole run leaves the consumer where the model run is, with all its invariants |
| SpscRings.IndexStep | include/feedhandler/spsc_ring_buffer.hpp:43-66 | every atomic step, with any stale load, keeps cached_head <= head <= cached_tail <= tail <= cached_head + capacity |
| SpscRings.DataStep | include/feedhandler/spsc_ring_buffer.hpp:43-66 | every atomic step keeps consumed ++ in-flight slots = pushed |
| SpscRings.ChannelStep | include/feedhandler/spsc_ring_buffer.hpp:104-117 | every atomic step keeps offered = accepted + dropped (+ one in hand), accepted an ordered subsequence of offered, and under Block nothing dropped |
| SpscRings.Always | include/feedhandler/spsc_ring_buffer.hpp:43-117 | all three invariants hold after every possible interleaving |
| SpscRings.DropsExact | include/feedhandler/spsc_ring_buffer.hpp:104-117 | over every possible schedule dropped is, under DropNew, the number of times a send found the ring full, and under Block zero |
| SpscRings.FullRing | include/feedhandler/spsc_ring_buffer.hpp:104-117 | a send that finds the ring full really met a full ring at its load; under DropNew its offer is given up and in no continuation published, under Block it stays in hand; nothing else changes |
| SpscRings.NoCollision | include/feedhandler/spsc_ring_buffer.hpp:50-63 | the slot being written is never the slot being read |
| SpscRings.ProducerUnwrapped | include/feedhandler/spsc_ring_buffer.hpp:44-51 | with counters that wrap at 2^64 the producer's next step and slot are those of counters that never wrap |
| SpscRings.ConsumerUnwrapped | include/feedhandler/spsc_ring_buffer.hpp:57-64 | the same for the consumer |
| SpscRings.GivesUpTruly | include/feedhandler/spsc_ring_buffer.hpp:45-62 | with fresh loads a push gives up exactly when the ring is full and a pop exactly when it is empty |
| SpscRings.SpscRing.Push | include/feedhandler/spsc_ring_buffer.hpp:43-53 | appends the item exactly when fewer than capacity are in flight |
| SpscRings.SpscRing.Pop | include/feedhandler/spsc_ring_buffer.hpp:56-66 | returns the oldest item in flight, or nothing exactly when there is none |
| DepthResync.PutAllAt | src/order_book.cpp:253-302 | of any list of level sets only the last at a price counts |
| DepthResync.ZeroRemovesEitherSide | apps/live_feed.cpp:747-779 | a truthful event, bids sent before asks, leaves every price of the band it touches true exactly when no zero size in the band meets the other side |
| DepthResync.SnapshotMirrors | apps/live_feed.cpp:872-874 | a snapshot loaded into an empty book shows the exchange's book in the band exactly when it lists what stands in the band and nothing else there |
| DepthResync.EventExact | apps/live_feed.cpp:936-975 | from an exact boundary, any event leaves an exact book exactly when what was taken up of it - all, nothing, or the rest after a snapshot in its middle - covers what changed and sets it as the exchange has it |
| DepthResync.OutsideEvent | apps/live_feed.cpp:936-975 | without a snapshot from inside its ids, a truthful event is taken up whole or not at all, and truly exactly when, if it reaches the book, no zero of it in the band meets the other side |
| DepthResync.RunExact | apps/live_feed.cpp:859-975 | over any run of any events - straddling, old, repeated, reordered or missing, with failed fetches - every boundary is exact exactly when all that was taken up was true |
| DepthResync.RecoveryExact | apps/live_feed.cpp:859-975 | for a truthful feed whose mid-event snapshots date from outside their event: at every boundary the band shows the exchange at the snapshot id while seeking and at prev_u while streaming, exactly when no applied zero in the band meets the other side |
| DepthResync.UnbrokenStreams | apps/live_feed.cpp:942-970 | a feed without a break is followed to its end with no gap and no new snapshot |
| DepthResync.EventByIds | apps/live_feed.cpp:936-975 | what any whole event leads to, from any state, by ids alone: more of the current event, old, joined up, or a new snapshot asked for, exactly when ids are missing; and what the fetch then makes of the ladder |
| DepthResync.UnbrokenFrom | apps/live_feed.cpp:942-970 | the same from any tracker that is seeking, wherever a run has got to |
| DepthResync.CatchesUp | apps/live_feed.cpp:859-975 | from any boundary, an event that leaves ids missing, whose fetch succeeds, and an unbroken stretch from the snapshot on, end in streaming at the last id after exactly one new snapshot |
| DepthResync.CaughtUpExact | apps/live_feed.cpp:859-975 | and on a truthful feed the band then shows the exchange at that id |
| DepthResync.ObservedOnce | apps/live_feed.cpp:936-941 | an event that leaves no ids missing has the book observed once, as the event before it left it, if that was applied; never in its middle |
| DepthResync.MirrorsCrossed | apps/live_feed.cpp:936-941 | a ladder that mirrors the exchange is crossed exactly when the exchange is, in the band |
| DepthResync.NoFalseAlarm | apps/live_feed.cpp:859-976 | while the ladder is exact at every boundary, an exchange that never crosses is never counted as crossed |
| DepthResync.TornEvent | apps/live_feed.cpp:954-967 | a run from the first snapshot on, where all of RecoveryExact holds but that a snapshot dates from inside its event: exact before, and afterwards one level lost |
| DepthResync.AskTurnsBid | src/order_book.cpp:262-275 | a run from the first snapshot on, with all hypotheses of RecoveryExact, where an event turns an ask into a bid and the level is lost |
| DepthResync.FeedFlat | apps/live_feed.cpp:933-976 | feeding the messages one after the other is feeding the events one after the other |
| DepthConsumers.DepthConsumer.constructor | apps/live_feed.cpp:836-857 | the consumer starts seeking on the first snapshot's book |
| DepthConsumers.DepthConsumer.ReSnapshot | apps/live_feed.cpp:859-880 | a fetch that succeeds replaces the book, observes it and seeks; one that fails changes only the retry flag and the count |
| DepthConsumers.DepthConsumer.StartEvent | apps/live_feed.cpp:942-970 | observes the boundary after an applied event, and judges the next one by its ids: apply, skip, or lost, in either mode |
| DepthConsumers.DepthConsumer.Receive | apps/live_feed.cpp:936-975 | one message, on the real book, does the model's step, and observes the book exactly when the model says |
| DepthConsumers.DepthConsumer.Consume | apps/live_feed.cpp:933-976 | any run of messages leaves the consumer where the model run is |
| DepthConsumers.DepthConsumer.ShowsExchange | apps/live_feed.cpp:859-975 | when the ladder is exact, every level of the real book in the band and both best prices are the exchange's |
| DepthConsumers.DepthConsumer.Follow | apps/live_feed.cpp:859-976 | a whole run of true events and fetches, none dating from inside its event and no applied zero meeting the other side: every level of the real book in the band, and both best prices, are the exchange's at the base id; and if the exchange never crosses no crossing is counted |
| Histograms.HalfCount | include/feedhandler/instrumentation.hpp:102-110 | half the sub-buckets are the least power of two that is at least 10^figures |
| Histograms.SevenFiguresFit | include/feedhandler/instrumentation.hpp:102-116 | up to seven figures the indices fit 32-bit ints, whatever the highest value |
| Histograms.CeilLog2 | include/feedhandler/instrumentation.hpp:122-127 | the exponent of the next power of two |
| Histograms.BucketsNeeded | include/feedhandler/instrumentation.hpp:128-138 | the number of buckets that reaches the value, also at and above 2^63 |
| Histograms.LayoutTight | include/feedhandler/instrumentation.hpp:114-138 | the buckets are the fewest that reach the highest value, and the last counter is that of the last value they reach |
| Histograms.IndexMonotone | include/feedhandler/instrumentation.hpp:141-155 | a larger value is never counted at a smaller index |
| Histograms.IndexInRange | include/feedhandler/instrumentation.hpp:102-155 | every value up to the highest has a counter within counts_len |
| Histograms.ValueAtIndex | include/feedhandler/instrumentation.hpp:156-168 | value_from_index inverts the index computation at every index, without overflow |
| Histograms.RangeOf | include/feedhandler/instrumentation.hpp:169-178 | each value lies between its lowest and highest equivalents, although the 64-bit sum may wrap on the way |
| Histograms.SameRange | include/feedhandler/instrumentation.hpp:141-178 | two values share a counter exactly when one lies in the other's range |
| Histograms.RelativeError | include/feedhandler/instrumentation.hpp:172-178 | (highest equivalent - v) x half the sub-bucket count < v |
| Histograms.FiguresKept | include/feedhandler/instrumentation.hpp:102-178 | (highest equivalent - v) x 10^figures < v |
| Histograms.RankIndex | include/feedhandler/instrumentation.hpp:69-73 | the first index whose running count reaches t is the index of the t-th smallest sample |
| Histograms.RankExists | include/feedhandler/instrumentation.hpp:62-75 | every rank from 1 to the count has a sample |
| Histograms.RankMonotone | include/feedhandler/instrumentation.hpp:62-75 | a higher rank never has a smaller sample or report |
| Histograms.ReportMeaning | include/feedhandler/instrumentation.hpp:62-75 | the report is at least its sample and too high by less than one part in 10^figures |
| Histograms.LatencyHistogram.constructor | include/feedhandler/instrumentation.hpp:102-120 | an empty histogram of the layout the highest value and figures ask for |
| Histograms.LatencyHistogram.Record | include/feedhandler/instrumentation.hpp:50-58 | one more sample, clamped, in counters, total, sum, min and max |
| Histograms.LatencyHistogram.ValueAtRank | include/feedhandler/instrumentation.hpp:62-75 | the highest equivalent of the sample of the (clamped) rank, or 0 when empty |
| Histograms.LatencyHistogram.Reset | include/feedhandler/instrumentation.hpp:93-99 | no samples, every counter zero |
| Wire.LoadsAgree | include/feedhandler/detail/byte_read.hpp:16-45 | each load is the big-endian integer of its bytes and fits its width |
| Wire.LoadStored | include/feedhandler/detail/byte_read.hpp:20-82 | what is stored loads back, but for the bytes that do not fit |
| Wire.ParseEncode | src/itch_parser.cpp:65-144 | parsing what the generator encodes gives exactly the encoded fields, timestamps modulo 2^48, for every message, and for executions with a price |
| Layouts.ParseReads | src/itch_parser.cpp:37-144 | on every sequence of bytes the parser answers what a reader does that takes each message apart by the widths of its parts: the same fields, unread kinds as Unknown with their header, too short ones as ShortBuffer, other kinds as UnknownType |
| Wire.TrailingIgnored | src/itch_parser.cpp:65-144 | bytes after a parsed message make no difference |
| Wire.AttributionIgnored | src/itch_parser.cpp:79-88 | an add with attribution reads as the plain add it extends |
| Framing.CutStream | src/itch_file_source.cpp:49-62 | a stream cut at any byte reads as exactly the frames complete before the cut |
| Framing.FramesOfStream | src/itch_file_source.cpp:49-62 | reading inverts framing |
| Framing.ItchFileSource.NextFrame | src/itch_file_source.cpp:49-62 | hands out the next frame with the next number and advances past it, or changes nothing at the end |
| Framing.ReadAll | src/pipeline.cpp:67-73 | reading to the end terminates with every complete frame, in order, numbered from 1 and parsed |
| Framing.ByteAt | include/feedhandler/detail/byte_read.hpp:48-82 | the shifted and truncated bytes the stores write are the big-endian digits |
| Framing.StoreBe16 | include/feedhandler/detail/byte_read.hpp:48-52 | writes those two bytes and no other |
| Framing.StoreBe32 | include/feedhandler/detail/byte_read.hpp:54-60 | writes those four bytes and no other |
| Framing.StoreBe48 | include/feedhandler/detail/byte_read.hpp:62-70 | writes the six low bytes and no other |
| Framing.StoreBe64 | include/feedhandler/detail/byte_read.hpp:72-82 | writes those eight bytes and no other |
| Framing.ItchWriter.Emit | tools/itch_gen.cpp:58-76 | appends one frame of the buffer's first bytes to the stream |
| Framing.ItchWriter.EmitSystem | tools/itch_gen.cpp:110-123 | writes the encoding of the message; nothing an earlier message left in the buffer shows |
| Framing.ItchWriter.EmitAdd | tools/itch_gen.cpp:125-134 | the same for an add |
| Framing.ItchWriter.EmitExec | tools/itch_gen.cpp:135-142 | the same for an execution |
| Framing.ItchWriter.EmitCancel | tools/itch_gen.cpp:143-149 | the same for a cancel |
| Framing.ItchWriter.EmitDelete | tools/itch_gen.cpp:150-155 | the same for a delete |
| Framing.ItchWriter.EmitReplace | tools/itch_gen.cpp:156-164 | the same for a replace |
| Framing.ItchWriter.EmitTrade | tools/itch_gen.cpp:165-175 | the same for a trade |
| Framing.RoundTrip | src/itch_file_source.cpp:49-62 | any list of messages, framed, cut at any byte, read and parsed, gives the events of exactly the messages complete before the cut |
| Generators.NeverCrossed | tools/itch_gen.cpp:177-180 | a book whose bids rest below the mid and asks above it is not crossed |
| Generators.AddStep | tools/itch_gen.cpp:181-189 | an add does to the book what it does to the live vector, and lands on its own side |
| Generators.ReduceStep | tools/itch_gen.cpp:206-217 | so does an execution or a cancel, partial or full |
| Generators.DeleteStep | tools/itch_gen.cpp:218-221 | so does a delete with its swap-remove |
| Generators.ReplaceStep | tools/itch_gen.cpp:222-230 | so does a replace under a new ref |
| Generators.ReplayIsRun | src/order_book.cpp:192-251 | the replay of a generated feed is the plain run of its events on a default book |
| Generators.CrossedCounted | src/order_book.cpp:182-184 | the crossed counter stays zero exactly when no event left the book crossed |
| Generators.Generator.DoAdd | tools/itch_gen.cpp:181-189 | sends one add and keeps the feed good |
| Generators.Generator.DoReduce | tools/itch_gen.cpp:206-217 | sends one execution or cancel and keeps the feed good |
| Generators.Generator.DoDelete | tools/itch_gen.cpp:218-221 | sends one delete and keeps the feed good |
| Generators.Generator.DoReplace | tools/itch_gen.cpp:222-230 | sends one replace and keeps the feed good |
| Generators.Generator.EmitTrade | tools/itch_gen.cpp:165-175 | sends one trade, which the book ignores |
| Generators.Generator.Run | tools/itch_gen.cpp:195-236 | for all draws the loop ends after the messages asked for, between an opening and a closing message, with the feed good and the live vector within its bound, and every message fair and of the kind the vector's size forces |
| Generators.Generator.SendOne | tools/itch_gen.cpp:198-235 | one draw sends a message that takes no more than rests and brings only what does not: an add below eight live orders, an execution when the vector is full |
| Generators.StampMore | tools/itch_gen.cpp:105-175 | refs and match numbers are handed out one by one from 1, and every message is stamped 1 to 1000 ns after the one before |
| Generators.Generator.Generated | tools/itch_gen.cpp:177-236 | the file reads back as the messages sent; replayed, the book's orders are the live vector, with no unknown ref, no rejected price, and never a crossed book |
| Generators.PlayBack | src/order_book.cpp:192-251 | the real book fed those events ends in the book and counters of the replay |
| Engine.ReplaysAgree | src/pipeline.cpp:115-118 | replaying a stream by number and replaying its events in a list are the same |
| Engine.ThroughChannel | include/feedhandler/spsc_ring_buffer.hpp:104-117 | under any schedule what is popped was sent, in order; under Block it is a prefix, and everything once the producer is idle and the ring empty |
| Engine.AllArrived | src/pipeline.cpp:62-134 | with every message of a generated file in, and the buffer able to hold what overtakes a held frame: the book holds exactly the live orders, not stale, one publication per message, none crossed |
| Engine.EndToEnd | src/pipeline.cpp:62-150 | the real consumer, at any moment of any schedule, under either policy and every injection setting, satisfies the recovery theorems on what it popped, and under Block ends as AllArrived says |

## Left out

- Pointers: a node pointer is an index into the pool's memory rather than a heap reference; aliasing of nodes is
  modelled by equal indices, the allocator is not.
- OrderBooks.OrderBook.Apply: counters are unbounded, so the wrap of a 64-bit statistic and of a 32-bit order count is
  not modelled; sizes are non-negative integers below 2^32 only where a message carries them.
- OrderBooks.OrderBook.SetLevel: books fed both order by order and level by level are not modelled; a set level has a
  count of one and no node.
- Sequencers.Sequencer.TryOffer: sequence numbers are unbounded; 64-bit wrap-around of a feed's numbers is not modelled.
- SpscRings.SpscRing.Push: the class runs push and pop with the other thread at rest; interleavings are the state
  machine's (`SpscRings.Always`). That a spinning Block producer ever gets room needs a fair scheduler.
- SpscRings.Always: loads return any published value no older than the last one loaded; other hardware reorderings,
  cache lines and size_approx are not modelled.
- DepthResync.RunExact: assumes that every message of an event that arrives is delivered (the Block policy), and that a
  snapshot lists every level of the band; what it leaves out elsewhere does not matter.
- DepthResync.RecoveryExact: assumes besides that two neighbouring events with one first id are the same event, which
  is how the code tells events apart.
- DepthConsumers.DepthConsumer.constructor: computing the band from a percentage of the mid is floating point; the
  configuration is taken as given, and level sizes are taken to fit the 32 bits their messages carry.
- OrderBooks.OrderBook.constructor: bands of more than 2^32 levels are excluded, because a node keeps its level's index
  in 32 bits and the lists of a larger band would mix levels (`OrderBooks.LevelIdxExact`); the source does not reject
  such a configuration.
- Histograms.LatencyHistogram.constructor: layouts whose indices leave the source's 32-bit ints are excluded, because
  its counters could not be told apart there; the source does not reject them. Every layout of up to seven figures fits
  (`Histograms.SevenFiguresFit`).
- Histograms.LatencyHistogram.ValueAtRank: takes the integer rank; turning a percentage into it, the mean and rates are
  floating point. A query running beside a recording thread is not modelled.
- Histograms.LatencyHistogram.Record: totals and sums are unbounded, so the wrap of a 64-bit sum is not modelled.
- Generators.Generator.Run: random draws are any value of their range; seeds and argument parsing are left out.
- Pipeline.Consumer.Consume: pacing, clocks, latency stamps, metrics and the publisher's output are left out; an event
  is taken to be a function of its sequence number.
- WebSocket, HTTP, JSON, decimal parsing, the dashboard, symbol switching, mmap and file opening: input and output.
- The hash map's internals, move constructors, spread_ticks, RateSampler, ThroughputCounter: only easy members.
