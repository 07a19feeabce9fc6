# Velox, verified

A model of the Velox order matching engine and of the parts around it that
have to agree with it: the book's in-memory structures, the events the
matching thread publishes, the mirrors and market data built from those
events, the write-ahead journal, snapshots and recovery, the rings between
threads, and the order-entry protocol. Every statement below is proved for
all inputs, all runs or all interleavings of the model; nothing here executes
the engine.

`dafny verify dfyconfig.toml` verifies the whole project.

## How it is laid out

The centre is `Matcher.dfy`: price-time matching said as simply as possible,
on two lists of resting orders, with self-trade prevention, immediate-or-cancel,
fill-or-kill, cancel and replace. `MatcherLaws`, `BookLaws`, `Conservation`,
`Accounts` and `Verdicts` prove what matching promises on those lists: what is
traded with whom and at what price, that the book never crosses and stays in
price-time order after every run, that no quantity appears or disappears, in
total and under each order id, that the fill-or-kill scan and the matching loop
never disagree. `Answers` says from the lists alone which answer every command
gets and what it changes.

Everything else is connected to it.

- The book. `OrderIdMap` is the open-addressing table with back-shift
  deletion; `Words` and `Occupancy` the two-level bitset; `ObjectPool` the
  slots; `Grid`, `Chains`, `Sides`, `LevelRecords` and `LevelMap` the price
  levels with their linked queues and tracked best price. `SlotMatcher` is
  matching as the levels do it, by slot and tracked price, for any price in
  range. `OrderBook` puts the structures together and proves that each public
  operation does what the slot matcher does. `FairPrices` proves that on the
  tick grid this is price-time matching; `OffGrid` and `Limits` say exactly for
  which other prices it is, and what goes wrong for the rest.
- What is published. `Events` and `MatchingThread` turn a command into
  events and `Reports` says what those tell a client; `Mirrors` and `BookMirror` rebuild the book from the events alone;
  `Capacity` counts what a command will need of the buffers in between;
  `Publisher`, `Ladder`, `Streams` and `Feed` carry that on to a market-data
  subscriber.
- What is durable. `JournalFormat`, `Journal` and `Readings` read the segments;
  `Checksums` computes their checksums and says what those notice;
  `JournalWriter` writes them; `Durability` follows the directory, with what
  each file has on stable storage, through appends, syncs, crashes and
  restarts, and `Restarts` the restarts in particular; `Tailer` follows a
  journal while it is being written; `Payload` decodes the commands in the
  records; `Recovery` rebuilds the engine from a snapshot and the journal, and
  `Startup` goes from the directory to the running threads.
- Between threads. `Pipeline` interleaves sequencer and matching thread;
  `Multicast` interleaves a producer with gating and lapping consumers, one
  machine word at a time. What can never happen is proved there; that commands
  are served and events delivered is proved in `Progress` and `Delivery`.
- On the wire. `Bytes` and `Framing` are the order-entry messages, their
  encoder and the streaming decoder; `Acceptance` says which frames are accepted
  and where each byte lies.

Code that updates its own fields is a class here, with methods proved against
functions of the abstract state; the concurrent protocols are state machines
over their atomic steps.

## Where the code does less than its comments say

Some promises hold only under a condition. Each has a lemma that gives the
condition exactly, in both directions, and where the failing side is not
obvious a lemma that leads there from a fresh start.

- The mirror follows the book after a command exactly when every order the
  command will reach finds room in the 1024-entry buffers, which the book and
  the order tell beforehand (`Capacity.FitsIff`, `Mirrors.MirrorFollowsIff`);
  over a run, exactly when every command does (`Mirrors.MirrorOfRunIff`). One
  more offer than a buffer holds and a bid for all of them do not
  (`Capacity.OverflowHappens`).
- A crash can never cost an acknowledged record exactly when every segment but
  the newest is on stable storage to its last byte (`Durability.CrashSafeIff`).
  The writer keeps that so (`JournalWriters.JournalWriter.Append`), and so does
  power loss (`Durability.PowerLossSurvives`). A process that dies with a record
  written but not synced, and a restart that syncs nothing, break it
  (`Restarts.RestartLosesAck`, `Restarts.LossHappens`).
- A snapshot taken on request is exact exactly when the request does not name
  a number the journal has not reached (`Recovery.SyncExactIff`,
  `Startup.StartsLinedUpIff`); otherwise recovery skips commands
  (`Recovery.SyncAheadSkips`).
- A journal stays readable after recovery exactly when its writer resumes
  under the journal's own last number (`Restarts.ResumeIff`). A snapshot
  stamped with a later number makes the shard resume under that one, and the
  next reading delivers the old records and stops at the new one as corrupt.
- A tailer finds its segment again exactly when no earlier one has the same
  counter (`Tailer.SeekFinds`, `Tailer.TailProgressIff`). A restart after a
  clean end counts from zero again (`Tailer.RestartRepeatsCounter`); a tailer in
  such a segment then reports corruption or never delivers again
  (`Tailer.TailExactIff`, `Tailer.StuckStays`).
- Prices between two ticks share a level with the tick below. Every run is
  price-time matching, and the tracked price the best price, exactly when all
  limit prices lie on the grid or there is only one (`OffGrid.PriceTimeIff`,
  `OffGrid.TrackedIff`). Every order trades within its limit exactly when all
  prices but the lowest lie on the grid (`Limits.LimitsRunIff`); with ticks of
  ten, a bid limited to 102 pays 105 (`Limits.PaysMoreExamples`).
- The forward walk of a deletion from the id table stops exactly when some slot
  is free (`OrderIdMap.WalkStopsIff`). The book sizes the table so that one is.

## Model

| member | source | states |
|---|---|---|
| `OrderIdMap.Slot` | book/order_id_map.hpp:156-159 | the home slot is always a slot of the table |
| `OrderIdMap.Build` | book/order_id_map.hpp:39-56 | the table that a list of insertions leaves, whatever the list, has exactly the table's number of slots; the reference erase is compared with |
| `OrderIdMap.WithoutIndex` | book/order_id_map.hpp:87-90 | forgetting a key in an insertion history removes exactly that key from the map the history stands for, and keeps the rest in their order |
| `OrderIdMap.RepresentsIsBuild` | book/order_id_map.hpp:87-90 | a table is determined by its insertion history alone: any slots in which every key is reachable along its probe path and sits behind older keys are the slots that replaying the history fills |
| `OrderIdMap.FreeSlotIff` | book/order_id_map.hpp:55 | the table has a free slot if and only if it holds fewer keys than slots |
| `OrderIdMap.MoveBackIsOnPath` | book/order_id_map.hpp:117-119 | the cyclic comparison that decides whether to pull an entry back holds exactly when the hole lies on that entry's probe path |
| `OrderIdMap.ShiftStep` | book/order_id_map.hpp:110-126 | one step of the forward walk keeps the table with a hole consistent with the history without the erased key |
| `OrderIdMap.WalkStopsIff` | book/order_id_map.hpp:107-126 | the forward walk of a deletion, taken turn by turn, ever stops if and only if some slot of the table is free |
| `OrderIdMap.Table.Find` | book/order_id_map.hpp:58-70 | lookup agrees with an ordinary finite map, present or absent, on a table that may be full |
| `OrderIdMap.Table.Insert` | book/order_id_map.hpp:38-56 | refuses exactly a duplicate or a full table, changing nothing; otherwise the map gains the one binding and the history grows by it |
| `OrderIdMap.Table.Erase` | book/order_id_map.hpp:72-132 | the map loses exactly this key, and the slots are those of the same insertions without it, as if it had never been there; an absent key changes nothing, on a full table too |
| `OrderIdMap.Table.WalkForward` | book/order_id_map.hpp:109-126 | the unbounded forward walk stops, at a free slot, with every displaced entry reachable again; it is the walk of `WalkStopsIff` |
| `Words.LowestBit` | book/level_map.hpp:238 | the position found is set and nothing below it is |
| `Words.HighestBit` | book/level_map.hpp:198 | the position found is set and nothing above it is |
| `Words.KeepBelow` | book/level_map.hpp:194-196 | the masked word has exactly the bits strictly below the position, including at position 0 |
| `Words.KeepFrom` | book/level_map.hpp:233-236 | the masked word has exactly the bits from the position up |
| `Occupancy.ScanDownIs` | book/level_map.hpp:188-190 | the linear downward search returns the greatest occupied slot below the start, and nothing else can be its answer |
| `Occupancy.ScanUpIs` | book/level_map.hpp:225-227 | the linear upward search returns the least occupied slot from the start on, and nothing else can be its answer |
| `Occupancy.Bitset.Set` | book/level_map.hpp:166-173 | both levels of the bitset agree with the occupancy after the slot is marked |
| `Occupancy.Bitset.Clear` | book/level_map.hpp:177-186 | both levels agree after the slot is unmarked, the summary bit falling exactly when its word becomes zero |
| `Occupancy.Bitset.FindBelow` | book/level_map.hpp:190-223 | the two-level search below a slot is the linear search, for any number of slots |
| `Occupancy.Bitset.FindAbove` | book/level_map.hpp:227-261 | the two-level search above a slot is the linear search, for any number of slots |
| `ObjectPool.Pool.constructor` | common/object_pool.hpp:27-39 | every slot starts free and on the free list |
| `ObjectPool.Pool.Acquire` | common/object_pool.hpp:46-54 | null exactly when the pool is exhausted; otherwise a slot that was free, counted as used, all others untouched |
| `ObjectPool.Pool.Release` | common/object_pool.hpp:56-64 | the slot is the next to be handed out; null changes nothing |
| `Chains.EnqueueLinks` | engine/price_level.hpp:25-37 | after joining the back, the queue is correctly linked both ways and reads as before plus the newcomer |
| `Chains.UnlinkLinks` | engine/price_level.hpp:41-57 | after unlinking any member, first, last or inner, the queue is correctly linked both ways and reads as before without it |
| `Chains.ReduceLinks` | engine/order_book.cpp:128-139 | a fill changes one order's remaining quantity and no link |
| `LevelMaps.FirstAfterSet` | book/level_map.hpp:97-99 | the best slot after one more is occupied is the newcomer or the old best, whichever comes first in the side's direction |
| `LevelMaps.FirstAfterClear` | book/level_map.hpp:108-114 | the best slot changes on clearing only if it was the one cleared, and then to the next occupied one |
| `LevelMaps.BestAfterSet` | book/level_map.hpp:97-99 | at any price, tracking a newcomer that is better keeps every occupied slot at or behind the tracked price's, and a side with no tracked price empty |
| `LevelMaps.BestAfterClear` | book/level_map.hpp:108-114 | so does moving on when the level of the tracked price is reported empty under that very price, and doing nothing under another; moving on leads to the first occupied slot |
| `LevelMaps.UnlinkRecord` | engine/price_level.hpp:41-57 | head, tail, count and total of every level still describe their queues after an order leaves one of them |
| `LevelMaps.EnqueueRecord` | engine/price_level.hpp:25-37 | head, tail, count and total of every level still describe their queues after an order joins one of them |
| `LevelMaps.LevelMap.Enqueue` | engine/price_level.hpp:25-37 | the level's queue gains the order at its back, in memory and in the record |
| `LevelMaps.LevelMap.Unlink` | engine/price_level.hpp:41-57 | the level's queue loses the order, found through its own links, and nothing else moves |
| `LevelMaps.LevelMap.NextOccupied` | book/level_map.hpp:125-133 | the grid price of the next occupied slot in the side's direction, or the empty sentinel |
| `LevelMaps.LevelMap.OnLevelEmptied` | book/level_map.hpp:108-114 | flags are exact again after a level empties, also when it was already reported; the tracked price moves to the next occupied slot exactly if the level was reported under it |
| `LevelMaps.LevelMap.AddOrder` | book/level_map.hpp:89-100 | flags, records and links are exact and the tracked price is kept after an order is added at any price in range |
| `MatcherLaws.MatchLeaves` | engine/order_book.cpp:64-159 | matching changes only a walked prefix of the opposite side; what is left is a suffix of it, with at most the first order partly filled and keeping its place |
| `MatcherLaws.MatchAccounts` | engine/order_book.cpp:115-139 | traded quantity, victims and what is left add up to what the opposite side held, and what the aggressor lost to what was traded |
| `MatcherLaws.MatchWalks` | engine/order_book.cpp:81-151 | trades are with the reached orders of others, in queue order, numbered on one by one, between the two ids and at the resting price; victims are exactly the reached orders of the same participant |
| `MatcherLaws.AvailableIsFilled` | engine/order_book.cpp:161-191 | the pre-scan capped at the order's quantity is exactly what matching fills, under every self-trade policy |
| `BookLaws.MatchKeeps` | engine/order_book.cpp:64-159 | after matching both sides are still sorted by price then arrival, with distinct ids and positive quantities, and do not cross |
| `BookLaws.RestKeeps` | engine/order_book.cpp:193-215 | resting the residual keeps both sides sorted and uncrossed |
| `BookLaws.SubmitKeeps` | engine/order_book.cpp:217-293 | a submission keeps the whole book invariant |
| `BookLaws.CancelKeeps` | engine/order_book.cpp:299-337 | a cancel keeps the whole book invariant |
| `BookLaws.StepKeeps` | engine/order_book.cpp:217-406 | every command keeps it: sorted queues, arrivals rising along each level and within the counter, distinct ids, best bid below best ask, no more orders than the pool holds |
| `BookLaws.RunKeeps` | tests/invariant/invariants.hpp:222-262 | the invariant holds after every run of commands |
| `Conservation.SubmitBalances` | engine/order_book.cpp:217-293 | one submission: the change of resting quantity, twice the traded, and the withdrawn quantity add up to the accepted quantity |
| `Conservation.CancelBalances` | engine/order_book.cpp:299-337 | one cancel: what was resting and is not any more was withdrawn |
| `Conservation.RunBalances` | tests/invariant/invariants.hpp:168-220 | over every run and policy, resting + 2 x traded + withdrawn equals the total quantity accepted |
| `Accounts.MatchAccounted` | engine/order_book.cpp:64-159 | matching moves quantity under each id from resting to filled or removed and nowhere else |
| `Accounts.RunSettles` | tests/invariant/invariants.hpp:168-220 | for each order id and over every run: what was filled under it, on either side of a trade, is what was accepted less what still rests and what was withdrawn |
| `Verdicts.FokAllOrNothing` | engine/order_book.cpp:248-253 | a fill-or-kill order fills completely or leaves book and counters unchanged; the late rejection cannot happen |
| `Verdicts.SubmitBound` | engine/order_book.cpp:73-156 | trades plus victims of one submission never exceed the orders on the opposite side |
| `Verdicts.StepBound` | audit/audit_replayer.hpp:113-117 | trades plus victims of any command never exceed the orders resting before it, so a buffer of the pool's size cannot overflow |
| `Verdicts.SubmitFills` | engine/order_book.cpp:259-261 | the reported fill is the sum of the trades and stays within the order's size |
| `Verdicts.ReplaceRejectedIff` | runtime/matching_thread.hpp:177-184 | the four statuses occur exactly when replace cancelled nothing, which is exactly when it left the book unchanged |
| `Verdicts.LimitReplaceHasRoom` | engine/order_book.cpp:374-406 | a limit replace that passes validation always cancels, takes a fresh arrival number and never finds the pool exhausted |
| `Verdicts.AmendedIsFresh` | engine/order_book.cpp:393-405 | after the cancel the replacement's id is free, also when it reuses the old one |
| `Answers.Span` | engine/order_book.cpp:73-151 | the number of opposite orders an order may pass: all in front cross and do not end it, the next one does not cross or ends it |
| `Answers.MatchSpan` | engine/order_book.cpp:64-159 | matching fills exactly what others offer within the span, capped at the order, and self-trade prevention ends it exactly when that is not enough and the span ends at an order of its own participant that crosses |
| `Answers.AvailableIff` | engine/order_book.cpp:161-191 | the pre-scan falls short exactly when others offer too little within the span |
| `Answers.SubmitTurnsAway` | engine/order_book.cpp:224-253 | an order that is not welcome leaves no trace and is told the first reason that applies: quantity, price range, listed id, empty opposite side, too little for a fill-or-kill |
| `Answers.SubmitRestsIff` | engine/order_book.cpp:255-279 | an accepted order fills as far as others offer; it rests if and only if it is a limit order, quantity is left, self-trade prevention did not end it and fewer orders than the maximum remain; its side then gains exactly that order, behind equals and in front of worse prices, and else stays as it was |
| `Answers.SubmitStatusIff` | engine/order_book.cpp:263-290 | which accepted orders are ended, done, rejected for the pool or cancelled for their residual, each as an if-and-only-if; a fill-or-kill order is always done |
| `Answers.SlotRestsIff` | engine/order_book.cpp:255-279 | at any price, by slot: the same for what rests and for the own side |
| `Answers.CancelKnownIff` | engine/order_book.cpp:299-308 | a cancel is Ok if and only if a listed order has the id, and RejectedUnknownOrder with nothing changed otherwise |
| `Answers.CancelTakes` | engine/order_book.cpp:310-336 | it takes out exactly the order with that id, and reports its terms, what was resting, and as filled the quantity less that |
| `Answers.ReplaceCancelsIff` | engine/order_book.cpp:378-396 | a replace cancels if and only if the old id is listed, the new quantity positive, the order a market order or its price in range, and the new id the old one or unlisted; the first of these to fail is the status, with nothing changed |
| `Answers.ReplaceSubmits` | engine/order_book.cpp:398-405 | otherwise the old order leaves as by a cancel and the new one is submitted to what is left, where its id is free |
| `Sides.FlatInsert` | book/level_map.hpp:89-100 | queueing at the back of a level is inserting into the side's list behind every order in the same or a better slot, whatever the prices within the slot |
| `Sides.FlatRemove` | engine/order_book.cpp:321-333 | unlinking from a level is removing that id from the priority list |
| `Images.RemoveConsistent` | engine/order_book.cpp:321-333 | taking one order out of links, map and pool keeps the three the same set of orders and removes it from its list |
| `Images.AddConsistent` | engine/order_book.cpp:193-215 | adding one order to links, map and pool keeps the three the same set of orders and inserts it into its list where its slot says |
| `Images.FillHead` | engine/order_book.cpp:128-150 | filling the head of the best level changes the first order of the side and nothing else |
| `OrderBooks.NextPowerOfTwo` | engine/order_book.cpp:16-19 | the least power of two that is at least n, so the id map is never more than half full |
| `OrderBooks.Buffer.Push` | engine/trade.hpp:31-39 | everything pushed is counted; what fits is stored in order |
| `OrderBooks.OrderBook.Create` | engine/order_book.cpp:23-36 | a new book is empty and all four structures agree |
| `OrderBooks.OrderBook.Turn` | engine/order_book.cpp:82-150 | one turn of the inner loop leads to the same end as before it: it is one turn of the slot matcher, or the stop that self-trade prevention demands |
| `OrderBooks.OrderBook.MatchLevel` | engine/order_book.cpp:80-151 | consuming a level from its head terminates and leads to the same end |
| `OrderBooks.OrderBook.MatchInto` | engine/order_book.cpp:64-159 | the pointer-chasing loop ends with the book, tracked price, remaining quantity, trades, victims and outcome of the slot matcher, under each policy and at any price |
| `OrderBooks.OrderBook.ReportIfEmpty` | engine/order_book.cpp:103-105 | reporting an emptied level, once or twice, leaves the flags exact and moves the tracked price as the slot matcher does |
| `OrderBooks.OrderBook.ScanLevel` | engine/order_book.cpp:171-187 | one level of the pre-scan accounts for exactly that level's orders |
| `OrderBooks.OrderBook.AvailableAgainst` | engine/order_book.cpp:161-191 | the walk over occupied levels computes the slot matcher's pre-scan, and touches nothing |
| `OrderBooks.OrderBook.RestResidual` | engine/order_book.cpp:193-215 | fails exactly when the pool is exhausted, leaving the book alone; otherwise the residual joins the back of its slot, at any price in range |
| `OrderBooks.OrderBook.JoinedSound` | book/level_map.hpp:89-100 | once an order is queued at its slot and its id mapped, links, map, pool and levels agree, and its side's queue gained it where its slot says |
| `OrderBooks.OrderBook.Refuse` | engine/order_book.cpp:229-253 | the checks on pool, map, best price and pre-scan give the refusal of the slot matcher |
| `OrderBooks.OrderBook.SubmitEx` | engine/order_book.cpp:217-293 | at any price: same book, tracked prices, result, trades and victims as the slot matcher, and all four structures agree again; on the grid that is the price-time matcher |
| `OrderBooks.OrderBook.CancelEx` | engine/order_book.cpp:299-337 | at any price: same book, tracked prices and result as the slot matcher, known id or unknown; on a price-time book, those of removing the id from the two lists |
| `OrderBooks.OrderBook.ReplaceEx` | engine/order_book.cpp:374-406 | at any price: same book, results, trades and victims as the slot matcher's cancel and resubmit, or nothing at all; on the grid the price-time matcher's |
| `OrderBooks.OrderBook.RestoreResting` | engine/order_book.cpp:339-367 | fails exactly on an exhausted pool or a taken id and then leaves no trace; otherwise inserts the order, at any price in range |
| `OrderBooks.OrderBook.RestoreCounters` | engine/order_book.cpp:369-372 | the two counters change and the orders do not |
| `OrderBooks.OrderBook.Orders` | sequencer/snapshot_writer.hpp:43-65 | the canonical walk, best level first and each level from its head, is the side's queue |
| `OrderBooks.OrderBook.IndexAgrees` | tests/invariant/invariants.hpp:371-443 | an id is in the map exactly when it is on one of the lists |
| `OrderBooks.OrderBook.Counted` | tests/invariant/invariants.hpp:475-484 | pool slots in use, map entries and listed orders are equally many and within the configured maximum |
| `BookWalks.IndexedIffListed` | engine/order_book.cpp:302-308 | the id map and the two lists know the same ids |
| `FairPrices.FairMatch` | engine/order_book.cpp:64-159 | where slots compare as prices do, matching by slot and tracked price is matching by price and time, and leaves the tracked price exact |
| `FairPrices.FairStep` | engine/order_book.cpp:217-406 | and so is every command, with its result, trades and victims |
| `FairPrices.FairRun` | engine/order_book.cpp:217-406 | and every run |
| `FairPrices.GridStep` | engine/order_book.cpp:217-406 | on the tick grid every command on every sound book does by slot what it does by price and time |
| `OffGrid.QueueIff` | book/level_map.hpp:89-100 | the queue order of a newcomer is price-time order if and only if no order at a worse price waits in its slot |
| `OffGrid.SlotmatesMistrade` | book/level_map.hpp:159-161 | of any two offers in one slot the dearer trades first if it came first |
| `OffGrid.SlotmatesStale` | book/level_map.hpp:108-114 | once the cheaper of any two offers in one slot is cancelled, its price is still the tracked one |
| `OffGrid.BehindMistracked` | book/level_map.hpp:125-133 | once the better of two levels is taken, a level between two ticks is tracked under its grid price, not under its order's |
| `OffGrid.BehindMistrade` | engine/order_book.cpp:73-80 | an order limited to a price between the two then trades where it should not, or does not where it should |
| `OffGrid.PriceTimeIff` | engine/order_book.cpp:64-159 | for any set of admitted limit prices: every run of commands has the results, trades and removals of price-time matching if and only if all of them lie on the tick grid or there is only one |
| `OffGrid.TrackedIff` | book/level_map.hpp:68-72 | the same prices are exactly those under which the tracked price is the best price after every run |
| `Limits.LimitsIff` | engine/order_book.cpp:73-81 | for any queue in slot order: every incoming order trades within its limit if and only if no resting order asks worse than the price its level is offered under |
| `Limits.RunKeepsSides` | engine/order_book.cpp:217-406 | at any prices, every run leaves each queue in slot order, with no slot in use before the tracked price's |
| `Limits.LimitsRunIff` | engine/order_book.cpp:73-81 | after every run every incoming order trades within its limit if and only if all admitted prices but the lowest lie on the tick grid |
| `Limits.PaysMoreExamples` | engine/order_book.cpp:81-151 | with ticks of ten, a bid limited to 102 pays 105 behind an offer at 101 in the same slot, and behind one at 90 in another |
| `Limits.MistrackedExamples` | book/level_map.hpp:89-114 | cancelling the offer at 101 leaves 101 tracked while the only offer is at 105; an offer at 101 queues behind one at 105 |
| `MatchingThreads.MatchingThread.PublishTrades` | runtime/matching_thread.hpp:237-241 | the buffered trades in order, up to the buffer's capacity |
| `MatchingThreads.MatchingThread.PublishStpVictims` | runtime/matching_thread.hpp:208-216 | a cancellation per buffered victim, up to the buffer's capacity |
| `MatchingThreads.MatchingThread.DispatchReplace` | runtime/matching_thread.hpp:166-200 | the old order's cancellation, the trades, the victims, the status and the outcome, with the first and last left out exactly when nothing was cancelled |
| `MatchingThreads.MatchingThread.Dispatch` | runtime/matching_thread.hpp:132-202 | at any price the book takes one step of the slot matcher, the number advances by one, and exactly that step's events are published; on the grid, the step and the events of the price-time matcher |
| `MatchingThreads.GridEvents` | runtime/matching_thread.hpp:132-202 | on the grid the events of the slot matcher's step are those of the price-time matcher's |
| `Reports.NewReports` | runtime/matching_thread.hpp:139-151 | a new order publishes its trades and removals as far as the buffers hold them, one status if and only if its result is not Ok, carrying that, and one update on what became of it, with its own terms |
| `Reports.CancelReports` | runtime/matching_thread.hpp:152-165 | a cancel publishes exactly one status, under its own id: Ok if a listed order has it, RejectedUnknownOrder if none; and no update in that case |
| `Reports.CancelReportsOrder` | runtime/matching_thread.hpp:155-163 | and otherwise the cancellation of that very order as it waited |
| `Reports.ReplaceReports` | runtime/matching_thread.hpp:166-200 | a replace publishes exactly one status, under the new id and with its result, and the cancellation and the outcome exactly if it cancelled |
| `Reports.ReplaceReportsOrder` | runtime/matching_thread.hpp:186-192 | that cancellation is of the old order as it waited |
| `Reports.InOrder` | runtime/matching_thread.hpp:132-202 | trades first, then removals, then the status, then the outcome; the cancellation in front of a replace, the status first of a cancel; and nothing else |
| `Mirrors.EraseTracks` | marketdata/book_mirror.hpp:231-238 | erasing by id through the index removes that order from the mirrored list and from nowhere else |
| `Mirrors.FillTracks` | marketdata/book_mirror.hpp:241-261 | reducing by id fills that order in place, or removes it when nothing is left |
| `Mirrors.AddTracks` | marketdata/book_mirror.hpp:221-229 | a rested order joins the mirrored list where it joined the book |
| `Mirrors.MatchReplays` | runtime/matching_thread.hpp:204-216 | applying all trades and then all removals gives what the interleaved match left, though removals are published after every trade |
| `Capacity.RoomIsEnough` | engine/order_book.cpp:73-156 | for any two limits and each policy: matching stays within them with its trades and its victims if and only if every order it will reach, told from the quantities in front of it, finds room |
| `Capacity.FitsIff` | runtime/matching_thread.hpp:97-102 | a command's trades and victims each fit their buffer if and only if the book beforehand has room for the orders it will reach |
| `Capacity.OverflowHappens` | runtime/matching_thread.hpp:97-102 | for every buffer smaller than the book, valid commands that overflow it: one offer more than it holds and a bid for them all |
| `Mirrors.MirrorFollows` | runtime/matching_thread.hpp:132-241 | after the events of any command that fits the buffers the mirror is the book again: orders, places, index, last arrival and trade count |
| `Mirrors.MirrorFollowsIff` | runtime/matching_thread.hpp:97-102 | and it is so if and only if the book beforehand has room for every order the command will reach |
| `Mirrors.MirrorOfRun` | marketdata/mirror_digest.hpp:3-7 | from an empty mirror, after every run whose commands find room, the mirror is the book |
| `Mirrors.MirrorOfRunIff` | marketdata/mirror_digest.hpp:3-7 | the mirror is the book from start to end of a run if and only if every command finds room |
| `Mirrors.LargeBuffers` | audit/audit_replayer.hpp:113-117 | with buffers as large as the book every command of every run does |
| `BookMirrors.BookMirror.Insert` | marketdata/book_mirror.hpp:221-229 | the stored maps change as the list does, duplicate ids included |
| `BookMirrors.BookMirror.Erase` | marketdata/book_mirror.hpp:231-238 | the stored maps change as the list does; an emptied price disappears |
| `BookMirrors.BookMirror.Reduce` | marketdata/book_mirror.hpp:241-261 | the stored maps change as the list does, for an unknown id, a partial fill and a full fill |
| `BookMirrors.BookMirror.Handle` | marketdata/book_mirror.hpp:50-96 | every event, of any origin, changes the maps of queues exactly as it changes the two lists |
| `BookMirrors.BookMirror.Walk` | marketdata/book_mirror.hpp:141-152 | walking the map in price order gives the priority list |
| `BookMirrors.BookMirror.LevelTotal` | marketdata/book_mirror.hpp:184-194 | the quantity of the list's orders at that price, 0 if there are none |
| `BookMirrors.BestFirst` | marketdata/book_mirror.hpp:11-16 | in a list sorted by price the orders at the best price come first and in list order |
| `Ladders.EventMoves` | marketdata/publisher.hpp:158-225 | a well-formed event changes at most the level the publisher looks at, and never its order count without its total |
| `Ladders.Ladder.OnL3Order` | viz/ladder.hpp:44-55 | an order adds to its level during a burst and is ignored otherwise |
| `Ladders.Ladder.OnL2Delta` | viz/ladder.hpp:57-63 | a delta sets or deletes its level |
| `Ladders.Ladder.OnSnapshotStart` | viz/ladder.hpp:36-40 | a burst starts from nothing |
| `Ladders.Ladder.OnTrade` | viz/ladder.hpp:65-71 | the last fifty trades are kept, all of them counted |
| `Ladders.Ladder.OnMessage` | viz/md_client.hpp:120-151 | one feed message, by its type, changes the ladder as its fold says |
| `Ladders.Ladder.OnFeed` | viz/md_client.hpp:86-94 | a subscriber that takes any messages one by one shows what they fold to, and keeps at most fifty trades |
| `Streams.EventsWellFormed` | runtime/matching_thread.hpp:132-241 | every event of a command is well formed for the mirror that has seen the ones before it: positive quantities, and orders named at the place the mirror has them |
| `Streams.RunWellFormed` | runtime/matching_thread.hpp:104-130 | and so is every event of every run whose commands find room |
| `Publishers.Publisher.DiffLevel` | marketdata/publisher.hpp:201-225 | a delta goes out exactly when the total moved, with the action its old and new totals call for, and the subscriber then shows the level as it is |
| `Publishers.DeltaSays` | marketdata/publisher.hpp:201-225 | a level is announced exactly if its total moved, as added exactly if no order waited there, as deleted exactly if none does now, with its total and its number of orders |
| `Publishers.Publisher.ApplyAndPublish` | marketdata/publisher.hpp:158-197 | after every well-formed event a subscriber's ladder has the mirror's levels, totals and order counts; messages are numbered without a gap |
| `Publishers.Publisher.Pump` | marketdata/publisher.hpp:93-110 | the same over any stretch of events; and what is sent tells exactly the trades and the order changes of those events, in order |
| `Publishers.Publisher.SeedSide` | marketdata/publisher.hpp:147-156 | the totals recomputed from the mirror are the mirror's |
| `Publishers.Publisher.Resync` | marketdata/publisher.hpp:124-145 | whatever is loaded, a subscriber that sees the burst shows exactly that, whatever it showed before |
| `Feed.LoadedIsBook` | marketdata/snapshot_source.hpp:16-32 | loading a mirror from a book's walk and counters gives that book's mirror |
| `Feed.RunTrades` | runtime/matching_thread.hpp:237-241 | the trade events of a run that finds room are its trades, in order |
| `Feed.FollowRun` | marketdata/publisher.hpp:93-110 | from any run of commands that find room to the subscriber: the mirror is the book, the ladder object that takes every message shows its depth, and the trade ticks sent are the trades of the run |
| `Recovery.SnapshotRoundTrip` | sequencer/snapshot_writer.hpp:36-77 | loading the snapshot of a book gives back that book, queues and counters included |
| `Recovery.WriteSnapshot` | sequencer/snapshot_writer.hpp:36-77 | the orders of the canonical walk, the book's counters and the given number |
| `Recovery.RestoreOrders` | recovery/recovery_manager.hpp:47-67 | restoring stops at the first order that has no room or a taken id, and reports it; otherwise each order joins its slot |
| `Recovery.ApplyRecord` | recovery/recovery_manager.hpp:104-123 | a record takes the book one step of the slot matcher, at any price, whatever the trade buffer drops |
| `Recovery.Recover` | recovery/recovery_manager.hpp:42-101 | a snapshot that cannot be restored is reported corrupt; otherwise the book is the loaded one run over the records the snapshot does not cover, numbered by the later of the two; on the grid with the price-time matcher |
| `Recovery.GridRecovered` | recovery/recovery_manager.hpp:42-101 | on the grid, recovery by slot is recovery by price and time, also in whether the snapshot is refused |
| `Recovery.RecoveryIsReplay` | recovery/recovery_manager.hpp:42-101 | with no snapshot, or that of any prefix of the journal, the recovered book is the full replay and is numbered like the journal |
| `Recovery.RecoveredRunsOn` | recovery/recovery_manager.hpp:42-101 | and stays equal to it, with the same published events, under all later commands |
| `Recovery.SnapshotNowSync` | sequencer/snapshot_thread.hpp:70-75 | the snapshot of the replay of the records up to the requested number, stamped with that number |
| `Recovery.SyncExactIff` | sequencer/snapshot_thread.hpp:70-75 | recovering from it gives the replay under the journal's numbering if and only if the request did not run ahead of the journal |
| `Recovery.SyncAheadSkips` | sequencer/snapshot_thread.hpp:92-119 | if it did, recovery skips every later command up to that number |
| `Payloads.CommandReads` | ipc/command.hpp:20-45 | a command reads back from the 48 bytes of its structure, whatever is in the unused fields and the padding |
| `Payloads.CommandIs` | ipc/command.hpp:20-45 | which 48 bytes hold a command under which kind, and at which bytes its ids, price, quantity, participant, side and type lie |
| `Payloads.CommandsHeld` | recovery/recovery_manager.hpp:104-123 | records that hold commands decode to those commands, in order |
| `Startup.DiskIsReplay` | recovery/recovery_manager.hpp:42-101 | from disk to book: a sound directory whose records hold commands recovers, with no snapshot or that of any prefix, to the replay of the commands, numbered like the journal |
| `Startup.RecoverDisk` | recovery/recovery_manager.hpp:42-123 | reading, decoding and replaying any readable directory leaves the order book in the state recovery from its commands gives, and reports corruption or a torn tail exactly when reading ended so; on a sound directory of grid commands that is their replay |
| `Startup.StartsLinedUp` | runtime/shard.hpp:68-87 | what recovery hands over, with no snapshot or that of any prefix, is the state the two threads' invariant starts from |
| `Startup.StartsLinedUpIff` | runtime/shard.hpp:68-87 | after a snapshot on request it is so if and only if the request had not run ahead of the journal |
| `Pipeline.StepKeeps` | sequencer/sequencer.hpp:38-70 | every step of either thread keeps cursors, numbers, slots and registers in agreement with the journal |
| `Pipeline.WriteAhead` | sequencer/sequencer.hpp:38-70 | over all interleavings the ring holds exactly the journal records after the last dispatched one, in order; the book is the replay of the dispatched ones; nothing is dispatched that is not journaled |
| `Pipeline.Stamped` | runtime/matching_thread.hpp:133-135 | every event carries the number of its own command |
| `Pipeline.SlotsApart` | ipc/spsc_ring.hpp:54-65 | positions less than a lap apart never share a slot |
| `Pipeline.InitInv` | runtime/shard.hpp:68-87 | recovered journal, book, dispatch counter and sequencer line up at the start |
| `Progress.PollFinds` | ipc/spsc_ring.hpp:83-92 | in every run a poll finds a command if and only if one is published and not consumed |
| `Progress.ClaimFinds` | ipc/spsc_ring.hpp:54-64 | in every run a claim succeeds if and only if the ring is not full, however old the cached cursor; trySubmit gives up with nothing journaled exactly on a full ring |
| `Progress.Drains` | runtime/matching_thread.hpp:116-129 | from every state of every run, as many turns of the matching thread as there are commands in the ring dispatch every published command: the book is the replay of the journal up to there and its events have gone out |
| `Progress.Serves` | sequencer/sequencer.hpp:38-49 | from every such state with room in the ring, submitting a command and letting the matching thread turn ends with the command journaled and dispatched |
| `Multicast.StepKeeps` | ipc/multicast_ring.hpp:55-164 | every step of the producer or a consumer, down to single words of a slot, keeps the ring's invariant |
| `Multicast.GatingSeesAll` | ipc/multicast_ring.hpp:76-91 | in every run a gating consumer has read exactly the first events, once each and in order, and no slot it has yet to read was touched |
| `Delivery.PeekFinds` | ipc/multicast_ring.hpp:76-86 | in every run a peek finds nothing if and only if the consumer has caught up with the head |
| `Delivery.LapIff` | ipc/multicast_ring.hpp:107-148 | in every run a non-gating consumer is told of a lap, before or after copying, if and only if the head is a capacity ahead of it, and then stands at the head; otherwise it gets the event at its cursor |
| `Delivery.TurnDelivers` | ipc/multicast_ring.hpp:76-129 | from every state of every run, whatever the consumer was in the middle of, its own steps of one call and acknowledgement hand it exactly the event at its cursor and move it on by one, or tell it of the lap, or find nothing |
| `Delivery.CatchesUp` | ipc/multicast_ring.hpp:76-91 | as many calls as it is events behind, and a gating consumer has seen the whole log, each event once and in order |
| `Delivery.OfferPublishes` | ipc/multicast_ring.hpp:55-69 | from every state of every run, between two events, the producer's own steps publish the next one if and only if every gating consumer is less than a lap behind; otherwise the ring is unchanged |
| `Multicast.NeverTorn` | ipc/multicast_ring.hpp:107-129 | in every run what any consumer holds is exactly the event at its cursor, never a mixture, and events are missing from its history only across a reported lap |
| `Multicast.ProducerBlind` | ipc/multicast_ring.hpp:55-69 | take the steps of all non-gating consumers out of any run: slots, published events, producer and gating consumers end up the same |
| `Multicast.ClaimFails` | ipc/multicast_ring.hpp:55-164 | in every run a claim that had to scan fails only if some gating consumer was a full lap behind when its cursor was read, does fail if one still is, and never fails with no gating consumer |
| `Bytes.Put` | protocol/wire.hpp:14-46 | the bytes of the value, least significant first, at their place and nowhere else |
| `Bytes.Get` | protocol/wire.hpp:18-54 | the value those bytes stand for |
| `Bytes.PutGet` | protocol/wire.hpp:22-54 | writing what was read gives the bytes back |
| `Bytes.GetPut` | protocol/wire.hpp:22-54 | reading what was written gives the value back |
| `Framing.SizesAgree` | protocol/message_types.hpp:80-125 | each order-entry message's fields add up to the size the protocol fixes for it |
| `Framing.DecodeEncoded` | protocol/encoder.cpp:12-97 | every valid message decodes from its encoding, whatever follows it |
| `Framing.EncodeInto` | protocol/encoder.cpp:12-97 | the encoder puts the frame into the buffer at its place, header and fields, and touches nothing around it |
| `Framing.EncodeDecoded` | protocol/decoder.cpp:35-214 | every accepted frame is the encoding of a valid message, byte for byte |
| `Acceptance.AcceptsIff` | protocol/decoder.cpp:71-186 | a frame is accepted if and only if the condition written out on its message's fields holds; otherwise the reason: codes, then instrument, then quantity, then time in force, then price |
| `Acceptance.OthersAccepted` | protocol/decoder.cpp:71-202 | every message that is no new order, cancel or replace is accepted as it is |
| `Acceptance.FrameVerdicts` | protocol/decoder.cpp:40-69 | for any bytes: when a frame is waited for, when it is malformed, and when its type is unknown |
| `Acceptance.FrameBytes` | protocol/encoder.cpp:12-97 | the bytes of every message: length, type code and each field in its place and width |
| `Acceptance.ByteAt` | protocol/wire.hpp:22-46 | byte i of an encoded value is the value divided by 256 to the i, modulo 256 |
| `Framing.NextStable` | protocol/decoder.cpp:35-214 | a verdict on a frame does not change when more bytes arrive |
| `Framing.ParseSplit` | protocol/decoder.cpp:35-214 | parsing what arrived and then what was left with the rest is parsing everything at once |
| `Framing.LeftBound` | protocol/decoder.cpp:41-58 | a drained buffer holds at most 67 bytes |
| `Framing.FrameDecoder.Feed` | protocol/decoder.cpp:21-28 | bytes are appended, or all refused when terminal or too many |
| `Framing.FrameDecoder.Consume` | protocol/decoder.cpp:30-33 | the rest moves to the front |
| `Framing.FrameDecoder.Next` | protocol/decoder.cpp:35-214 | one frame off the front, or why there is none; the first bad frame ends the stream |
| `Framing.FrameDecoder.Receive` | protocol/decoder.cpp:21-214 | for every stream and every cutting into reads of at most 189 bytes, no read overflows, and the messages and first bad frame are those of one parse |
| `JournalFormat.HeaderReads` | sequencer/journal_format.hpp:40-61 | a segment header decodes to the counter it was written with |
| `JournalFormat.RecordReads` | sequencer/journal_format.hpp:80-92 | a record written whole reads back and is accepted exactly when it is the next number |
| `JournalFormat.CutReads` | sequencer/journal_reader.hpp:198-226 | a record cut short anywhere reads as torn |
| `Checksums.ReadAtIff` | sequencer/journal_reader.hpp:198-252 | what reading at an offset finds, from the bytes alone: the end, a record exactly if all its bytes are there with the right length and checksum, and it is the next number or a gap; a torn tail otherwise |
| `Checksums.ChecksumNotices` | common/crc32.hpp:35-42 | for data of any length, changing any one byte changes the checksum |
| `Checksums.RecordNotices` | sequencer/journal_reader.hpp:224-231 | a record of full length with any one byte damaged reads as torn |
| `Checksums.HeaderNotices` | sequencer/journal_format.hpp:51-61 | a header with any one byte damaged is not taken for a header |
| `Checksums.TableStep` | common/crc32.hpp:14-26 | eight steps of the bit-by-bit checksum are one look-up by the low byte and a shift |
| `Checksums.MakeTable` | common/crc32.hpp:14-26 | each entry of the table is eight bit steps of its index |
| `Checksums.Crc32` | common/crc32.hpp:35-42 | the byte-at-a-time loop over the table computes the bit-by-bit checksum of any data |
| `Checksums.CheckValue` | common/crc32.hpp:34 | the checksum of "123456789" is 0xCBF43926 |
| `Journal.RecordsNumbered` | sequencer/journal_reader.hpp:237-241 | in a sound directory the complete records are numbered 1, 2, 3, ... |
| `Journal.NextExact` | sequencer/journal_reader.hpp:56-70 | each call delivers the next record if there is one and otherwise says how the journal ends; never corruption, a gap or a repeat |
| `Journal.JournalReader.OpenNextSegment` | sequencer/journal_reader.hpp:188-196 | the next segment whose header is complete and valid, skipping others |
| `Journal.JournalReader.ReadNext` | sequencer/journal_reader.hpp:56-70 | the loop over segments is the recursive reader on any readable directory |
| `Readings.ReadsSound` | recovery/recovery_manager.hpp:71-99 | reading a sound directory from the start yields every complete record once and in order, and ends cleanly or at the newest segment's torn tail, at the place to resume |
| `Readings.ReadAllMore` | sequencer/journal_reader.hpp:56-70 | reading on past the first segments continues where reading them alone came to their end, and ends with them otherwise |
| `Readings.GapReads` | sequencer/journal_reader.hpp:237-241 | a sound journal followed by a segment whose numbers break off is read up to the break and reported corrupt there |
| `Readings.ReadJournal` | recovery/recovery_manager.hpp:71-91 | the loop of calls over any directory, sound or not, is the recursive reading of it: same records, same final place, same result |
| `Durability.StepKeeps` | sequencer/journal_writer.hpp:48-155 | while every older segment is durable to its last byte, opening, writing, syncing, crashing with each file cut anywhere behind its own last sync, and recovering without any sync keep the directory sound and every acknowledged record in it |
| `Durability.JournalSurvives` | sequencer/journal_writer.hpp:48-155 | after any history in which that stays so the journal reads back as records 1 to n, and every record ever acknowledged is among them unchanged |
| `Durability.PowerLossSurvives` | sequencer/journal_writer.hpp:72-155 | it stays so, and no acknowledged record is ever lost, in every history whose crashes all lose what was not synced |
| `Durability.CrashSafeIff` | sequencer/journal_writer.hpp:72-155 | in every reachable state, every crash leaves the journal readable with all acknowledged records if and only if every older segment is durable to its last byte |
| `Durability.RecoverReads` | recovery/recovery_manager.hpp:93-99 | the number recovery resumes under, and the place and counter in a torn segment, are what reading the directory ends with |
| `Restarts.RestartLosesAck` | runtime/shard.hpp:68-87 | from any state with a complete but unsynced newest segment: a restart, a record acknowledged in a new segment, then a power loss that takes the unsynced record, and reading stops in front of the acknowledged record as corrupt |
| `Restarts.LossHappens` | runtime/shard.hpp:68-87 | such a state, and such a loss, is reached from an empty directory |
| `Restarts.ResumeIff` | runtime/shard.hpp:68-78 | the journal stays readable after recovery if and only if the writer resumes under the journal's own last number; otherwise reading from the start delivers exactly the old records and stops at the new one as corrupt |
| `JournalWriters.JournalWriter.Append` | sequencer/journal_writer.hpp:74-100 | the next number: one record more at the end, in a new segment exactly if none is open or the open one has no room; synced per record it is durable when acknowledged, in groups exactly the last of a group syncs; no file is left behind unsynced; a segment outgrows its limit only for a single record. Any later number: reading delivers the old records and stops at the new one as corrupt |
| `JournalWriters.WrongNumber` | sequencer/journal_writer.hpp:74-100 | a record under a number past the next one, in the open segment or a new one, ends the journal there as corrupt |
| `JournalWriters.JournalWriter.OpenSegment` | sequencer/journal_writer.hpp:127-155 | a new segment, or the newest truncated if it has that name, its header durable and nothing else changed |
| `JournalWriters.JournalWriter.ResumeFrom` | sequencer/journal_writer.hpp:48-70 | the torn tail goes, every complete record stays, and nothing becomes durable by it, whatever number is handed over |
| `Tailer.TailExactIff` | sequencer/journal_tailer.hpp:62-95 | however the writer moves before and during a call, it delivers exactly the next record or none yet, if the segment it has to find again is the first with its counter; if not, it delivers nothing and reports corruption or is stuck |
| `Tailer.StuckStays` | sequencer/journal_tailer.hpp:62-95 | a tailer stuck past the end of the wrong segment never delivers again, however the journal grows |
| `Tailer.TailProgressIff` | sequencer/journal_tailer.hpp:63-76 | a call after "not yet", with an unread record in the journal when it began, delivers one if and only if no earlier segment has the counter of the segment it stopped in |
| `Tailer.ResumesIff` | sequencer/journal_tailer.hpp:50-54 | a tailer started from a checkpoint goes on right behind what the old one delivered if and only if no earlier segment has the checkpoint's counter |
| `Tailer.TailRunExact` | sequencer/journal_tailer.hpp:62-95 | over any run of calls against a growing journal that find their segments the deliveries are precisely the records between the first and last mark, in order |
| `Tailer.DistinctSeeks` | sequencer/journal_reader.hpp:139-155 | if no two segments have the same counter, every call of a run finds its segment |
| `Tailer.SeekFinds` | sequencer/journal_reader.hpp:139-155 | seeking reopens the very segment of the checkpoint if and only if no earlier one has its counter |
| `Tailer.RestartRepeatsCounter` | recovery/recovery_manager.hpp:93-99 | after a restart from a clean end the new segment has the counter of the journal's first, and seeking for it reopens that one |
| `Tailer.JournalTailer.SeekTo` | sequencer/journal_reader.hpp:139-155 | the loop over segments is the recursive search |
| `Tailer.JournalTailer.Poll` | sequencer/journal_tailer.hpp:62-95 | the call as above, on the tailer's own fields |

## Left out

- OrderIdMap.Table.Erase: asks for a free slot when the key is present; without one the code does not stop, as `OrderIdMap.WalkStopsIff` states.
- OrderBooks.OrderBook.CancelEx: takes the order out of map and pool and then reports the emptied level, where the code reports first; neither effect reads the other.
- OrderBooks.OrderBook.RestoreResting: asks for a price in range; for any other the code indexes past its array of levels.
- Recovery.Recover: asks the same of the snapshot's prices.
- JournalWriters.JournalWriter.Append: asks for a number past the journal's last; the sequencer never issues another.
- Durability.StepKeeps: a failing write or sync stops the writer, as in the code, and appears as a crash. A cut is a prefix of the file; bytes cut off by a truncation do not come back, and a new file's name is durable once its header is synced.
- Tailer.JournalTailer.Poll: one call sees one directory for its rescan and one for its read, and the writer moves between the two, not within either. The torn tail that a restart cuts off under a running tailer is not covered.
- Mirrors.MirrorOfRun: like the results on market data, on the two threads and on replay, about commands whose limit prices lie on the tick grid; `OffGrid` says which others match alike.
- 64-bit wrap-around of sequence numbers, ring cursors, quantities and totals: they are mathematical integers.
- Weak memory: the rings and the pipeline interleave atomic steps in one order seen by all threads; acquire and release orderings are not modelled.
- The rings and the sequencer are state machines over their steps and not classes, so aliasing inside a slot is not captured beyond the words of a slot.
- Checksum collisions: a single damaged byte is always noticed; that damage to several bytes is noticed is not claimed.
- The bytes of a snapshot file, its checksum, pruning, and choosing the newest valid file.
- Digests as hash values: mirror, snapshot and replay are compared as states, which is stronger.
- What a mirror shows after its consumer was lapped and before it resynchronises.
- Reading without acknowledging on a gating consumer.
- The byte encoding of market-data messages; the protocol proofs cover the order-entry messages.
- The audit trail's rows and database, the admin and HTTP servers, sessions and sockets, encryption, the gateway's routing and risk checks, configuration, metrics and benchmarks.
