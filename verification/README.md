# lmax-bench: the matching core, verified

This project models the matching pipeline of the LMAX benchmark (a deterministic workload generator,
a single-producer/single-consumer ring, and a price-time limit order book written several ways) and
proves that its parts do what the repository says of them. `dafny verify dfyconfig.toml` checks it all.

## How the model is laid out

* **Reference book** (`EagerBook`, `PriceTime`): each side is the list of its live orders, best price
  first and first come first served; a cancelled order is deleted at once. Matching is also given a
  declarative price-time specification that has exactly one solution, and `FillPrices` says in prices alone
  what every fill owes the taker and the orders that rest.
* **Lazy book** (`LazyBook`): what every engine really keeps. Queues of ids, an id store, and tombstones
  that stay queued until matching steps over them. It carries the list of trades, so fills are compared
  as sequences and not only as counts. `LazyEager` shows that it simulates the reference book, `IdReuse`
  and `Twins` exactly when it does not, `Ledger` what is conserved and what matching costs, `Priority`
  that the order of a queue is (price, id) order. `ReplacingBook` is the same book for the engines whose
  id store assigns where the idiomatic C++ one inserts, so that a live id used again loses its record, and
  `TakeOver` says exactly when the two kinds of store part.
* **Engines**: `IdiomaticBook` (ordered map of deques and an id map), `TunedBook` (price ladders with best
  pointers, head indexes and an array of orders, quantity 0 meaning dead) and `TwoIndexBook` (the Go
  book, whose price set and level map are kept in step by hand) are classes updated in place. Each
  method's postcondition equates its new abstract state with the lazy (or replacing) book's function.
  `Levels` and `Ladder` hold the abstraction from levels and ladders to queues. The fill and volume
  counters wrap at 64 bits. `Engines` runs whole streams and two engines side by side; `EngineReports` says
  what each kind of engine reports.
* **Words and checksum** (`Words`, `SplitMix`, `Checksum`, `FoldOrders`, `Reports`): 64-bit words are numbers
  below 2^64 with xor, and, shifts and wrapping arithmetic spelled out.
* **Generator** (`Workload`, and `JavaWorkload` on signed words; `ReferenceSeed` works out the first draw and
  the first operation of seed 42).
* **Ring** (`Ring`, `RingSafety`, `RingDrains`, `RingProgress`, `RingLiveness`, `RingClaims`): a transition system in which every cursor
  load, slot-field write, slot-field read and cursor store is a step of its own. A cursor load may return
  any value from the last one its thread saw up to the current one. Two switches choose the cached or the
  plain claim, and the batch drain or one event at a time; ring size and the consumer's book are
  parameters. `RingSafety.NoRace` shows that no slot is written while it may still be read, which is what
  lets slot fields be modelled as plain memory. There the cursors count without bound; `RingWords` is the
  machine with 64-bit cursors, masked slots and tests on words, and relates its runs to the unbounded ones.
* **Pipeline** (`Pipeline`): all of it together.

## Where the code and its documentation differ

* `CONFORMANCE.md` (section 3) says that removing a cancelled id eagerly is always equivalent. That is
  false when an id is used again while a queue still holds it, which the generator never does.
  `IdReuse.ReuseTradesDifferently` (an id used again after its cancel) and `IdReuse.TwinTradesDifferently`
  (a live id submitted again) are streams on which the two strategies part. `IdReuse.StreamExact` gives the
  exact condition for any stream, order by order, in terms of the book that the order meets. Both
  strategies show the same after every operation if and only if each limit order gets to no id that has
  a second place in the queue, and: it can be filled whole, or its id is queued nowhere but on the opposite
  side at prices that cross, or what is left of it repeats a live order of its side, id, price and quantity.
  `ReplacingBook.StreamExact` shows that the same condition decides for the engines that assign.
* `cpp/tuned.hpp` (lines 10-17) promises the results of the idiomatic book on the same stream. The one
  inserts into its id store, the other assigns, and that promise is false when a live id is used again:
  `TakeOver.StoresPart` is a stream after which one store holds (10, 1) and the other (9, 5), and the next
  taker trades 1 in the one book and 5 in the other. `TakeOver.StreamSplitsExact` gives the exact condition:
  the books are the same after every operation if and only if no limit order comes to rest under a live id
  whose record is not what would be left of the order. An order comes to rest under a live id exactly if that
  id is not among the ids at crossing prices opposite and the quantity exceeds what their records offer, each
  once. The tuned engine counts every such order as one more resting, so its resting count is right
  throughout if and only if there is none (`TakeOver.TakeOversExact`).
* The batch consumer compares cursors with `<` where the other tests use differences or equality. With
  2^64 messages or more that goes wrong in every complete run (`RingClaims.OrderedTestRight`), and on
  64-bit cursors the consumer then never gets to its report (`RingWords.WordReportExact`). The one-at-a-time
  consumer has no such bound.

## Model

| member | source | states |
|---|---|---|
| EagerBook.MatchIsPriceTime | cpp/book.hpp:34-74 | The price-time rules for a fill (a prefix of the crossing orders whole, at most one more in part and still at the head, min(qty, crossing quantity) in all) have exactly one solution, and matching computes it |
| EagerBook.MatchFillsPrefix | CONFORMANCE.md:64-75 | Names how many orders are filled whole and how much of the next one |
| PriceTime.LimitObeys | cpp/book.hpp:34-74 | One limit order on a book with tombstones fills by the price-time rules, rests exactly the remainder behind its equals and ahead of everything worse, and changes no other live order: under any id, for any quantity, exactly on the condition of IdReuse.ReuseExact; so always under an id that is not queued, if no id has two places in the queues |
| PriceTime.RulesAreComplete | CONFORMANCE.md:64-77 | Those rules leave room for only one resulting book |
| FillPrices.LimitIsFair | cpp/book.hpp:34-74 | In prices alone, for any id, quantity and kind of id store: a bid never pays more than its limit and an ask never gets less; fills go from the best price on and none is worse than a price that is left; an order rests only when no price opposite is one it can afford |
| FillPrices.RunIsFair | cpp/tuned.hpp:56-110 | So for every order of every stream, and cancels fill nothing |
| FillPrices.ReferenceRunIsFair | CONFORMANCE.md:64-77 | And for the book that deletes at once |
| LazyBook.RunKeepsOrder | cpp/book.hpp:34-74 | After every stream at all, with any ids: both queues are in price order and best bid is below best ask, tombstone levels included |
| LazyEager.LazyIsEager | CONFORMANCE.md:78-84 | For every stream with fresh ids the lazy book, dead ids filtered out, shows the live orders and the trade log of the book that deletes at once; each live id sits in exactly one queue at its recorded price |
| LazyEager.LimitSimulates | cpp/book.hpp:34-74 | One limit order under an id no queue holds keeps the book well-formed and steps the view as the reference book steps |
| LazyEager.CancelSimulates | cpp/book.hpp:76-76 | Dropping an id from the id store alone shows as deleting the order |
| IdReuse.ReuseExact | CONFORMANCE.md:78-84 | For every limit order, whatever its id and quantity, the lazy step shows the reference step if and only if a condition on the book before it holds |
| IdReuse.StreamExact | CONFORMANCE.md:78-84 | Over every stream both strategies show the same after each operation if and only if each limit order meets that condition |
| IdReuse.SafeStreamExact | CONFORMANCE.md:78-84 | The same with, besides, one place in the queues for every id: then and only then each order can be filled whole or finds its id queued nowhere but at opposite prices that cross |
| IdReuse.FreshIsSafe | CONFORMANCE.md:78-84 | Fresh ids meet that condition |
| Twins.SweepParts | cpp/book.hpp:47-64 | Filling an id that has a second place in the queue makes trades or opposite side differ from the reference book in a way that no resting order can undo |
| ReplacingBook.ReuseExact | go/book.go:97-109 | The same condition decides for an engine whose id store assigns |
| ReplacingBook.StreamExact | go/book.go:46-109 | And over every stream |
| TakeOver.SplitsExact | cpp/tuned.hpp:98-109 | On any book whatever, assigning and inserting come out different if and only if a condition on the book before the operation holds |
| TakeOver.StreamSplitsExact | cpp/tuned.hpp:10-17 | Over every stream the two kinds of store keep the same book after each operation if and only if no operation meets that condition |
| TakeOver.TakeOversExact | cpp/tuned.hpp:107-108 | Over every stream no order is counted twice if and only if none comes to rest under a live id, with whatever record; and then the books are the same throughout |
| TakeOver.SweepReach | cpp/book.hpp:34-68 | Matching leaves a rest exactly if asked for more than the records at crossing prices offer, each once, even where an id has several places; then it empties exactly those records |
| TakeOver.StoresPart | cpp/tuned.hpp:10-17 | A stream that uses a live id again: different records, a double count, and then different volumes |
| ReplacingBook.RunKeepsOrder | go/tuned.go:83-107 | After every stream at all the books that assign are in price order and uncrossed, too |
| IdReuse.ReuseTradesDifferently | cpp/book.hpp:69-76 | A stream that reuses a cancelled id and makes the two strategies trade differently |
| IdReuse.TwinTradesDifferently | cpp/book.hpp:69-72 | A stream that repeats a live order exactly: the views agree at first, and part at the first fill |
| Ledger.Conservation | cpp/book.hpp:52-76 | Submitted quantity = 2 x volume + live quantity + cancelled quantity; orders ever rested = live + cancelled while live + filled out; over every run of safe orders, fresh ids among them |
| Ledger.AmortisedCost | cpp/book.hpp:47-73 | Over any run at all, fills + tombstones stepped over + ids still queued never exceed the limit orders submitted, whether the id store inserts or assigns |
| Ledger.ReportBalances | CONFORMANCE.md:84-89 | On safe orders the reported volume is half of what was submitted and is neither at rest nor cancelled, the resting count is what ever rested less what was cancelled or filled out, and fills lie between orders filled out and limit orders submitted |
| Priority.QueuesAreFifo | cpp/workload.hpp:53-53 | With increasing ids every queue is in id order within a price |
| Priority.LiveOrdersDetermineBook | cpp/book.hpp:78-98 | Two runs that leave the same live orders have the same priority order, resting count and checksum, whatever tombstones they carry |
| Reports.RestingIsLive | cpp/tuned.hpp:98-118 | The id store is exactly the live orders of the two queues, each once, so its size is the resting count |
| Reports.LiveSorted | CONFORMANCE.md:90-97 | Folding levels by ascending price with dead ids skipped is folding the live orders stably sorted by price |
| Reports.ReportIsEager | CONFORMANCE.md:84-97 | Fills, volume, resting count and checksum of the lazy book are those of the reference book, over every stream of safe orders |
| Reports.ChecksumSeesQuantity | cpp/book.hpp:80-98 | Two books of any size that differ in one live order's quantity never share a checksum |
| Reports.ChecksumSeesPrice | cpp/book.hpp:86-90 | Nor do two whose records of one live order differ in the price, from 0 to below 2^44 |
| FoldOrders.ChecksumSeesId | cpp/book.hpp:86-90 | Nor do two that differ only in the id of one live order |
| FoldOrders.ChecksumOrder | CONFORMANCE.md:90-97 | The checksum is the fold from 0 of the bids and then the asks, each by ascending price and first come first served at a price; said without sorting, and there is only one such arrangement |
| Checksum.FoldSeesQuantity | cpp/book.hpp:80-98 | The same for any list of orders folded into the checksum |
| Checksum.HashSeedBits | CONFORMANCE.md:95-97 | Each bit of an order's seed is the parity of that bit of the accumulator, the id, the price times 2^20 modulo 2^64, and the quantity |
| Checksum.HashShowsSeed | CONFORMANCE.md:95-97 | A hash, un-mixed, is that seed plus the increment: one draw of a generator in that state |
| Checksum.HashPriceExact | cpp/book.hpp:86-90 | Two prices of an order hash alike exactly if they agree in their low 44 bits |
| SplitMix.MixIsBijective | cpp/workload.hpp:12-18 | The output function has a two-sided inverse on 64-bit words |
| SplitMix.FullPeriod | cpp/workload.hpp:12-18 | From any seed two draws agree exactly when they are a multiple of 2^64 apart |
| SplitMix.SplitMix64.Next | cpp/workload.hpp:12-18 | The imperative draw advances the state and returns the output function of the old one, which un-mixed is the new state |
| SplitMix.DrawShowsState | cpp/workload.hpp:12-18 | A draw, un-mixed, is the state plus 0x9E3779B97F4A7C15: the increment comes before the mixing |
| ReferenceSeed.FirstDraw | CONFORMANCE.md:16-28 | The first draw from seed 42 is 0xBDD732262FEB6E95 |
| ReferenceSeed.FirstOperation | CONFORMANCE.md:33-55 | The first operation from seed 42 is a bid for 3 at 980 under id 1 |
| Levels.PushInserts | cpp/book.hpp:71-71 | Appending to a level queues behind everything at its price or better on the whole side |
| Levels.PopBest | cpp/book.hpp:36-63 | Popping the best level's front pops the side's front |
| Levels.LevelsOfEntries | cpp/book.hpp:22-23 | A side's queue determines its levels |
| Levels.WalkAscending | cpp/book.hpp:82-94 | Walking the levels by ascending price is the stable sort of either side's queue |
| IdiomaticBook.Book.Limit | cpp/book.hpp:34-74 | The nested loops over the ordered map compute the lazy book's limit, for any arguments, and fill within the order's limit price |
| IdiomaticBook.Book.Cancel | cpp/book.hpp:76-76 | Cancel removes from the id map and touches no queue |
| IdiomaticBook.Book.ChecksumOf | cpp/book.hpp:80-98 | The two nested loops compute the checksum of the lazy book |
| TunedBook.TunedBook.Limit | cpp/tuned.hpp:56-110 | The in-place loops over ladder, pointers and order array compute the replacing book's limit for any id and fill within the order's limit price; both pointers stay exact, best bid stays below best ask and empty levels stay cleared; an order that takes over a live record is counted once more; asked only that a residual finds its price on the ladder and its id in the array |
| TunedBook.TunedBook.MatchHead | cpp/tuned.hpp:64-81 | One turn of the inner loop is one step of the lazy sweep |
| TunedBook.TunedBook.Settle | cpp/tuned.hpp:82-96 | Clearing a used-up level and scanning on restores an exact best pointer and changes nothing queued |
| TunedBook.TunedBook.NextAsk | cpp/tuned.hpp:85-90 | The upward scan ends at the lowest occupied ask level, or at the value for none |
| TunedBook.TunedBook.Cancel | cpp/tuned.hpp:112-118 | Zeroing a live slot removes one order and one from the live count; a dead slot is left alone |
| TunedBook.TunedBook.ChecksumOf | cpp/tuned.hpp:120-138 | The walk up both ladders computes the same checksum |
| TunedBook.TunedBook.PointersUncrossed | go/tuned.go:83-107 | Exact pointers satisfy best bid < best ask if and only if the queues do not cross, tombstones included; every state that the methods reach satisfies it, whatever the ids |
| Engines.SameAbsAgree | cpp/tuned.hpp:10-17 | Equal abstract books mean: each occupied ladder suffix is the matching deque, nonzero slots are the id map, counters agree |
| Engines.ApplyBoth | cpp/tuned.hpp:10-17 | After any operation on both engines they agree in that sense if and only if it does not split the stores, a condition on the book before it |
| Engines.DriveBoth | cpp/tuned.hpp:10-17 | So they do over whole streams without a split, and the tuned engine counts exactly the orders that overtook a live one once more |
| Engines.RunBoth | CONFORMANCE.md:78-97 | Over every stream that fits the ladder and in which no order overtakes a live one both engines report the same, and on safe orders what the reference book reports |
| Engines.RunGenerated | CONFORMANCE.md:112-114 | So they do for the generator's stream from every seed, at every length |
| Engines.RunTwoIndex | go/book.go:46-139 | On every stream at all the Go book reports the replacing book's numbers |
| Engines.RunTuned | cpp/tuned.hpp:56-138 | On every stream that fits the ladder so does the tuned engine, but for resting, which is higher by the number of orders that took over a live record |
| EngineReports.SafeReports | CONFORMANCE.md:78-97 | On safe orders what any kind of engine reports is what the reference book reports |
| EngineReports.NoneOvertakesReports | CONFORMANCE.md:84-97 | All kinds of engine report the same wherever no order overtakes a live one |
| Engines.StreamFitsLadder | cpp/tuned.hpp:52-118 | The generator keeps every ladder and order-array index in bounds and emits safe orders only |
| TwoIndexBook.Book.Limit | go/book.go:46-110 | The loops over price set and level map compute the replacing book's limit, for any arguments, and fill within the order's limit price; price set and level map stay in step and no stored level is empty |
| TwoIndexBook.Book.ChecksumOf | go/book.go:122-139 | Ascending over the price set computes the checksum |
| FlatLevelArray.GrowingLevel.Push | java/src/main/java/bench/FlatLevel.java:10-13 | Pushes on the ladder level that the array stands for; the array is replaced only when full, by one twice as long |
| Workload.StreamInBounds | cpp/workload.hpp:38-63 | Every prefix of every stream: mid in [500,1500], prices in [480,1520], quantities in [1,100], limit ids 1,2,3,..., cancels name 0 or an id already issued |
| Workload.StreamIsFresh | cpp/workload.hpp:53-53 | No two limit orders share an id, and ids increase |
| Workload.Gen.NextOp | cpp/workload.hpp:38-63 | The imperative generator takes the functional generator's step and does what its draw decides |
| Workload.NextDrawFollows | cpp/workload.hpp:38-63 | In numbers alone, what a draw decides: whether and how the mid moves, limit order or cancel, side, distance from the mid and on which side of it, size, id, and which order a cancel names |
| Workload.FollowsOnce | cpp/workload.hpp:38-63 | That leaves nothing else to decide |
| Workload.StreamFollows | CONFORMANCE.md:33-55 | From every seed the mid starts at 1000, ids at 1, and operation i of the stream is what draw i decides |
| Workload.Generate | cpp/workload.hpp:38-63 | Its first n operations are the stream |
| JavaWorkload.MixBits | java/src/main/java/bench/SplitMix64.java:9-15 | Signed multiplication, xor and logical shift give the bits of the unsigned mix |
| JavaWorkload.JavaGen.NextOp | java/src/main/java/bench/Workload.java:20-45 | One signed step mirrors one unsigned step and does what its draw decides |
| JavaWorkload.Generate | java/src/main/java/bench/Workload.java:20-45 | From every seed the signed generator emits the unsigned one's stream, while ids fit a signed word |
| Words.XorBitwise | CONFORMANCE.md:16-17 | Xor on numbers acts bit by bit |
| Words.AndBitwise | cpp/ring.hpp:42-42 | And on numbers acts bit by bit |
| Words.ShrBitwise | CONFORMANCE.md:16-17 | A right shift by k moves every bit down by k places, filling with zeros |
| Words.MaskIsRemainder | cpp/ring.hpp:19-25 | Masking with 2^k - 1 is the remainder by 2^k |
| RingSafety.RunKeepsInv | cpp/ring.hpp:35-46 | Every state of every interleaving: consSeen <= cons <= taken <= avail <= prodSeen <= prod <= consSeen + N, every unreleased message intact in its slot |
| RingSafety.NoRace | cpp/ring.hpp:35-46 | The slot being filled is none the consumer may still read, the late read of the stamp included |
| RingDrains.RunDrains | go/harness.go:60-79 | In every state of every run the one-at-a-time drain is at most one message ahead of what it has released, the batch drain is after exactly what it last saw published, and a cached producer waits on the shared cursor only when its own copy says full |
| RingDrains.Releases | cpp/main.cpp:98-127 | So each release hands back exactly one slot, or exactly the batch that was seen |
| RingDrains.CacheSavesLoads | cpp/ring.hpp:28-33 | With the cache the shared cursor is loaded only when the cached one says that the ring is full |
| Pipeline.DeliversInOrder | cpp/main.cpp:98-127 | Whatever book the consumer owns, it has been given a prefix of the events, each once, in order and unmodified, and a report comes only after all of them |
| Pipeline.OutParametersFillSlot | cpp/main.cpp:146-153 | The slot gets the generator's out-parameters field by field |
| Pipeline.ReportIsDeterministic | cpp/main.cpp:95-158 | Under every interleaving, with any of the engines, either drain, either claim, any ring size and pacing, the report is that engine's for all operations in order, and on safe orders the reference book's |
| Pipeline.AnyTwoRunsAgree | go/harness.go:58-114 | So two runs over the same operations, say one with the batch drain and one with the one-at-a-time drain, report the same, and do so with different engines where no order overtakes a live one |
| Pipeline.GeneratedReportIsDeterministic | go/harness.go:49-115 | For the generator's stream that report is the reference book's with any of the engines, a function of seed and length alone |
| Pipeline.MachineReportIsDeterministic | cpp/main.cpp:95-158 | The same for the machine with 64-bit cursors, at every length |
| Pipeline.EveryRunCanReport | cpp/main.cpp:98-158 | Every run extends to one in which both threads have finished and that report has been given |
| Pipeline.FinishedReports | cpp/main.cpp:113-118 | A consumer that has returned has left that report |
| RingProgress.AlwaysAMove | cpp/main.cpp:98-158 | Until both threads are done, one of them has a step that is not spinning, so there is no deadlock |
| RingProgress.StepWorks | cpp/main.cpp:98-158 | Spinning leaves a natural-number measure alone and every other step lowers it |
| RingProgress.RunsAreShort | cpp/main.cpp:98-158 | At most 20 steps a message and 10 more are not spinning |
| RingProgress.CanFinish | cpp/main.cpp:98-158 | From any point of any run both threads can get to their end |
| RingLiveness.EventuallyFinished | cpp/main.cpp:98-158 | In every infinite history in which no thread is left out for ever and every cursor store is seen sooner or later, both threads get to their end and the report is that of all operations |
| RingLiveness.HistoryExists | cpp/main.cpp:98-158 | Every run is the start of such a history |
| RingProgress.ProducerMoves | cpp/ring.hpp:35-46 | With an up-to-date cursor the producer spins exactly when the ring is full |
| RingClaims.CachedRefinesPlain | go/ring.go:37-43 | Each step of the ring with the cached cursor is a step of the plain ring, or invisible to it |
| RingClaims.ClaimIsSound | cpp/ring.hpp:35-43 | A slot is claimed only if the current consumer cursor allows it, however old the cached one is |
| RingClaims.WrappedTestsAgree | go/ring.go:37-47 | With cursors modulo 2^64 and 2^k slots, the difference test, the masked slot and the equality wait decide as unbounded cursors would, in every reachable state |
| RingClaims.OrderedTestRight | cpp/main.cpp:104-107 | In a complete run the batch loop's ordered test on words is right at every turn if and only if there are fewer than 2^64 messages |
| RingClaims.OrderedTestFails | cpp/main.cpp:104-107 | With 2^64 or more, every complete run has a turn at which it is wrong |
| RingClaims.OrderedTestAgrees | cpp/main.cpp:104-107 | It is right in every reachable state of a run with fewer than 2^64 messages |
| RingWords.RunWraps | cpp/ring.hpp:28-46 | Every run of the unbounded ring, modulo 2^64, is a run of the machine with 64-bit cursors and a mask (batch drain: fewer than 2^64 messages) |
| RingWords.RunUnwraps | cpp/ring.hpp:28-46 | Every run of that machine is a run of the unbounded ring modulo 2^64 |
| RingWords.WedgedStays | cpp/main.cpp:98-118 | A batch drain whose cursor word has been overtaken by the wrap stays where it is for ever |
| RingWords.WordReport | cpp/main.cpp:98-118 | A report that the machine gives is that of all operations in order |
| RingWords.WordReportExact | cpp/main.cpp:98-118 | The machine can report if and only if it drains one event at a time or has fewer than 2^64 messages |

## Left out

- Timing, pacing, latency samples and percentiles: a stamp is data that an event carries, and the consumer records it.
- Thread pinning, environment variables, command-line modes, printing and allocation counters have no functional property.
- The Java and Rust Disruptor transports are library code; only the in-tree rings are modelled.
- The Rust tuned book (ladder plus map) and the Java books are not modelled as classes of their own: the former combines TunedBook's ladder with an id map that assigns, as TwoIndexBook's does; the latter keep records as shared objects with the same effect.
- Internals of ordered maps, B-trees and hash maps: finite maps and sets with a best key.
- TunedBook keeps price and quantity of an order in one array, as the C++ version does, where the Go and Java versions keep two; the value that stands for an empty ask side is a parameter.
- After the books have parted nothing is said of how they go on, other than that each engine computes its own specification.
- TwoIndexBook keeps a level as a value in its map where Go stores a pointer that only the map holds, so aliasing is not captured.
- Prices, quantities and ids of orders are unbounded integers: the code only compares, subtracts the smaller from the larger and casts them, and the casts are modelled in the checksum.
- Each load or store in the ring is atomic and slot fields are sequentially consistent; weaker orders show only as stale cursors, which NoRace justifies.
