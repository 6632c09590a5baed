# A verified model of a single-writer limit-order-book exchange

The exchange matches orders in one thread and surrounds that thread with queues: sessions
decode bytes into commands, the matching engine answers them, a recorder logs the accepted
ones, and a feed publishes depth. This project models each of those parts and proves what
they promise, for all inputs, all runs and all interleavings, and then composes them.

`dafny verify dfyconfig.toml` checks the whole project.

## How it is built

| files | what they hold |
|---|---|
| `types`, `bits`, `bytes`, `fnv` | domain values (64-bit quantities that are never zero, positive prices), bitwise operations, little-endian integers, the FNV-1a step |
| `book_spec` | what an order book computes: per side one priority list, best price first, arrival order inside a price |
| `book_invariant`, `book_effects`, `book_priority`, `book_optimality`, `book_conservation`, `book_levels`, `book_limits` | theorems about that specification, over single commands and whole runs |
| `ladder`, `store_steps`, `book_queries`, `book_digest`, `book_canon`, `order_book` | the stored form: price ladders of node lists, an arena of nodes with stable handles, an index by id, cached 64-bit totals, a counter; and the class `OrderBook` proved to refine the specification |
| `reference_spec`, `refinement`, `differential`, `reference_book` | the flat-vector oracle, its refinement relation to the priority lists, and the differential driver |
| `spsc` | the lock-free ring as a machine of single loads, slot accesses and stores, with 64-bit and with unbounded counters |
| `wire`, `wire_buffers`, `outbound`, `wire_layout` | headers, inbound and outbound codecs, the in-place encoder and decoder, and the formats by offset and value |
| `event_log`, `replay` | records, checksums, the writer, and replay into a book |
| `recorder`, `recording` | service, bounded capture queue and log file together: turns and drains in any order, and the replay of the file they leave |
| `session_reader`, `session_objects` | the reader of one session over an arbitrary byte stream |
| `service_spec`, `service_ownership`, `service_grammar`, `service`, `service_feed` | the matching service, the owner table, the outbound grammar, the service class between its queues, and what it makes a subscriber show |
| `market_data`, `market_data_objects` | the feed, the subscriber and the bounded queue between them |

Modelling choices a reader should know:

- A list iterator is a node handle into an arena, so that the index, the lists and the arena
  agree is a proof obligation at every step, not an assumption. Two price maps are sequences of
  levels in the maps' own order.
- A level total is an unsigned 64-bit sum and is reduced modulo 2^64 where the code adds or
  subtracts. `validate_invariants` reports true exactly when no level's total reads zero
  (`ValidateInvariants`); two resting orders of 2^63 units at one price make it read zero
  (`TotalsCanVanish`), and below 2^64 units per level it never does (`SumsThatFitRead`). Where
  the code would dereference an empty optional for such a level, the model yields a quote of
  zero units.
- The oracle breaks ties by sequence number, the book by arrival. They agree on every run with
  non-decreasing sequence numbers (`BookRefinesReference`), and from a given state they agree on
  all such continuations if and only if every level is in sequence order (`SequenceOrderIsExact`).
- Acquire and release accesses of the ring are sequentially consistent steps. The ring's popped
  slot keeps an arbitrary value after the move. `full()` and `empty()` load the two indices one
  after the other: they are exact for the producer and for the consumer (`OwnThreadsSeeExactly`),
  and a third thread can be told "full" about an empty ring (`OthersCanBeMisled`).
- A file is a byte sequence; a write may fail after any number of bytes. A socket is a stream of
  bytes that arrive in any chunks.
- The blocking push to the outbound queue is an append to a sequence, because it retries until
  it succeeds.
- Integer readers combine bytes with a bitwise or of disjoint bytes; the model adds them.
- `docs/protocol.md` line 39 says that every event of a command but the last carries the `more`
  flag. The code sends the resting side's copy of an execution unflagged, so this is false when
  one session fills another's order (`FlagIsMissing`); it holds exactly when every resting order
  the command fills belongs to the incoming session or to nobody (`FlagsAreExact`). What holds
  always is the grammar of each session's own stream (`StreamParses`).
- Session id 0 stands for "no owner" in the code, so an order entered under it is never
  reported to its owner. The model keeps that.

## Model

| member | source | states |
|---|---|---|
| `BookInvariant.ApplyKeeps` | src/order_book.cpp:146-240 | every command keeps the book invariant: sides sorted, ids distinct within and across sides, every resting id seen, best bid below best ask |
| `BookInvariant.RunKeeps` | src/order_book.cpp:23-240 | the invariant holds after every run |
| `BookInvariant.RejectedChangesNothing` | src/order_book.cpp:146-196 | a rejected command leaves the whole book unchanged, seen ids included |
| `BookInvariant.SweepShape` | src/order_book.cpp:30-59 | a match consumes a prefix of the contra list; only the order after the prefix can be filled in part, and then nothing of the incoming order is left |
| `BookEffects.LimitsAreKept` | src/order_book.cpp:29-62 | every execution of a limit order or a replace is at a price at most its limit for a buy, at least it for a sell; a cancel executes nothing |
| `BookEffects.ExecutionsNameTheTaker` | src/order_book.cpp:41-42 | every execution names the command's own order as the incoming one |
| `BookEffects.RefusalsAreExact` | src/order_book.cpp:146-197 | which commands are refused and why: a limit without price or a market order with one is invalid, an id accepted before is a duplicate, an id that does not rest is not found |
| `BookEffects.SeenIsExact` | src/order_book.cpp:152-158 | an id counts as seen exactly if a new order with it was accepted earlier in the run |
| `BookEffects.OthersOnlyTrade` | src/order_book.cpp:23-240 | every order a command is not about keeps side, price and sequence number, loses exactly the units the answer's executions took from it, and goes when nothing is left |
| `BookEffects.NewRestsAsAsked` | src/order_book.cpp:158-170 | an accepted new order rests with its side, limit, id, sequence and reported remainder, or not at all |
| `BookEffects.CancelRemoves` | src/order_book.cpp:173-187 | an accepted cancel reports what rested and removes it |
| `BookEffects.ReplaceRestsAsAsked` | src/order_book.cpp:189-240 | a replace at the same price and no larger size only resizes the order in place; any other leaves its residual as a new arrival |
| `BookEffects.SidesAreOrdered` | src/order_book.cpp:23-240 | in every reachable book bids fall, asks rise and every bid is below every ask |
| `BookLevels.DepthIsRanked` | src/order_book.cpp:272-301 | the quote at rank i is that of the price with exactly i better prices, with the 64-bit sum and the number of its orders; as many quotes as prices, up to the limit |
| `BookPriority.ExecutionsFollowPriority` | src/order_book.cpp:36-55 | execution k hits the k-th contra order in price-time priority, and all but the last exhaust it |
| `BookPriority.StepKeepsPriority` | src/order_book.cpp:36-115 | one command lets nobody ahead of an undisturbed order, and at its price only it and orders ahead of it trade |
| `BookPriority.TimePriority` | src/order_book.cpp:23-240 | over any run through which an order rests undisturbed it keeps its rank, and nothing queued behind it trades at its price |
| `BookPriority.ReplaceRank` | src/order_book.cpp:205-234 | a same-price non-increasing replace keeps the place; any other accepted replace with a residual goes behind everything at its new price |
| `BookPriority.NeverSelf` | src/order_book.cpp:221-234 | a replacement never trades with the order it replaces |
| `BookOptimality.MatchingIsOptimal` | src/order_book.cpp:23-92 | exactly min(quantity, contra units priced within the limit) trades, at a total price no other allocation of that quantity over the contra orders beats |
| `BookOptimality.ExecutionsMonotone` | src/order_book.cpp:23-92 | execution prices only get worse for the taker and resting ids are distinct |
| `BookConservation.VolumeIsConserved` | tests/property_test.cpp:323-354 | per side, over every run: entered = executed + cancelled + withdrawn + discarded + resting; what one side executes as taker is what the other side's resting orders lose, so bought equals sold |
| `BookConservation.MakersLose` | src/order_book.cpp:43-54 | the units the resting orders lose, order by order, add up to the executed quantities the answer reports |
| `BookConservation.EnterConserves` | src/order_book.cpp:159-170 | an entering order's quantity splits exactly into what trades and what rests or is discarded, and the contra side loses exactly what trades |
| `BookLimits.SumsThatFitRead` | src/order_book.cpp:256-327 | if every level sum is below 2^64, every quoted total is the true, non-zero sum |
| `BookLimits.TotalsCanVanish` | src/order_book.cpp:103-109 | two accepted bids of 2^63 units at one price make the level total read zero |
| `OrderBooks.OrderBook.FillFront` | src/order_book.cpp:37-54 | one fill's effect on arena, index, list, total and count |
| `OrderBooks.OrderBook.MatchLevel` | src/order_book.cpp:36-55 | the inner loop ends with the level or the order exhausted, having done its part of the sweep |
| `OrderBooks.OrderBook.MatchAgainstBook` | src/order_book.cpp:23-92 | the nested loops compute the sweep of the contra priority list and leave no empty level |
| `OrderBooks.OrderBook.InsertRestingOrder` | src/order_book.cpp:94-115 | inserts behind all orders at least as good, and keeps totals, index, nodes and count in agreement |
| `OrderBooks.OrderBook.RemoveRestingOrder` | src/order_book.cpp:117-144 | removes exactly that order and its level if it becomes empty, keeping the agreement |
| `OrderBooks.OrderBook.Submit` | src/order_book.cpp:146-171 | refines the specification's submit, rejections included |
| `OrderBooks.OrderBook.Cancel` | src/order_book.cpp:173-187 | refines the specification's cancel |
| `OrderBooks.OrderBook.Replace` | src/order_book.cpp:189-240 | refines the specification's replace, in place or by removal and re-entry |
| `OrderBooks.OrderBook.BestPrice` | src/order_book.cpp:242-254 | the best price of the side's contents |
| `OrderBooks.OrderBook.Top` | src/order_book.cpp:256-270 | price, 64-bit total and order count of the best level |
| `OrderBooks.OrderBook.DepthOf` | src/order_book.cpp:272-301 | the aggregates of the best levels of the contents, up to the limit |
| `OrderBooks.OrderBook.CopyDepth` | src/order_book.cpp:303-327 | both outputs hold the depth of their side and nothing after it |
| `OrderBooks.OrderBook.RestingOrderCount` | src/order_book.cpp:329-331 | the separate counter is the number of resting orders |
| `OrderBooks.OrderBook.ValidateInvariants` | src/order_book.cpp:333-395 | true exactly when no level's 64-bit total reads zero; every other check is guaranteed |
| `OrderBooks.OrderBook.Contains` | src/order_book.cpp:397-399 | index lookup is the same as resting in the contents |
| `OrderBooks.OrderBook.StateDigest` | src/order_book.cpp:401-423 | the hash loops compute the digest of the ordered contents, independent of storage |
| `BookCanon.DigestCovers` | src/order_book.cpp:401-423 | the digest is the FNV-1a hash of an explicit account: per side its number, its number of levels, and per level price, total, count and each order's id, sequence and units |
| `BookCanon.AccountDetermines` | src/order_book.cpp:401-423 | books with the same account have the same bids and asks, order for order |
| `BookCanon.SequenceMatters` | src/order_book.cpp:412-416 | changing one byte of one resting order's sequence number changes the digest |
| `ReferenceBooks.ReferenceOrderBook.FindBest` | tests/reference_order_book.hpp:244-277 | the scan computes the best candidate by price, then sequence |
| `ReferenceBooks.ReferenceOrderBook.Match` | tests/reference_order_book.hpp:237-302 | the scan-and-erase loop computes the flat match |
| `ReferenceBooks.ReferenceOrderBook.Process` | tests/reference_order_book.hpp:22-127 | submit, cancel and replace on the vector compute the flat specification |
| `ReferenceBooks.ReferenceOrderBook.BestPrice` | tests/reference_order_book.hpp:129-151 | the best-price scan computes the flat specification |
| `ReferenceBooks.ReferenceOrderBook.AggregateLevel` | tests/reference_order_book.hpp:304-318 | the scan adds up exactly the orders of one side and price |
| `ReferenceBooks.ReferenceOrderBook.Top` | tests/reference_order_book.hpp:153-167 | the best-price scan followed by the scan of that level computes the flat top quote |
| `ReferenceBooks.ReferenceOrderBook.DepthOf` | tests/reference_order_book.hpp:169-215 | the aggregation into a price map computes the flat depth |
| `Refinement.FlatMatchRefines` | tests/reference_order_book.hpp:237-302 | the oracle's match on the vector is the sweep of the contra priority list, and leaves the other side alone |
| `Refinement.ApplyRefines` | tests/reference_order_book.hpp:22-127 | one command with a large enough sequence number has the same effect and answer on both |
| `Differential.BookRefinesReference` | src/order_book.cpp:23-331 | on every run with non-decreasing sequence numbers the book gives the oracle's executions, rejections and residuals; best prices, top quotes, depth to any limit and counts agree |
| `Differential.DepthObserved` | tests/reference_order_book.hpp:169-215 | aggregating the flat vector by price gives the depth of the priority list |
| `Differential.TopObserved` | tests/reference_order_book.hpp:153-167 | the oracle's top quote is the head of the depth of the priority list |
| `Differential.TwoDiffer` | tests/reference_order_book.hpp:265-275 | with sequence numbers out of arrival order a one-unit market order tells the two books apart |
| `Differential.SequenceOrderIsExact` | tests/reference_order_book.hpp:265-275 | agreement on all further runs holds if and only if every level is in sequence order |
| `ReferenceBooks.CompareRun` | tests/differential_test.cpp:117-154 | driving both objects side by side and comparing every answer, best prices, the oracle's own top quotes, depth and count always agrees |
| `Spsc.QueueIsSafe` | include/low_latency_exchange/spsc_queue.hpp:47-97 | in every interleaving, across counter overflow: pushed = popped ++ content, at most Capacity elements, the threads never in one slot |
| `Spsc.PushUnderInterference` | include/low_latency_exchange/spsc_queue.hpp:47-59 | whatever the consumer does meanwhile, a push that finds room at its start succeeds, and a refused one met a full ring between its start and its end |
| `Spsc.PopUnderInterference` | include/low_latency_exchange/spsc_queue.hpp:85-97 | whatever the producer does meanwhile, a pop with an element present at its start takes the oldest, and a refused one met an empty ring between its start and its end |
| `Spsc.LoadsCompute` | include/low_latency_exchange/spsc_queue.hpp:111-122 | what `full` and `empty` answer on any thread, from the pushes at the first load and the pops at the second, modulo 2^64 |
| `Spsc.OwnThreadsSeeExactly` | include/low_latency_exchange/spsc_queue.hpp:111-122 | called by the producer, `full` and `empty` are exact at the second load; called by the consumer, at the first |
| `Spsc.OthersCanBeMisled` | include/low_latency_exchange/spsc_queue.hpp:111-122 | a third thread's `full` answers true on an empty ring when one element passes between its loads |
| `Spsc.RefusalsAreHonest` | include/low_latency_exchange/spsc_queue.hpp:49-54 | a push is refused exactly when the ring is full at the refreshing load; a pop exactly when it is empty |
| `Spsc.StepKeeps` | include/low_latency_exchange/spsc_queue.hpp:47-97 | every single step of either thread keeps the ring invariant despite stale cached indices |
| `Spsc.RunWraps` | include/low_latency_exchange/spsc_queue.hpp:48-95 | the ring with wrapping 64-bit counters does step for step what one with unbounded counters does |
| `Spsc.BoundedQueue.TryPush` | include/low_latency_exchange/spsc_queue.hpp:47-59 | while the consumer is between operations: succeeds exactly when there is room, and appends |
| `Spsc.BoundedQueue.TryPop` | include/low_latency_exchange/spsc_queue.hpp:85-97 | while the producer is between operations: succeeds exactly when there is an element, and removes the oldest |
| `Bits.PowerOfTwoTest` | include/low_latency_exchange/spsc_queue.hpp:23-24 | the static test on the capacity accepts exactly the powers of two |
| `Bits.MaskIsRemainder` | include/low_latency_exchange/spsc_queue.hpp:29-29 | masking with capacity - 1 is the remainder |
| `Fnv.MixInjective` | src/event_log.cpp:63-66 | a mixing step is injective in the hash and in the byte, modulo 2^64 |
| `Fnv.OneByteDetected` | src/event_log.cpp:61-76 | changing one byte of the input changes the hash |
| `Wire.NewOrderRoundTrip` | src/protocol.cpp:97-214 | decoding an encoded new order returns it exactly if `validate` accepts it, and the matching error otherwise |
| `Wire.PayloadRoundTrip` | src/protocol.cpp:97-234 | decoding inverts encoding for exactly the encodable commands |
| `Wire.PayloadCanonical` | src/protocol.cpp:97-198 | every accepted payload is the encoding of what it decodes to |
| `Wire.HeaderRoundTrip` | src/protocol.cpp:46-69 | decoding inverts encoding of headers |
| `Wire.HeaderCanonical` | src/protocol.cpp:58-69 | every header is the encoding of what it decodes to |
| `Wire.ReservedBits` | include/low_latency_exchange/protocol.hpp:114-116 | the reserved-bits test passes exactly the flags 0 and 1 |
| `WireLayout.HeaderFields` | src/protocol.cpp:46-56 | the offset of every header field |
| `WireLayout.HeaderCodes` | src/protocol.cpp:22-44 | the code each bad header gets: magic, version, size, flags, type, length, in this order |
| `WireLayout.BadHeaderStops` | src/tcp_gateway.cpp:430-441 | the session reports that code with the type byte once eight bytes are there |
| `WireLayout.BadPayloadStops` | src/tcp_gateway.cpp:470-505 | a complete payload that does not decode is reported with its code and the type byte |
| `WireLayout.OutboundTypesAreRefused` | src/tcp_gateway.cpp:512-516 | a well-formed frame of an outbound type is refused as unknown |
| `WireLayout.NewOrderFields` | include/low_latency_exchange/protocol.hpp:73-80 | the offset and value of every new-order field |
| `WireLayout.CancelFields` | include/low_latency_exchange/protocol.hpp:73-74 | the offsets of the cancel fields |
| `WireLayout.ReplaceFields` | include/low_latency_exchange/protocol.hpp:82-83 | the offsets of the replace fields |
| `WireLayout.FrameKinds` | include/low_latency_exchange/protocol.hpp:21-33 | magic, version and the type number of every inbound frame |
| `WireLayout.NewOrderCodes` | src/protocol.cpp:97-152 | which new-order payloads are refused with which code, from their bytes |
| `WireLayout.ReplaceCodes` | src/protocol.cpp:172-198 | which replace payloads are refused with which code, from their bytes |
| `WireLayout.CancelCodes` | src/protocol.cpp:154-170 | which cancel payloads are refused with which code, from their bytes |
| `WireLayout.EventFields` | src/protocol.cpp:236-334 | the offset and value of every outbound field, reasons as numbers 100 to 102 |
| `WireLayout.EventCodes` | src/protocol.cpp:246-350 | which outbound payloads are refused with which code, from their bytes |
| `WireLayout.OutboundKinds` | include/low_latency_exchange/protocol.hpp:25-32 | magic, version, type number and flag of every outbound frame |
| `WireLayout.RecordFields` | src/event_log.cpp:271-280 | the offset and value of every record field; the checksum covers version, type, length and payload |
| `WireLayout.MixIsXorThenMultiply` | src/event_log.cpp:63-66 | the byte goes in before the multiplication by the 64-bit prime |
| `WireLayout.FnvVectors` | src/event_log.cpp:20-21 | the published FNV-1a hashes of the empty string and of one zero byte |
| `WireBuffers.WriteLE` | src/protocol.cpp:85-89 | writes the little-endian bytes in place and nothing else |
| `WireBuffers.ReadLE` | src/protocol.cpp:73-79 | the accumulation loop reads the number those bytes denote |
| `WireBuffers.EncodeNewOrder` | src/protocol.cpp:200-214 | fills the buffer with the encoding, or refuses a short buffer |
| `WireBuffers.DecodeNewOrder` | src/protocol.cpp:97-152 | the field-by-field decoder computes the decoding |
| `Outbound.EventRoundTrip` | src/protocol.cpp:236-350 | every message the service can send is recovered from its payload |
| `Outbound.RejectedIdZero` | src/protocol.cpp:274-292 | a rejection that carries id 0 is read as one of id 1, so the codec is no inverse there |
| `Outbound.MessageRoundTrip` | src/tcp_gateway.cpp:16-55 | a serialized message at the front of a client's input is read back with what follows it |
| `Outbound.ClientReadsItsReplies` | src/tcp_gateway.cpp:123-298 | from the bytes written to it, a session's client recovers every reply and notice due to it, in order |
| `EventLog.ReadBack` | src/event_log.cpp:173-212 | reading an encodable record returns the command and what follows it |
| `EventLog.ReplayRebuilds` | src/event_log.cpp:301-324 | for any engine whose rejections change nothing: replaying the captured commands succeeds, counts them and rebuilds the state |
| `EventLog.TruncationIsReported` | src/event_log.cpp:173-200 | replaying any byte prefix applies exactly its whole records; success at a boundary, truncated header for 1 to 15 bytes, truncated payload otherwise |
| `EventLog.CorruptionIsDetected` | src/event_log.cpp:184-205 | changing any byte of record i stops replay after i commands: malformed header for bytes 0-7, checksum mismatch for every later one |
| `EventLog.UndecodableStops` | src/event_log.cpp:207-210 | behind an accepted history, a record with the right checksum whose payload decodes to nothing stops replay as an invalid command |
| `EventLog.RefusedStops` | src/event_log.cpp:317-321 | and a record whose command the book refuses stops it as a rejected command |
| `Recorder.RecordingIsComplete` | src/event_log.cpp:216-299 | for every interleaving of service turns and drains, any capacity and any stream failure: if nothing was dropped and no append failed, file and queue together are exactly the log of the accepted commands |
| `Recorder.RecordedReplay` | src/event_log.cpp:263-324 | then, with the queue drained, replaying the written bytes succeeds, counts exactly the accepted commands and gives the live book and its digest |
| `Recordings.Exchange.Turn` | src/tcp_gateway.cpp:300-335 | a turn of the service object is the machine's turn |
| `Recordings.Exchange.Drain` | src/event_log.cpp:293-299 | a drain of the real queue into the real writer is the machine's drain |
| `Recordings.Exchange.Perform` | src/event_log.cpp:293-299 | any schedule of the two objects is a run of the machine |
| `Recordings.Exchange.ReplayFile` | src/event_log.cpp:301-324 | if nothing was dropped or failed and the queue is empty, replaying the file reports no error, the number of accepted commands and the live digest |
| `LogReplay.AcceptedLogReplays` | src/event_log.cpp:301-324 | replaying the log of exactly the accepted commands of any inbound sequence succeeds, counts them and ends with the live book's digest |
| `LogReplay.BookStepSound` | src/event_log.cpp:148-159 | the book accepts only encodable commands, and rejections change nothing |
| `LogReplay.ComputeChecksum` | src/event_log.cpp:61-76 | the mixing loop computes the checksum of type, length and payload |
| `LogReplay.EventLogWriter.Append` | src/event_log.cpp:263-282 | succeeds exactly when the stream was and stays good, and then appends one whole record; otherwise the file gains exactly the bytes the stream took before failing |
| `LogReplay.LandedIs` | src/event_log.cpp:279-281 | a stream that is not good takes nothing, a good one the whole record, and one that fails after k bytes exactly the first k |
| `LogReplay.DrainOne` | src/event_log.cpp:293-299 | removes the oldest captured command and appends its record, or what a failing stream took of it; an empty queue changes nothing |
| `LogReplay.ReplayEventLog` | src/event_log.cpp:301-324 | an unopened file gives an I/O error; otherwise the loop over an `OrderBook` gives the error, count and digest of the specification |
| `ServiceOwnership.OwnershipIsExact` | src/tcp_gateway.cpp:123-298 | after any run the owner table's keys are exactly the resting ids, each owned by the session that last submitted or replaced it |
| `ServiceOwnership.HandleTracks` | src/tcp_gateway.cpp:123-298 | every command keeps the owner table in step with the book |
| `ServiceOwnership.FillsAreDistinct` | src/order_book.cpp:23-92 | one match never trades a resting order twice |
| `ServiceSpec.ReportIsAnnounce` | src/tcp_gateway.cpp:141-176 | dropping table entries on the way never hides an owner: every fill is reported by the table as the command found it |
| `ServiceGrammar.FillReachesBothSides` | src/tcp_gateway.cpp:141-176 | each fill is reported once to the incoming session, once to the session that last submitted or replaced the resting order if that is another one and not 0, and to nobody else |
| `ServiceGrammar.StreamParses` | src/tcp_gateway.cpp:123-298 | each session's stream parses: flagged executions of one command, contiguous, then one unflagged terminal, and reads back as exactly the replies and notices due |
| `ServiceGrammar.EveryCommandIsAnswered` | src/tcp_gateway.cpp:123-298 | replies answer a session's commands one for one and in order, truly for the book each found: executions plus remainder equal the quantity asked, a cancel reports what rested, a refusal gives its reason |
| `ServiceGrammar.FlagsAreExact` | docs/protocol.md:39-39 | all events of a command but the last are flagged if and only if every resting order it fills is owned by the incoming session or by nobody |
| `ServiceGrammar.FlagIsMissing` | docs/protocol.md:39-39 | when session 2 fills session 1's resting order, the second of the three messages is unflagged |
| `MatchingService.MatchingEngineService.ReportExecutions` | src/tcp_gateway.cpp:141-176 | the reporting loop updates table, stream and counter as specified |
| `MatchingService.MatchingEngineService.HandleNewOrder` | src/tcp_gateway.cpp:123-195 | the handler settles a new order as specified |
| `MatchingService.MatchingEngineService.HandleCancelOrder` | src/tcp_gateway.cpp:197-226 | the handler settles a cancel as specified |
| `MatchingService.MatchingEngineService.HandleReplaceOrder` | src/tcp_gateway.cpp:228-298 | the handler settles a replace as specified |
| `MatchingService.MatchingEngineService.RecordCommandResult` | src/tcp_gateway.cpp:97-109 | exactly one of the accepted and rejected counters grows, and the cancel counters with it |
| `MatchingService.MatchingEngineService.ProcessOne` | src/tcp_gateway.cpp:300-335 | one turn takes the oldest command, settles it, offers it to the capture feed exactly if accepted, and publishes the book in any case; either feed may be absent |
| `MatchingService.MatchingEngineService.ProcessAvailable` | src/tcp_gateway.cpp:337-343 | drains the inbound queue as the service specification does; a capture feed that dropped nothing gains exactly the accepted commands; a market-data feed has published the book after every command |
| `ServiceFeed.FeedAfterIsRun` | src/tcp_gateway.cpp:331-333 | the service's feed and queue over a whole run are those of the market-data machine with one publish of the current book per command, accepted or not |
| `ServiceFeed.SubscriberShowsTheBook` | src/tcp_gateway.cpp:300-335 | for every order of turns and deliveries the subscriber shows the five best bids and asks of the book right after the turn with its last number |
| `ServiceFeed.DrainedShowsLive` | src/tcp_gateway.cpp:331-333 | after a turn that found room, draining the queue makes the subscriber show the live book |
| `ServiceFeed.ScreenShowsTheBook` | src/tcp_gateway.cpp:300-343 | from inbound commands to the screen: a new subscriber that drains the feed's queue shows the book of its last number, and the live book if that is the last command's |
| `ServiceFeed.ServeAndShow` | src/market_data.cpp:145-154 | the same with the service, feed and subscriber objects |
| `MatchingService.EventCaptureFeed.Capture` | src/event_log.cpp:216-224 | queues the command or counts it as dropped |
| `SessionReader.ReaderIsSafe` | src/tcp_gateway.cpp:395-521 | for every stream, chunking, interleaving and queue pattern: the enqueued commands are in-order decodings of a prefix of the stream with strictly increasing sequences, and there is one error exactly when reading stopped |
| `SessionReader.ReaderIsExact` | src/tcp_gateway.cpp:419-521 | what the handlers have done is independent of chunking and scheduling: always a prefix of, and when idle exactly, what reading all arrived bytes gives |
| `SessionReader.ReadSound` | src/tcp_gateway.cpp:395-521 | reading stands at the first frame that is incomplete, wrong or refused, and everything before it was taken byte for byte |
| `SessionReader.ReadComplete` | src/tcp_gateway.cpp:419-521 | legal frames with increasing sequences and room are all taken, whatever follows |
| `SessionReader.StreamRoundTrip` | src/protocol.cpp:378-401 | a concatenation of encoded frames reads back as the same commands with nothing left over |
| `SessionReader.FirstFaultStops` | src/tcp_gateway.cpp:430-517 | the first fault is reported and nothing behind it is read |
| `SessionReader.StoppedForGood` | src/tcp_gateway.cpp:437-441 | a stopped session takes and reports nothing more |
| `SessionReader.JudgeSound` | src/protocol.cpp:22-44 | a frame is taken only if it stands at the front byte for byte, with legal flags and a larger sequence |
| `SessionObjects.TcpSession.EnqueueCommand` | src/tcp_gateway.cpp:395-417 | enqueues exactly if the sequence grows and the queue has room, otherwise reports which failed |
| `SessionObjects.TcpSession.ReadHeader` | src/tcp_gateway.cpp:419-445 | the header handler is the machine's header step |
| `SessionObjects.TcpSession.ReadPayload` | src/tcp_gateway.cpp:447-521 | the payload handler is the machine's payload step, with the queue's real answer |
| `SessionObjects.TcpSession.ReadAvailable` | src/tcp_gateway.cpp:419-521 | runs the handlers until neither can run; the queue gains exactly the commands taken |
| `MarketData.ImageShows` | src/market_data.cpp:71-91 | an image has five entries per side; entry i of each side is the quote with exactly i better prices on that side of the book, and empty beyond the last level |
| `MarketData.SubscriberIsExact` | src/market_data.cpp:30-119 | for every interleaving of publishes, drops and deliveries the subscriber rejects nothing and shows the five best bids and asks of the book published under its last sequence |
| `MarketData.MissingEventsAreHarmless` | src/market_data.cpp:97-119 | an applied update directly follows its predecessor's sequence, and a subscriber never shows anything but the image of its last sequence |
| `MarketData.AnySubsetIsHarmless` | src/market_data.cpp:97-119 | a subscriber that sees any subset of the queued events ends up showing the five best levels of the book published under the last sequence it accepted |
| `MarketData.SnapshotsAreFrequent` | src/market_data.cpp:27-59 | any max(snapshot interval, 1) + 1 consecutive queued events contain a snapshot |
| `MarketData.SnapshotsOnlyWhenDue` | src/market_data.cpp:39-59 | an event is a depth update exactly if its predecessor was queued right before it and fewer than that many updates came since the last snapshot |
| `MarketData.GapRecovery` | src/market_data.cpp:27-119 | a subscriber in any state that stops missing events has, after max(snapshot interval, 1) + 1 of them, the last one's sequence, is synchronized and shows the five best levels of the book published under it |
| `MarketDataObjects.MarketDataFeed.MakeEvent` | src/market_data.cpp:71-91 | the event carries the five best bids as bids and the five best asks as asks |
| `MarketDataObjects.MarketDataFeed.PublishBook` | src/market_data.cpp:30-60 | publishes or drops as specified and counts which |
| `MarketDataObjects.MarketDataBook.Apply` | src/market_data.cpp:97-119 | applies or rejects an event as specified |
| `MarketData.UnnumberedIsIgnored` | src/market_data.cpp:98-100 | an event without a number is refused and changes nothing |
| `MarketDataObjects.PublishAvailable` | src/market_data.cpp:145-154 | drains the queue into a subscriber and counts exactly the events it applied |

## Left out

- Sockets, the accept loop, timers, threads, signals and the executables: the session is driven by bytes that arrive, the service by its queues.
- Writing to a socket: `write_queue_`, `close_after_write_` beyond stopping the reader, session registration and the broadcast of messages for session 0.
- The encoding of protocol errors: an error is its code and the offending type.
- Weak memory: the ring's steps are sequentially consistent, and cache-line layout and moves are not modelled.
- `size()` of the ring, whose value across a counter wrap is not the occupancy, and the high-water marks and byte counters computed from sizes.
- Latency histograms, metrics snapshots, the benchmark and the random workload generator.
- Empty variants (a command slot that holds nothing): the service never dispatches one; only the log writer's refusal of one is modelled.
- Injectivity of the state digest: a 64-bit hash has none. It is shown to be the hash of an account that determines the ordered contents.
- In-place encoders of cancels, replaces and outbound events: their codecs are modelled on values; update in place is modelled for new orders.
- OrderBooks.OrderBook.ValidateInvariants: the audit is shown exact on books reached through the operations; what it would detect on a damaged book is not modelled.
- Spsc.BoundedQueue.TryPush: the method runs while the other thread is between operations, because Dafny methods do not interleave; pushes with interference are the steps of `Spsc.PushUnderInterference`.
- Spsc.BoundedQueue.TryPop: as for `TryPush`; pops with interference are the steps of `Spsc.PopUnderInterference`.
