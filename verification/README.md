# Shred reassembly: a verified model

A Dafny model of the pipeline that turns UDP datagrams carrying Solana shreds into decoded transactions:
parser, listener and slot window, per-slot accumulator, incremental entry decoder, erasure recovery and
buffer pool. Every operation that the program performs on mutable state is a method over the same fields and
in the same steps, proved to compute a specification function; what the program is for is proved about those
functions, over every sequence of arrivals.

`dafny verify dfyconfig.toml` checks the whole project.

## How it is built

| Files | Part of the program |
|---|---|
| `Bytes`, `Collections` | Bytes, little-endian numbers, saturating and wrapping arithmetic; ordered views of sets and maps |
| `Variant`, `Parser`, `Packets` | Shred layout, parsing, and shreds as a sender writes them |
| `Codec`, `Decoder`, `Streaming` | Entry decoding: one-shot, concatenated, incremental |
| `Erasure`, `Fec` | The erasure code by its laws; FEC sets, shard geometry, recovery |
| `Slot` | The accumulator as functions from state to state, with its history: completed ranges, what was delivered, which buffers were given back |
| `Emission`, `Invariant`, `Lifetime`, `Reachable`, `Delivery`, `Promptness`, `Timing`, `Counting` | What every step and every run of a slot keeps, what it delivers and when, and what it counts |
| `Scanners`, `Recovery`, `Exhaustion`, `Rebuilding`, `Completeness`, `Harvesting` | The two run scanners; recovery against direct arrival, and its completeness; when a slot is complete; what the harvest leaves |
| `Order`, `Conflicts`, `Handles` | Independence of order, and exactly when it holds; buffers |
| `BatchEnds`, `Stale`, `Sample`, `FecCap`, `Saturation` | When a range is one batch, and a run in which it is not; the limit on FEC sets; the last 32-bit index |
| `Accumulator` | The accumulator object, method by method against `Slot` |
| `Pool`, `Window`, `Passage`, `Fates`, `History`, `Listener` | Buffer pool; slot window and counters; what a packet does to a listener, over values and in plain numbers; a listener's life slot by slot; and the listener object over all of them |

A slot's run is a sequence of events, each a data shred or a code shred handed over at some time. `Reaches` says that
a trace of calls leads from a new slot through these events to a state; `After` computes that state, and the two
agree. `Resting` is the invariant that holds of every reachable state. `Listener.ShredListener.Valid` is
the invariant of the whole listener between packets: every live slot at rest; free buffers and buffers held by
pending shreds partition the pool, none held twice; every held handle's bytes still in its buffer; the window
discipline, by which a slot is turned away exactly if it ended and is recent or was listed since the last pruning;
and the counters accounting for every range ever finished. A listener's `Standing` is all its state as a value, and
every method of `ShredListener` that handles packets states the standing it leaves. `Passage.Ever` is the number of
ranges that slots long gone and live ones account for.

The entry codec and the erasure library are parameters constrained by laws, as subset types whose witnesses are
concrete: an entry reader for a small format, and a one-parity code over bytes. No law is assumed without one.

Times are one clock value per call. A pool handle is the buffer's index and the bytes it was filled with; the
listener proves that those bytes stay in the buffer while the handle lives. Destruction of a handle is an
explicit release where the program drops it.

## Where a promise does not hold

- A flush range finished whole holds one batch if and only if, before the turn that finishes it, no shred missing
  below the chosen batch end was sent as a batch end (`BatchEnds.OneBatchPerRange`, for every such range of every run of
  one sender's shreds in `BatchEnds.WholeRangesHold`). `Stale.StaleBoundaryJoinsBatches` is a run in which one was:
  batches 0..3 and 4..7 are finished as one range, and only the first is delivered. `Sample.SecondBatchIsLost` shows it
  of concrete shreds whose second batch carries a transaction.
- The repository's README.md:100 calls `max_fec_sets_per_slot` a cap. Recording a code shred keeps it if and only if
  the shred's set is known, there is room, or an older set can make room (`FecCap.FecCapExactly`; at the return of
  `push_code`, `FecCap.FecCapAtReturn` and `FecCap.StarvedCapExactly`). `FecCap.FecCapExceeded` has runs that buffer any
  number of sets under any limit, `FecCap.FallingIsAdmitted` the packets.
- At the last 32-bit index, 0xFFFFFFFF, the flush loop, the streaming loop and the salvage scan make no progress
  (`Saturation.FlushNeverReturns`, `StreamingStays`, `ScanEndsExactly`), and a packet with that index is admitted
  (`LastIndexIsAdmitted`; the whole run is `LastPacketHangs`). The accumulator's methods therefore take indices below
  it, and FEC sets whose end does not exceed it, since the program adds these without a check. The listener's methods
  take packets of that kind only (`Window.InRange`); a packet that does not parse is always among them.
- A slot that ended is turned away up to `max_age + 50` slots back, and further back only if it was listed since the
  list was last pruned (`Passage.TurnedAwayExactly`). Otherwise it is opened again, as in `Passage.EndedSlotReopens`.
- The order of arrival matters if two different shreds arrive at one index, of which the first is kept. What is received
  is independent of order if and only if that does not happen (`Conflicts.ReceivedExactly`). What a caller sees is
  independent of it if and only if two such shreds never differ in bytes or batch flag, nor in their set index unless
  a finished batch covers them (`Conflicts.OrderMattersExactly`). `Conflicts.ConflictShows` has the failing input.

## Model

| member | source | states |
|---|---|---|
| Variant.ClassifyRoundTrip | src/variant.rs:57-80 | Classifying the byte that stands for a variant gives that variant back, and a byte that classifies stands for what it classified as: the two are inverse on all 66 recognised bytes |
| Parser.DataShredBounds | src/parser.rs:116-219 | Every accepted data shred, by whichever route, has its payload inside the packet right behind the header, a FEC set index at most its own index, its slot, index, version, set index and parent offset within their widths, and is batch-complete if it is last in slot |
| Parser.CodeShredBounds | src/parser.rs:155-190 | Every accepted code shred has non-zero shard counts, a position below the number of coding shreds, and a non-empty coded part ending where the Merkle suffix begins |
| Parser.RejectedExactly | src/parser.rs:93-114 | Exactly which packets are rejected as too short (shorter than a data header, or a code shred shorter than a code header) and exactly which as unknown variant (unclassified and with a declared size past the end) |
| Parser.ParseDependsOnShardOnly | src/parser.rs:116-153 | Parsing a Merkle data shred depends only on the bytes between the variant byte and the declared size, so the zeroed signature and the missing Merkle suffix of a recovered shred do not change the result |
| Packets.FlagsRead | src/parser.rs:138-150 | Batch-complete is exactly bit 6 of the flags byte and last-in-slot exactly bits 6 and 7, whatever the six bits below |
| Packets.DataParsedExactly | src/parser.rs:93-219 | Exactly what becomes of any packet of at least 88 bytes that is marked as a data shred or not marked at all, field by field, with any flags byte: taken as marked if its set does not lie past its index and its declared size is at most 1203, else by the legacy route, refused if the declared size lies past its end |
| Packets.CodeParsedExactly | src/parser.rs:155-190 | The same of any packet of at least 89 bytes marked as a code shred |
| Packets.EveryPacketIsWire | src/parser.rs:93-103 | Every packet of at least 88 bytes is of the form these two speak of |
| Packets.DataRoundTrip | src/parser.rs:93-153 | Every data shred a sender can write, of any variant and up to the declared size of 1203 bytes, is parsed back field by field, whatever the tick in its flags and whatever pads or proves it |
| Packets.CodeRoundTrip | src/parser.rs:155-190 | Every code shred a sender can write is parsed back field by field |
| Codec.LawfulEntryReader | src/decoder.rs:74-83 | A concrete entry reader meeting every law the decoders rely on: local, incremental, persistent under extension, at least 48 bytes an entry, consumed length equal to serialized size |
| Codec.EntryReaderLawful | src/decoder.rs:9-14 | The entry laws hold of that reader: a proper prefix of an entry is truncated and never corrupt, and corruption persists under extension |
| Codec.ManySized | src/decoder.rs:142-144 | A vector of n entries that parses takes at least n times the minimum entry size and no more than the input |
| Codec.ManyLocal | src/decoder.rs:101-117 | Whether and how a vector parses depends only on the bytes it consumes, so trailing bytes are ignored |
| Decoder.PrefixTestIsExact | src/decoder.rs:97-103 | `decode_batch` succeeds exactly when the vector reader does and the count is at most 50,000: the `count * 48` test rejects nothing that would deserialize |
| Decoder.DecodeConcatenatedLoop | src/decoder.rs:105-128 | The offset loop terminates and computes the concatenation of batch after batch |
| Decoder.ConcatenatedRoundTrip | src/decoder.rs:105-128 | Encoded batches of at most 50,000 entries one after another, followed by any undecodable tail, give back exactly their transactions in order |
| Decoder.ConcatenatedStartsWithBatch | src/decoder.rs:97-128 | What `decode_batch` gives is a prefix of what `decode_concatenated` gives, and where the former fails the latter is empty |
| Decoder.ScanIsParse | src/decoder.rs:69-85 | The entry-by-entry scan completes exactly when the one-shot vector reader parses, with the same entries and the same length, and a corrupt entry makes that reader fail |
| Decoder.ScanExtends | src/decoder.rs:69-85 | A scan of a prefix, continued where it stopped, is the scan of the whole |
| Streaming.PushContinues | src/decoder.rs:33-88 | A push continues one-shot decoding: state and output after it are those of a single push of all bytes so far, and it fails exactly when that would |
| Streaming.RejectionPersists | src/decoder.rs:55-57 | Bytes once rejected are rejected however they are extended |
| Streaming.ChunkingIndependence | src/decoder.rs:33-88 | However the bytes are cut into pushes, streaming succeeds exactly when one push of the whole does, with the same transactions, cursor, count and number of entries yielded |
| Streaming.StreamingPrefix | src/decoder.rs:49-103 | If `decode_batch(S)` is some T, streaming any prefix of S never errors and yields a prefix of T, and all of T once the encoding is covered |
| Streaming.StreamingDecoder.Push | src/decoder.rs:33-40 | The decoder object's new state and result are those of the decoding function |
| Streaming.StreamingDecoder.TryDeserialize | src/decoder.rs:49-88 | Reads the count once, then entries until the buffer is short, empty or corrupt; the new state and result are those of the decoding function |
| Streaming.StreamingDecoder.DrainEntries | src/decoder.rs:69-87 | The entry loop reads exactly the entries of the scan and stops where it stops |
| Streaming.StreamingDecoder.Reset | src/decoder.rs:42-47 | Back to the empty state |
| Erasure.ParityIsMaximumDistance | src/fec.rs:194-200 | The laws asked of the erasure library (any `num_data` shards consistent with a codeword restore the data) are met by a concrete one-parity code |
| Erasure.ParityRestores | src/fec.rs:199-200 | The missing shard of a one-parity codeword is rebuilt from the others |
| Fec.ShardGeometry | src/fec.rs:16-51 | `64 + shard_size = 1203 - merkle_suffix` and `89 + shard_size = 1228 - merkle_suffix` for all 32 combinations of proof size and retransmitter signature |
| Fec.ReedSolomonCache.GetOrBuild | src/fec.rs:70-86 | Always the code for the requested key, whatever was cached; a hit moves its entry to the end, a miss appends one and drops the oldest only beyond 32, a refused key is the only error and leaves the cache alone; keys stay distinct |
| Fec.TouchedIsSame | src/fec.rs:75-79 | A hit loses no entry |
| Fec.FecSetBuffer.Record | src/fec.rs:111-138 | The first code shred fixes counts, variant and shard size; a position is recorded once; stated as a function of the old contents |
| Fec.FecSetBuffer.PlaceCode | src/fec.rs:170-180 | Every code shard of the right length lies at `num_data + position`; positions past the end are skipped |
| Fec.FecSetBuffer.PlaceData | src/fec.rs:182-192 | Every received data shard of the right length lies at its own position; code shards are not disturbed |
| Fec.FecSetBuffer.TryReconstruct | src/fec.rs:144-220 | The result over the shard array is the reconstruction function of buffer and received shards |
| Fec.PlacedIsConsistent | src/fec.rs:168-192 | Shards of one sender's set, once placed, are consistent with its codeword |
| Fec.ReconstructRestores | src/fec.rs:194-220 | Every shred returned carries the sender's shard bytes at offset 64 and stands at an absent position; with enough shards every absent position is returned |
| Fec.RecoveredParsesAsSent | src/accumulator.rs:353-360 | A recovered shred parses to the sent shred's indices, payload and flags whenever the declared size lies inside the shard |
| Slot.FecFillBounded | src/accumulator.rs:308-387 | Refilling keeps every index below the saturated one and every payload inside its buffer |
| Slot.Flush | src/accumulator.rs:421-506 | With every index below 0xFFFFFFFF the flush loop terminates although its refill can add batch ends, because the batch start strictly rises |
| Slot.Advance | src/accumulator.rs:241-306 | With every index below 0xFFFFFFFF the streaming loop terminates, and it never meets a payload outside its buffer |
| Emission.DedupIsFirstOccurrences | src/accumulator.rs:657-664 | Offering transactions to `record_sig` from an empty set keeps exactly the first occurrence of each first signature, in order, and drops unsigned ones |
| Emission.ResumeExact | src/accumulator.rs:482-490 | Emitting a batch again after any prefix of it was already emitted gives exactly what was missing: speculative and whole-batch decoding together emit each transaction once |
| Invariant.StreamOneTracks | src/accumulator.rs:285-304 | One streamed shred keeps the decoder equal to a push of the payloads from its first index to the cursor |
| Invariant.AdvanceInv | src/accumulator.rs:241-306 | The streaming loop keeps the whole invariant and ends with at most the shred just before the cursor ending a batch |
| Invariant.RecoveredEntryOk | src/accumulator.rs:353-373 | Whatever recovery inserts has its payload inside its buffer and its FEC set index at most its own index |
| Invariant.WholeExact | src/accumulator.rs:482-504 | Finishing a fully present range leaves as emitted since the last completion exactly the first occurrences of the decoded batch |
| Invariant.FinishWholeInv | src/accumulator.rs:474-504 | Finishing a present range keeps the invariant, completes one range and leaves no batch end before the cursor |
| Invariant.FinishSalvagedInv | src/accumulator.rs:456-470 | Finishing a range with gaps by salvage keeps the invariant and completes one range |
| Lifetime.LeastBoundary | src/accumulator.rs:427-434 | The least known batch end is never behind the cursor unless its whole range is present |
| Lifetime.TurnFinishes | src/accumulator.rs:437-504 | A turn that finishes a range leaves the invariant and completes exactly the range ending at the chosen batch end |
| Lifetime.TurnStops | src/accumulator.rs:455-472 | The turn that returns leaves a gap recovery could not fill, and nothing overdue |
| Lifetime.FlushRests | src/accumulator.rs:421-506 | On return no batch end has its whole range present and pool-sourced, none lies before the cursor, and the least one was first seen less than the timeout ago |
| Timing.GivenUpLate | src/accumulator.rs:455-470 | Not too early: in every run, a range that a call gives up ends with a batch end that some call brought the timeout or more before, counted in the times of the calls |
| Timing.WaitingIsEarly | src/accumulator.rs:455-472 | Not too late: after every call that ran the flush loop, the least batch end still waiting came with a call less than the timeout ago |
| Lifetime.StreamedInv | src/accumulator.rs:194-199 | After insertion, refill and the second streaming pass the decoder still holds one batch only |
| Lifetime.PushDataRests | src/accumulator.rs:157-204 | `push_data` takes a slot at rest to a slot at rest, further along, with nothing overdue if it flushed |
| Lifetime.PushCodeRests | src/accumulator.rs:206-239 | The same of `push_code` |
| Lifetime.AlwaysRests | src/accumulator.rs:157-239 | After every sequence of arrivals the slot is at rest: all invariants hold at every public return |
| Reachable.ReachesAfter | src/accumulator.rs:157-239 | A state at the end of any trace of calls from a new slot is the one computed from the arrivals, and every call of the trace met the accumulator's bounds |
| Reachable.AfterReached | src/accumulator.rs:157-239 | Conversely the computed state has such a trace |
| Reachable.ReachableRests | src/accumulator.rs:157-239 | Every reachable slot is at rest |
| Lifetime.HarvestBatchesInv | src/accumulator.rs:533-585 | Every range the harvest completes holds exactly one batch end, and every listed batch end is completed |
| Lifetime.HarvestCloses | src/accumulator.rs:522-619 | The harvest keeps history and accounting, and each of its ranges ends with its only batch end |
| Harvesting.HarvestEndsAll | src/accumulator.rs:533-585 | After the harvest of any slot at rest no pending shred is a batch end, every batch end pending before it is the end of exactly one range the harvest completed, and nothing past the last range is lost |
| Harvesting.HarvestSalvagesRest | src/accumulator.rs:587-611 | The harvest ends by emitting the first occurrences of what was emitted since the last completed range and of what the maximal runs of the shreds left decode to |
| Scanners.RunsAreMaximal | src/accumulator.rs:621-655 | The range scan finds the maximal contiguous runs of present indices, in order, each index once |
| Scanners.MaximalRunsUnique | src/accumulator.rs:621-655 | There is only one sequence of maximal runs |
| Scanners.ScannersAgree | src/accumulator.rs:587-611 | The key-list scan and the range scan find the same runs, and these are the maximal ones |
| Recovery.RecoveredAsSent | src/accumulator.rs:347-380 | The entry inserted for a recovered shred has the payload, batch flag and set index that its arrival would have given |
| Recovery.FecFillAsSent | src/accumulator.rs:308-387 | A refill of a slot holding only what was sent leaves a slot holding only what was sent |
| Recovery.AlwaysAsSent | src/accumulator.rs:157-239 | Over every run fed from one sender's shreds, everything pending and every completed range is what was sent |
| Recovery.RecoveryIsInvisible | src/accumulator.rs:157-520 | Whatever is lost, repeated, reordered or rebuilt, a range completed whole delivered exactly the transactions of the sent bytes, once each and in order |
| Recovery.HarvestIsAsSent | src/accumulator.rs:522-619 | The same of the ranges that the harvest of an ending slot completes whole: they have the sent bytes and delivered what these decode to |
| Recovery.SalvageIsAsSent | src/accumulator.rs:621-655 | Of a range given up with gaps in a run of one sender's shreds, the bytes of every run salvaged are those sent |
| Exhaustion.NothingToRecover | src/accumulator.rs:421-472 | Recovery is complete: in every reachable state in which a batch end waits, no FEC set that reaches into its range can be rebuilt to anything the slot would store |
| Exhaustion.MissingMeansTooFew | src/accumulator.rs:308-387 | For one sender's shreds: then an FEC set reaching into the range that lacks any shred of the window, other than one sent last in the slot, holds fewer than `num_data` shards of its own |
| Rebuilding.AlwaysRemembered | src/accumulator.rs:216-231 | In every run of one sender's shreds for no more sets than the limit, every code shred that ever came is still buffered, or nothing of its set is missing from the window |
| Rebuilding.RecoveryIsComplete | src/accumulator.rs:194-237 | In every such run: if the last call brought a code shred of a set, or a new data shred of it that the cursor has not passed on return, or if a batch end waits on the set, and yet any shred of it is missing from the window, then the data shreds of it at hand and all the code shreds that ever came for it are together fewer than its data shreds |
| Harvesting.HarvestIsComplete | src/accumulator.rs:528-531 | The same of the harvest, for every set |
| Rebuilding.SpanningIsRebuilt | src/accumulator.rs:389-419 | If the hinted set has too few shards, a refill rebuilds in full the first set spanning the cursor that has enough |
| Completeness.LastCompletesSlot | src/accumulator.rs:167-172 | In every run the arrival of the shred last in the slot completes the slot for good |
| Completeness.CompleteIsSent | src/accumulator.rs:361-364 | In a run of one sender's shreds a slot is complete only if some shred was sent last in it |
| Rebuilding.MovingForgets | src/accumulator.rs:508-516 | A call that moves the window on leaves no FEC set buffered that ends before it |
| Recovery.PendingIsAsSent | src/accumulator.rs:308-387 | In every state reachable from one sender's shreds each pending entry, received or rebuilt, has the sent payload, batch flag and set index |
| Order.WindowIsFrontier | src/accumulator.rs:157-204 | With no code shreds and no timeout counted, the batch start is one past the largest batch end whose whole prefix was received, pending is exactly the received shreds at or above it, and each completed range is one batch of them |
| Order.FrontierUnique | src/accumulator.rs:508-516 | That batch start is determined by the set received |
| Order.ReceivedIsSet | src/accumulator.rs:176-187 | As long as no two different shreds arrive at one index (of those the first would win), what was received depends only on which arrivals there were, not on order or repetition |
| Order.SameBatches | src/accumulator.rs:421-506 | Two tilings by single batches of the same shreds are the same ranges over the same bytes |
| Order.OrderIndependence | src/accumulator.rs:157-204 | Two runs of data shreds with no timeout counted and no two different shreds at one index, over the same set of arrivals in any order and multiplicity, end with the same window, the same pending shreds, the same completed ranges, and the same transactions for every range that decodes (`Conflicts.OrderMattersExactly` has the exact condition) |
| Conflicts.ReceivedExactly | src/accumulator.rs:176-187 | What was received is the same in all orders and repetitions of the arrivals if and only if no index arrives with two different contents |
| Conflicts.OrderMattersExactly | src/accumulator.rs:157-204 | All runs over a set of data shreds that count no timeout end alike if and only if two shreds at one index never differ in bytes or batch flag, nor in their FEC set index unless a finished batch covers them |
| Conflicts.ConflictShows | src/accumulator.rs:176-187 | Two different shreds for one index above 0, alone in their slot: their two orders end in states that differ to a caller |
| Conflicts.ConflictIsAdmitted | src/listener.rs:379-421 | Two concrete packets that the listener admits as such a pair |
| Handles.FlushSheds | src/accumulator.rs:421-520 | Every buffer the flush loop stops holding is given back exactly once |
| Handles.PushDataTakesIn | src/accumulator.rs:157-204 | After `push_data` the handed-in buffer is either held by exactly one pending shred or given back, with every other buffer that was let go, each once |
| Handles.PushCodeSheds | src/accumulator.rs:206-239 | `push_code` takes no buffer and gives back exactly those it stops holding |
| Handles.HarvestSheds | src/accumulator.rs:522-619 | The same of the harvest |
| Handles.DropReleasesHeld | src/pool.rs:83-87 | Dropping an accumulator gives back exactly the buffers its pending shreds hold, each once |
| Delivery.ExactDelivery | src/accumulator.rs:474-504 | For every run and every range finished whole whose bytes decode, what was emitted since the completion before, by streaming and fallback over any number of calls, is exactly the batch in order, without repeats and unsigned transactions |
| Delivery.HarvestDelivery | src/accumulator.rs:541-585 | The same for the ranges the harvest finishes, each of which has exactly one batch end |
| Delivery.EmittedOnce | src/accumulator.rs:454-504 | For every run and every completed range, whole, salvaged or undecodable: what it emitted is signed throughout and no first signature occurs in it twice |
| Delivery.SalvagedDelivery | src/accumulator.rs:456-470 | For every run and every range given up with gaps: it emitted the first occurrences of what had been streamed of it followed by what its maximal runs of present shreds decode to; without a decode error, what had been streamed is what the bytes the decoder saw yield |
| Delivery.CompletedRangesTile | src/accumulator.rs:508-520 | The completed ranges cover `[0, batch_start)` without gap or overlap; what was delivered is what they emitted plus what was emitted since; the three batch counters add up to their number; none was finished as corrupted |
| Counting.CountersAreExact | src/accumulator.rs:456-504 | In every run, and after the harvest, each batch counter is the number of completed ranges of its kind: streamed if the range decoded and streaming had emitted all of it, fallen back if finishing it emitted anything, else skipped; and the timeout counter the number given up |
| Counting.WholeCountsOne | src/accumulator.rs:482-504 | A range finished whole counts as skipped if it does not decode, as streamed if everything of it had been emitted, and as fallen back if not |
| Counting.FillCounts | src/accumulator.rs:335-386 | A refill counts as done exactly if it added a shred and as failed exactly if the library refused |
| Counting.StreamErrorsCount | src/accumulator.rs:285-304 | Streaming counts a decode error exactly when the decoder refuses the shred |
| Counting.WholeErrorsCount | src/accumulator.rs:498-503 | Finishing a range whole counts one exactly when it does not decode |
| Counting.HarvestCounts | src/accumulator.rs:613-618 | The harvest counts the transactions it delivered and the FEC sets left |
| Delivery.TiledOnce | src/accumulator.rs:508-516 | Every index below the batch start lies in exactly one completed range |
| Delivery.StreamingState | src/accumulator.rs:241-306 | At every public return the cursor is at or above the batch start, everything between is pending, pool-sourced and ends no batch, the decoder is that of the in-order payloads of `[e, cursor)` with `e` the batch start if no decode error occurred, and each index entered the decoder at most once |
| Promptness.StreamingIsPrompt | src/accumulator.rs:241-306 | In every run, after a new data shred that finishes no range and with no decode error in the range: the cursor stands at the first index that is missing or was rebuilt, and what has been delivered of the range is all that the bytes below it yield, once each |
| Delivery.BoundaryIndexAgrees | src/accumulator.rs:173-192 | The batch-complete index has exactly the pending shreds flagged so; pending indices are at or above the batch start and their set index; no batch end has its whole range present and pool-sourced |
| Delivery.RunsGrow | src/accumulator.rs:508-520 | Batch start and cursor only rise along a run, and the completions and the deliveries so far are prefixes of later ones |
| Delivery.CountingTest | src/accumulator.rs:437-455 | `present < expected` holds exactly when some index of the range is missing |
| BatchEnds.OneBatchPerRange | src/accumulator.rs:427-452 | Before a turn of the flush loop that finishes a range whole: the range will hold exactly one batch end if and only if no shred missing below the chosen batch end was sent as one. In either case its batch ends are those sent in it |
| BatchEnds.WholeRangesHold | src/accumulator.rs:421-506 | In every run of one sender's shreds every range finished whole holds exactly the batch ends sent in it, and comes from a turn of one of the run's calls to which the equivalence above applies |
| Saturation.LastIndexIsAdmitted | src/listener.rs:379-421 | A concrete 88-byte packet with index 0xFFFFFFFF that ends a batch parses and is handed to its slot |
| Saturation.ProgressBelowSaturation | src/accumulator.rs:508-516 | `complete_batch` moves past the batch end if and only if it is below the last 32-bit index; at that index the shred and its batch end survive |
| Saturation.LastIndexIsReached | src/accumulator.rs:157-204 | A run of two shreds brings the window to the last index: a batch end at the index before, timed out when the shred last in slot arrives |
| Saturation.ArrivalSticks | src/accumulator.rs:176-187 | A batch end inserted at the last index when the window has come there leaves the slot in the state the next rows are about |
| Saturation.StuckStreams | src/accumulator.rs:285-304 | The pass of the streaming loop over that shred, before the flush, leaves the slot in it |
| Saturation.FlushNeverReturns | src/accumulator.rs:421-506 | From that state the flush loop takes any number of turns, each of which finishes the same range again |
| Saturation.LastPacketHangs | src/accumulator.rs:157-204 | The whole of it: two shreds bring the window to the last index, the concrete packet is admitted, inserted and streamed, no set can be refilled, and any number of turns of the flush loop finish the same range |
| Saturation.StreamingStays | src/accumulator.rs:285-304 | A streamed shred moves the cursor on if and only if it is below the last index, and stays pending |
| Saturation.ScanEndsExactly | src/accumulator.rs:621-655 | The scan of a range for salvage gets past its end after some number of steps if and only if that end is below the last index |
| FecCap.FecCapExactly | src/accumulator.rs:216-231 | Recording a code shred keeps the configured number of sets as a bound if and only if its set is known, there is room, or an older set is buffered; otherwise exceeds it by one |
| FecCap.FecCapAtReturn | src/accumulator.rs:206-239 | At the return of `push_code` the bound is kept whenever the shred fits so, and in no case is exceeded by more than one in one call |
| FecCap.StarvedCapExactly | src/accumulator.rs:206-239 | With nothing pending and no set recoverable from its own code shreds, the bound is kept at the return if and only if the shred fits |
| FecCap.FecCapExceeded | src/accumulator.rs:206-239 | Whatever the limit, a run of code shreds of older and older FEC sets, each needing at least two shards, leaves as many sets buffered as there were shreds |
| FecCap.FallingIsAdmitted | src/listener.rs:431-470 | Concrete packets that the listener admits as such a run, of any length |
| FecCap.LonePacketsExceed | src/accumulator.rs:206-239 | The run of these n packets leaves n sets buffered under any limit |
| Stale.JoinedBatchesLoseTheSecond | src/accumulator.rs:482-482 | Whole-batch decoding of two joined batches reads the first only |
| Stale.StaleBoundaryJoinsBatches | src/accumulator.rs:427-504 | A run, with everything as sent, whose only completed range is 0..7, finished whole, and holds the batch ends 3 and 7. If the first batch decodes, its first occurrences are all the slot has delivered, and the window is past both |
| Sample.TwoBatchesHappen | src/accumulator.rs:427-452 | That run's premise is met by eight concrete shreds under any code that accepts eight data and one coding shard |
| Sample.SecondBatchIsLost | src/accumulator.rs:427-504 | In the run of these shreds the second batch decodes to one transaction, and the slot ends past it with nothing delivered |
| Pool.ShredPool.constructor | src/pool.rs:21-31 | A pool whose free list is every index, each once |
| Pool.ShredPool.Acquire | src/pool.rs:33-40 | The last free index, which leaves the list; none exactly when the list is empty |
| Pool.ShredPool.Release | src/pool.rs:42-44 | The index is appended to the free list |
| Pool.ShredPool.Fill | src/listener.rs:348-350 | The packet, cut to 2048 bytes, is in the handle's buffer and no other buffer has changed |
| Accumulator.SlotAccumulator.constructor | src/accumulator.rs:93-117 | A new slot, at rest |
| Accumulator.SlotAccumulator.RecordSig | src/accumulator.rs:657-664 | New exactly when signed and not yet yielded; the first signature is yielded afterwards |
| Accumulator.SlotAccumulator.EmitAll | src/accumulator.rs:482-490 | The loop over `record_sig` emits exactly the fresh transactions |
| Accumulator.SlotAccumulator.AdvanceStreaming | src/accumulator.rs:241-306 | The new state is that of the streaming function and the output is what it delivers; the branch for a payload outside its buffer is dead |
| Accumulator.SlotAccumulator.CompleteBatch | src/accumulator.rs:508-520 | The new state is that of the completion function; the dropped shreds' buffers go back to the pool in index order |
| Accumulator.SlotAccumulator.SalvageRunsIn | src/accumulator.rs:621-655 | The nested loops emit the concatenated decoding of the maximal runs of the range |
| Accumulator.SlotAccumulator.FinishPresent | src/accumulator.rs:474-504 | Finishes a present range as the specification does, emission, counters and buffers included |
| Accumulator.SlotAccumulator.FinishGapped | src/accumulator.rs:456-470 | Finishes a range with gaps as the specification does |
| Accumulator.SlotAccumulator.SelectRecoverableSet | src/accumulator.rs:389-419 | The hinted set if it is recoverable, else the first recoverable set spanning the cursor, else none |
| Accumulator.SlotAccumulator.TryFecFill | src/accumulator.rs:308-387 | The new state and the flag are those of the refill function |
| Accumulator.SlotAccumulator.Refill | src/accumulator.rs:437-453 | Refills from every set overlapping the range, only if a shred of it is missing |
| Accumulator.SlotAccumulator.FlushOnce | src/accumulator.rs:426-505 | One turn of the flush loop |
| Accumulator.SlotAccumulator.TryFlushBatches | src/accumulator.rs:421-506 | The loop computes the flush function, outputs what it delivers and gives back the buffers it drops |
| Accumulator.SlotAccumulator.InsertAndStream | src/accumulator.rs:176-199 | Insertion, streaming, refill and streaming again |
| Accumulator.SlotAccumulator.PushData | src/accumulator.rs:157-204 | The new state, the output and the buffers given back are those of the specification, for new, repeated, late and last-in-slot shreds |
| Accumulator.SlotAccumulator.MakeRoom | src/accumulator.rs:216-226 | Evicts the oldest set only when the buffer is full, the set is new and older ones exist |
| Accumulator.SlotAccumulator.RecordCodeShred | src/accumulator.rs:216-231 | Makes room and records the shred in its set, opening it if need be |
| Accumulator.SlotAccumulator.PushCode | src/accumulator.rs:206-239 | The new state, the output and the buffers given back are those of the specification |
| Accumulator.SlotAccumulator.HarvestAll | src/accumulator.rs:541-585 | The harvest loop over the batch ends listed beforehand |
| Accumulator.SlotAccumulator.SalvageTail | src/accumulator.rs:587-611 | The key-list scan emits the concatenated decoding of the maximal runs left |
| Accumulator.SlotAccumulator.TryHarvestTail | src/accumulator.rs:522-619 | The new state, the output and the buffers given back are those of the harvest function |
| Accumulator.SlotAccumulator.Drop | src/pool.rs:83-87 | Every buffer still held goes back to the pool, each once |
| Window.AdmittedIsOk | src/listener.rs:379-421 | Whatever the listener admits, of packets with an index below 0xFFFFFFFF and a FEC set ending below it, has its payload inside its buffer and a plausible slot not turned away, so the accumulator's corrupted-payload branch is never taken |
| Window.PartitionTook | src/listener.rs:408-421 | A call that takes a buffer in and gives others back keeps free, held and in-transit buffers a partition of the pool |
| Window.PartitionRetire | src/listener.rs:491-516 | So does the end of a slot |
| Window.PartitionAcquire | src/pool.rs:33-40 | So does an acquisition |
| Window.PartitionRelease | src/pool.rs:83-87 | So does a drop |
| Window.NoSlotsAllFree | src/listener.rs:548-558 | With no live slot and nothing in transit some buffer is free |
| Window.NoReopening | src/listener.rs:388-411 | A slot that ended is not live while `last_slot <= s + max_age + 50` |
| Fates.FateOf | src/listener.rs:354-477 | Exactly what becomes of a packet, in numbers: its slot is within reach if it is at most 2^40 and, before any slot has been seen, at most 10,000,000,000, later at most 1,000,000 past the newest; the counter that moves; and for one that reaches its slot, what the slot is given and which slots stay live |
| Fates.SweepLeaves | src/listener.rs:479-528 | A sweep leaves exactly the live slots at most one slot behind the newest if complete, at most the retention if not, and of the slots turned away those at most the retention and 50 behind |
| Passage.TurnedAwayExactly | src/listener.rs:388-402 | A packet for a slot that has ended is turned away as known if and only if `last_slot <= s + max_age + 50`, or the slot was listed since the list was last pruned |
| Passage.RaisedLeavesNone | src/listener.rs:402-405 | A packet that moves the newest slot leaves no slot of that second kind; one that does not leaves the list as it is |
| Passage.SlotPacketNames | src/parser.rs:93-153 | For every slot number there is a packet that names it |
| Passage.EndedSlotReopens | src/listener.rs:402-412 | With a retention of 3 slots, data packets for slots 1, 55 and 1: the second ends slot 1, the third gives it a new accumulator |
| Window.WindowRetire | src/listener.rs:516-517 | Ending a slot keeps live slots at most `last_slot`, and the turned-away list exactly the slots that ended and are recent or listed since the last pruning, disjoint from the live ones |
| Window.WindowPrune | src/listener.rs:522-527 | So does pruning |
| Window.WindowOpen | src/listener.rs:408-412 | So does opening a slot |
| Window.WindowRaise | src/listener.rs:402-404 | So does a new newest slot |
| Window.WindowBound | src/listener.rs:479-521 | Live slots within `max(max_age, 1)` of the newest are at most `max(max_age, 1) + 1` |
| Window.MovedIsAged | src/listener.rs:402-412 | Moving the window up to a slot leaves every live slot, that one included, within the bound, and never ends that slot |
| Window.QueuedOneMore | src/listener.rs:491-500 | The delivery queue grows by exactly the non-empty tails of the slots ended, each once |
| Window.CountedOneMore | src/listener.rs:494-514 | Each ended slot is counted once, as completed or as aged out, and each tail that is not empty once |
| Window.SettledOneMore | src/listener.rs:304-338 | The totals grow by the rolled-up counters of the ended slots, and the number of ranges they stand for by exactly the ranges these finished, whatever the order of ending |
| Window.RollUpMore | src/listener.rs:304-338 | Rolling up two slots one after another, wrapping, is rolling up the sum of their counters |
| Window.StatsSumWithout | src/listener.rs:304-338 | The counters of a set of slots add up the same whichever slot is taken first |
| Window.RollUpAccounts | src/listener.rs:304-338 | Short of 64-bit overflow the rolled-up batch counters add up to the ranges finished by the slots rolled up |
| Window.LiveAccounts | src/listener.rs:300-302 | Over live slots the three batch counters add up to the ranges finished |
| Window.PublicTotalsCount | src/listener.rs:254-266 | Short of 64-bit overflow, rolled-up and live parts of the three public batch totals together count the ranges the roll-up stands for and those of live slots |
| Window.EvictionConserves | src/listener.rs:479-520 | Ending a slot changes the public batch totals by exactly the number of ranges its harvest finished |
| Window.FullExactly | src/pool.rs:33-40 | With no buffer in transit the pool has run out exactly when live slots hold every buffer |
| Passage.RefusedIsCounted | src/listener.rs:530-546 | A call counts a refusal exactly if no batch was queued and making room left no free buffer; sweeps, forced evictions and handled packets never touch that counter |
| Passage.RoomViews | src/listener.rs:548-583 | Making room ends exactly the slots past their threshold and, if that freed no buffer, the least slot left; forcing costs at least one slot |
| Passage.RoomCounts | src/listener.rs:548-583 | Making room lets the number of ranges ever finished grow by exactly those that the harvests of these slots finish |
| Passage.HandledBounds | src/listener.rs:379-477 | A packet opens at most one slot and moves the newest slot to the larger of the two; once moved, every live slot is within the age bound of it |
| Passage.HandledCounts | src/listener.rs:354-477 | A packet lets the number of ranges ever finished grow by exactly those of the harvests it causes and of its own call |
| Passage.PacketCounts | src/listener.rs:340-352 | The same for every packet, whether it was refused, got a free buffer or had slots ended for it |
| Passage.LifeCounts | src/listener.rs:530-546 | Over any sequence of calls: the number of ranges ever finished, by slots long gone and by live ones, grows by the sum of what the packets' own calls and the harvests finished, each counted once |
| Passage.NewListenerCounts | src/listener.rs:530-546 | For a new listener that number is this sum |
| History.LifeRecalled | src/listener.rs:354-477 | Over any sequence of calls each live slot has been reached by exactly the packets admitted for it since it was opened, and exactly what it delivered has been answered for it, in that order |
| History.LiveSlotDelivers | src/listener.rs:354-477 | What is proved of runs holds of every live slot of a listener: its answers are what its completed ranges emitted and what was streamed since, and every range finished whole that decodes was answered as exactly its batch |
| History.LiveSlotIsAsSent | src/listener.rs:354-477 | If all packets admitted for a live slot carry what one sender sent, each range finished whole was answered as exactly the transactions of the sent bytes |
| History.EndingYieldsTheRest | src/listener.rs:491-500 | When a slot ends, its answers and the tail its harvest yields are together all it ever delivered |
| History.LifeAnswersAll | src/listener.rs:530-546 | Over any sequence of calls every batch a slot newly delivers and every tail a harvest yields is answered or still queued, exactly once, and nothing else is |
| Listener.ShredListener.constructor | src/listener.rs:119-165 | A listener with no slots whose invariant holds |
| Listener.ShredListener.EndSlot | src/listener.rs:489-516 | Takes a slot out, harvests it and drops it: everything it held is free again, every other slot and every buffer's bytes are untouched |
| Listener.ShredListener.RetireSlot | src/listener.rs:491-516 | The whole state after ending a slot: live slots, totals with the ranges they stand for, counters, queue, turned-away list, buffers |
| Listener.ShredListener.EvictOldSlots | src/listener.rs:479-528 | Exactly the slots past their threshold end, in whatever order; totals, counters and queue take in exactly these; the turned-away list is then exactly pruned |
| Listener.ShredListener.ForceEvictOldestSlot | src/listener.rs:560-583 | Ends exactly the least live slot, if there is one, with all that ending it adds to totals, counters, queue and turned-away list |
| Listener.ShredListener.AcquireBufferWithFallback | src/listener.rs:548-558 | A sweep is made exactly if live slots hold every buffer, and the least slot is forced out exactly if they still do after it, each with its exact effect on the whole listener; refused exactly if they still do then |
| Listener.ShredListener.FillBuffer | src/listener.rs:348-350 | The packet is in the acquired buffer and every handle a live slot holds still has its bytes |
| Listener.ShredListener.OpenSlot | src/listener.rs:408-412 | The slot's accumulator, a new one exactly when there was none |
| Listener.ShredListener.DataToSlot | src/listener.rs:413-421 | The slot moves on by `push_data`, all others are untouched, and free and held buffers still partition the pool |
| Listener.ShredListener.CodeToSlot | src/listener.rs:458-470 | The slot moves on by `push_code`, all others are untouched |
| Listener.ShredListener.RaiseWindow | src/listener.rs:402-405 | A newer slot becomes the newest and the whole effect of a sweep follows; otherwise nothing changes |
| Listener.ShredListener.HandleData | src/listener.rs:402-428 | The data branch: the window moves up, the slot is opened if need be and moves on by `push_data`; the whole listener state and the answer |
| Listener.ShredListener.HandleCode | src/listener.rs:450-476 | The code branch, likewise; the packet's own buffer goes back |
| Listener.ShredListener.HandlePacketOwned | src/listener.rs:354-477 | For every packet with an index below 0xFFFFFFFF and a FEC set ending below it: the whole listener state afterwards (live slots, window, turned-away list, counters, totals, queue), the answer, which is exactly what its slot newly delivered, and its fate in numbers as in `Fates.FateOf` |
| Listener.ShredListener.HandlePacket | src/listener.rs:340-352 | For the same packets: a refusal is counted, costs at least one slot and answers nothing; otherwise the packet is dealt with as above from where making room left the listener; the ranges ever finished grow by exactly those of its harvests and its own call; after a packet that raises the newest slot the window bound holds |
| Listener.ShredListener.RecvOne | src/listener.rs:530-546 | A queued batch is answered first, leaves the queue, and nothing else changes; otherwise the packet is handled |
| Listener.ShredListener.Next | src/listener.rs:631-651 | Over any packets of that kind: it answers what its last call of `recv_one` answered, every call before that answered nothing, and without an answer the packets have run out. Twice the number of packets counted as refused is at most the calls made plus the live slots lost, so refusals never outnumber the slots there were and the packets let in |
| Listener.ShredListener.EndedStaysEnded | src/listener.rs:388-411 | In every reachable listener state a slot that ended has no accumulator inside the window and its margin |
| Listener.ShredListener.EndedIsTurnedAway | src/listener.rs:388-402 | In every listener state that satisfies the invariant, exactly when a packet for an ended slot is turned away |
| Listener.ShredListener.LiveWhenExhausted | src/listener.rs:548-558 | An empty free list means some slot is live |
| Listener.ShredListener.SumLive | src/listener.rs:300-302 | The sum over live slots |
| Listener.ShredListener.BatchesDecodedStreamingTotal | src/listener.rs:258-261 | Rolled-up part plus live part |
| Listener.ShredListener.BatchesDecodedFallbackTotal | src/listener.rs:263-266 | Rolled-up part plus live part |
| Listener.ShredListener.BatchesSkippedTotal | src/listener.rs:254-256 | Rolled-up part plus live part |
| Listener.ShredListener.BatchesForceFinalizedCorruptedTotal | src/listener.rs:290-293 | Always 0 |
| Listener.ShredListener.TotalsCount | src/listener.rs:254-266 | In every listener state that satisfies the invariant, short of 64-bit overflow, the three public batch totals together are the number of ranges ever finished, which `Passage.LifeCounts` accounts for packet by packet |

## Left out

- Sockets, busy polling, error retry of the iterators, the raw-shred iterator and the startup banner: input and output only. `RecvOne` and `Next` take the packets the socket would yield.
- CPU pinning (src/affinity.rs) and the example programs.
- The internals of the entry codec, the transaction format and Reed-Solomon arithmetic: represented by their laws, with a concrete entry reader and a concrete one-parity code meeting them.
- Locking in the pool and its unsafe cells: acquire and release are single steps.
- Hash-map iteration order: the order in which aged slots end is arbitrary, so the queue is described as a prefix and a multiset of batches.
- Capacity hints, option defaults, and getters that only read a field; the other `_total` getters have the form of the three shown.
- Counters are kept per accumulator in one record and in the listener in another; `SumLive` adds without a width, as the program's sums are only meaningful short of overflow.
- Full delivery of a slot's last batch: the shred flagged last in slot is never stored (src/accumulator.rs:167-172), so nothing of the kind holds.
- The branch for a payload outside its buffer (src/accumulator.rs:256-283): proved unreachable, therefore without a counterpart in `Slot`.
- Wall-clock time inside one call: every reading of the clock in a call gives the same value, and `max_age + 50` is required not to overflow 64 bits.
- Proof sizes are a nibble, as the variant byte can hold no more.
- Slot.Flush: excludes shreds with index 0xFFFFFFFF, at which the loop does not return (`Saturation.FlushNeverReturns`).
- Slot.Advance: excludes shreds with index 0xFFFFFFFF, at which the cursor stays (`Saturation.StreamingStays`).
- Accumulator.SlotAccumulator.SalvageRunsIn: excludes ranges that end at 0xFFFFFFFF, whose scan does not end (`Saturation.ScanEndsExactly`).
- Accumulator.SlotAccumulator.FinishGapped: excludes ranges that end at 0xFFFFFFFF, for the same reason.
- Accumulator.SlotAccumulator.FlushOnce: excludes the turn that gives up a range ending at 0xFFFFFFFF, for the same reason.
- Accumulator.SlotAccumulator.PushData: excludes shreds with index 0xFFFFFFFF, with which its loops need not return (`Saturation.LastPacketHangs`).
- Accumulator.SlotAccumulator.PushCode: excludes FEC sets whose end exceeds 0xFFFFFFFF, where the program's unchecked 32-bit sum depends on how it was built.
- Window.AdmittedIsOk: states nothing of packets with index 0xFFFFFFFF or such a FEC set, though they are admitted (`Saturation.LastIndexIsAdmitted`); the listener's methods exclude them.
- Listener.ShredListener.HandlePacketOwned: excludes packets with index 0xFFFFFFFF or a FEC set that ends past it, for the reasons above.
- Listener.ShredListener.HandlePacket: the same.
- Listener.ShredListener.RecvOne: the same.
- Listener.ShredListener.Next: the same.
- Order.ReceivedIsSet: excludes two different shreds at one index, where it is false (`Conflicts.ReceivedExactly`).
- Order.OrderIndependence: excludes them, too; the exact condition is `Conflicts.OrderMattersExactly`.
