# Verified models of Halide's async pass, codecs, loop splits, load realignment and graph loops

This project models parts of the repository whose correctness rests on an argument across several
functions, and proves the argument.

- **Asynchronous producers** (`src/AsyncProducers.cpp`). A statement has a serial trace, and two tasks
  with counting semaphores have every interleaving of their events; it also has sites, each piece of
  work with the scopes around it (`WorkSites`). `TightenNodes` and `TightPlaces` move produce and
  consume nodes inwards; `RingIndex`, `RingBuffer` and `RingProtocol` inject a ring buffer and show it
  safe, and `RingRestored` that nothing else changes; `ForkInput`, `AsyncFork` and `ForkPass` split a
  body into a producer task and a consumer task, `HalfPlaces` and `HousedPlaces` say in which scopes;
  `ForkProtocol` and `TaskPair` show what every interleaving keeps, and `ForkOrder` exactly which
  produces a consume waits for; `RingNest` puts injection and
  forking together for a whole nest of loops, `RingOverwrite` says when the ring is too small,
  `RingSlots` and `RingReads` follow the coordinates that are stored to and read; `ExpandAcquire`
  broadens acquires afterwards, `BroadAcquires` and `PackedAcquires` say how far.
- **Codecs** (`ImageDiff/stb_image.h`, `ImageDiff/stb_image_write.h`). Each decoder is an imperative
  class that refines a reference decoder written on bit positions, and each encoder is a method whose
  output the reference reads back. zlib: `Bits`, `BitReversal`, `Canonical`, `ZTables`, `Deflate`,
  `FixedCodes`, `ZDecoder`, `ZEncoding`, `DynamicBlocks`, `ZStreams`, `ZEncoder`, `ZChoices`,
  `ZCompress`, `Adler`. PNG: `PngFilter`,
  `PngReader`, `Adam7`. JPEG: `JpegTables`, `JpegBits`, `JpegReader`, `JpegBlock`, `JpegWriter`, `JpegStandard`,
  `JpegStandardTables`.
  GIF: `GifLzw`, `GifReference`, `GifRoundTrip`, `GifCursor`. Run-length coders: `TgaRle`, `HdrRle`.
- **Loop splitting** (`src/ApplySplit.cpp`): `ApplySplit`, `SplitTails`, `SplitStrategies`, `SplitLists`,
  `SplitLoads`, `SplitSequence`, `SplitExtents`.
- **Vector load realignment** (`src/AlignLoads.cpp`): `AlignLoads`.
- **Graph and rewriting loops** (`src/Associativity.cpp`, `src/AutoScheduleUtils.cpp`): `Subgraphs`,
  `PerformInline`.

`Arithmetic`, `Flatten` and `Options` hold what several modules share.

Semaphore and variable names that the source builds from strings are datatype values here. `simplify`
is any function that keeps an expression's value, and `inline_function` is simultaneous substitution.
Buffers that grow are sequences, tables and images that are filled in place are arrays. C's unsigned
shifts and masks are written as arithmetic, with a proof that nothing overflows where it matters.

What the proofs show about the code:

- `UpdateIndices` looks neither into what a `Provide` of the ring-buffered Func computes nor into the
  coordinates of a call to it, so every access gains the ring coordinate exactly when the Func is
  read in neither place (`RingBuffer.EveryAccessIndexedIff`).  `f(f(x))` keeps a read with too few
  coordinates, and so does `f(x) = f(x) + 1` (`NestedReadIsMissed`, `SelfReadIsMissed`).
- A fork without folding semaphores can hang exactly when some consume node runs more often than the
  producer produces (`ForkProtocol.NeverHangsIff`); `SecondConsumeHangs` is the run for one produce
  and two consumes.
- A consume waits for the produces before it only as far as the consume nodes have run: one that runs
  for the first time after two produces can start before the second ends, unless another consume node
  has met it by then (`ForkOrder.ProducedFirstIff`, `OneNodeWaitsIff`).
- `InjectRingBuffering` indexes its list of loops past the end when no loop is left between the hoisted
  storage and the realization (`RingNest.InjectionNeedsLoop`); the schedule check at
  `src/ScheduleFunctions.cpp:2309-2311` compares the levels, not the loops that are left.
- The semaphore of the ring always counts two, so no run loses a slot exactly when the ring has two
  slots or the nest runs at most once (`RingOverwrite.RingSufficesIff`, for every injected nest).
- `ExpandAcquireNodes` pulls one acquire out of a let each time it visits the let, so a second acquire
  that the let is not used in stays inside unless a realization or node around it is visited again
  (`BroadAcquires.LetsAreTightIff`, `SecondAcquireStays`). Work after a block that is behind an acquire
  and ends in another stays outside the second (`PackedAcquires.TrailingWorkStays`), except where such
  a second visit packs it (`SecondVisitPacks`).
- A tightened node can leave a use of its Func outside only through the bounds of a realization it
  was pushed into, which can be read off the program before the pass (`TightenNodes.BareIff`, `UsesStayInside`, and `BoundsAreLeftOut` for one such
  program).
- `AlignLoads` asks for a ramp of one lane, an internal error, exactly when cutting the dense load
  into native vectors leaves one lane over (`AlignLoads.Aligner.Visit`); with 128-byte vectors a dense
  load of 33 four-byte lanes does, and so does one of 11 lanes at stride 3 (`ThirtyThreeLanes`).
- `stbi_zlib_compress` of no data gives a stream without a block, which does not decode
  (`ZCompress.Compress`, `ZCompress.RoundTrip`).
- `stbi_write_tga_core` compares each pixel of a raw packet with the one two before it, not with its
  neighbour; rows still decode to themselves (`TgaRle.ScanPacket`, `TgaRle.RoundTrip`).
- In `stbi__process_gif_raster` the test `code == avail` comes after `avail` was advanced and never
  holds; the entry under construction is read instead, which gives the same pixel (`GifLzw.NewEntry`).
- That decoder refuses a raster with more than 8191 - 2^cs codes in a row and no clear code, which
  Appendix F of the GIF89a specification allows; otherwise, for pixels of 2 to 11 bits, the two
  agree (`GifReference.AgreesIff`, `DeferredClearIsRefused`).
- A constant factor that is not positive is an error in `apply_split` only when the factor was not
  already taken to divide the extent, and the inner loop is then empty
  (`ApplySplit.InnerIsEmptyIff`, `NotPositiveIsAccepted`); fusing is inexact for two negative extents,
  whose product is positive (`SplitTails.FuseExactIff`).
- `apply_split` records nothing for a renamed dimension, so a split that follows a rename is guarded
  even where the factor divides a known extent (`SplitExtents.RenameForgets`); without renames,
  dividing splits of known extents never are (`NoGuardsNeeded`).
- The JPEG decoder's tables are wrong for 256 symbols when the last has a code of nine bits or fewer
  (`JpegTables.Huffman.Build`, `EightBitsMisread`).  `stbi__mul2shorts_valid` is the wrong way round
  for two negative factors (`JpegBlock.ProductFits`, `NegativeFactorsMisjudged`); its callers here
  pass a quantiser, which is not negative.
- `perform_inline` throws exactly when inlining comes to a function that is not in the environment
  (`PerformInline.Perform`).

## Model

| member | source | states |
|---|---|---|
| TightenNodes.MakeProducerConsumer | src/AsyncProducers.cpp:625-685 | peeling lets, distributing over the parts of a block and passing through nodes and realizations gives the recursively specified tight form |
| TightenNodes.TightenKeepsActions | src/AsyncProducers.cpp:621-709 | for every statement and environment, tightening leaves each task's work, waits, signals and forks in the same order |
| TightenNodes.BareIff | src/AsyncProducers.cpp:625-685 | after tightening one node, some use of its Func is outside its nodes if and only if the node was pushed below realization bounds that use the Func |
| TightenNodes.UsesStayInside | src/AsyncProducers.cpp:687-701 | over any program, with nodes of many Funcs, some use of a Func is outside its nodes afterwards if and only if one was before or the given program has a node with such bounds in its way; the condition is one on the program before any tightening |
| TightenNodes.TightenKeepsPushed | src/AsyncProducers.cpp:687-701 | tightening the nodes inside a node's body neither adds nor removes bounds that use the Func in its way, the Func's own inner nodes being pushed along |
| TightenNodes.PlainIsNeverPushed | src/AsyncProducers.cpp:687-701 | where no realization bounds of the given program use the Func, no node is pushed below such bounds |
| TightenNodes.BoundsAreLeftOut | src/AsyncProducers.cpp:678-682 | a realization whose bounds read a buffer of the Func ends up around the node that contained it |
| TightenNodes.NodesAreTight | src/AsyncProducers.cpp:625-685 | no node made can be pushed further: its body is no realization, node or semaphore, no block unless it produces, and no let that the Func is not used in |
| TightenNodes.TightenKeepsProduces | src/AsyncProducers.cpp:655-659 | every Func has exactly as many produce nodes as before |
| TightPlaces.TightenKeepsWork | src/AsyncProducers.cpp:621-709 | for every program, each leaf and signal stays in order and inside the same lets, storage, loops, conditions, acquires and tasks; only nodes move |
| TightPlaces.IdlePartsAreLeft | src/AsyncProducers.cpp:636-663 | of a block's parts only those that use the Func come to lie in its consume node, and a block that never uses it gets none |
| AsyncFork.GenerateProducerBody.Mutate | src/AsyncProducers.cpp:118-286 | the rewrite succeeds exactly when at most one produce node is left to find and nothing it needs went to the other half; the result's trace, wherever it runs, is the producer's share of the serial trace, and everything kept lies inside the same lets, storage, loops, conditions, acquires and consume nodes as before, but for hoisted storage of Funcs not realized up to then |
| AsyncFork.GenerateProducerBody.VisitOwnProduceNode | src/AsyncProducers.cpp:138-162 | the produce node is kept, refused if it consumes a Func whose producer was dropped, and ends with one release of every semaphore still held |
| AsyncFork.GenerateProducerBody.VisitOtherNode | src/AsyncProducers.cpp:163-182 | other nodes keep the same promise, including the error for a consume node around the produce node |
| AsyncFork.GenerateProducerBody.AppendReleases | src/AsyncProducers.cpp:157-161 | one release per semaphore, last semaphore first, after the body's own work |
| AsyncFork.GenerateConsumerBody.Mutate | src/AsyncProducers.cpp:288-344 | the result's trace is the serial trace without the produce nodes of the Func and with one acquire in front of each consume node, the i-th node taking the i-th semaphore from the back; everything kept lies inside the same scopes as before, but for the allocation of the folding head and the folding acquires |
| AsyncFork.GenerateConsumerBody.VisitProducerConsumer | src/AsyncProducers.cpp:295-309 | the same for produce and consume nodes, with one semaphore popped per consume node |
| ForkPass.ProcessBody | src/AsyncProducers.cpp:404-449 | forking succeeds exactly when there is at most one produce node (none without consume nodes) and nothing is badly nested, and then gives a fork inside one fresh semaphore per consume node whose two tasks have the two halves of the serial trace, each with its work inside the scopes it was inside |
| HousedPlaces.RealizedIff | src/AsyncProducers.cpp:254-276 | the Funcs counted as realized while the producer is made are exactly those whose realization has something of the producer inside |
| HousedPlaces.OnlyHoistsGo | src/AsyncProducers.cpp:267-276 | nothing but hoisted storage is left out around what the producer keeps |
| HousedPlaces.AllHoistsStay | src/AsyncProducers.cpp:267-276 | where the Func of every hoisted storage is realized inside it around something the producer keeps, all of it stays |
| HousedPlaces.NoHoistStays | src/AsyncProducers.cpp:267-276 | where none of the Funcs is realized inside or before, none of it stays |
| ForkPass.ForkIsCorrect | src/AsyncProducers.cpp:118-449 | in every interleaving of the two tasks of any body whose serial run never waits: runs are finite, no state is stuck, and for a consume node that has run once per produce every produce that precedes the consume serially has finished before it starts |
| ForkPass.ForkedIsCorrect | src/AsyncProducers.cpp:425-446 | the same of the program that forking gives, from whatever counts it is reached with: its lets start every semaphore of the fork at zero and change no other |
| ForkPass.OpensAtZero | src/AsyncProducers.cpp:431-446 | inside the semaphore lets of a fork their semaphores count zero and all others what they counted outside |
| ForkOrder.ProducedFirstIff | src/AsyncProducers.cpp:118-449 | for any such body, consume and earlier produce: every interleaving finishes the produce before the consume starts if and only if some consume up to that one is, among the runs of its node, at least as late as the produce is among the produces; otherwise a run is built in which the consume has started and the produce has not ended |
| ForkOrder.OneNodeWaitsIff | src/AsyncProducers.cpp:299-304 | with a single consume node that is: the node has run before at least as often as produces have ended before that one |
| ForkOrder.SerialRun | src/AsyncProducers.cpp:425-429 | the two tasks can always follow the serial run together, up to any event of it |
| ForkProtocol.NeverStuck | src/AsyncProducers.cpp:118-344 | if the serial body never waits, then in every reachable state with work left some task can step |
| ForkProtocol.FinalCounts | src/AsyncProducers.cpp:118-344 | at the end of every run each consume semaphore holds the produces minus its node's consumes, and every other semaphore is where the serial body leaves it |
| ForkProtocol.ConsumeAfterProduce | src/AsyncProducers.cpp:118-344 | in every interleaving, when a consume node has started for the k-th time the producer is past the end of its k-th produce |
| ForkProtocol.NeverHangsIff | src/AsyncProducers.cpp:404-449 | without folding semaphores no run gets stuck if and only if no consume node runs more often than the producer produces |
| ForkProtocol.SecondConsumeHangs | src/AsyncProducers.cpp:404-449 | a produce node and a loop that consumes twice: the run in which the producer is done and the consumer waits for ever |
| ForkProtocol.ProducerBalance | src/AsyncProducers.cpp:157-162 | over any serial trace the producer gives each consume semaphore exactly one count per finished produce |
| ForkProtocol.ConsumerBalance | src/AsyncProducers.cpp:299-304 | over any serial trace the consumer takes one count of its node's semaphore per run of the node |
| TaskPair.RunsAreFinite | src/AsyncProducers.cpp:428-429 | no interleaving of two tasks is longer than their events together |
| RingIndex.BuildIndex | src/AsyncProducers.cpp:770-780 | the index built is the linear combination of the loops inside the hoisted storage, reduced modulo the ring's extent |
| RingIndex.IndexAdvancesByOne | src/AsyncProducers.cpp:770-780 | for any nest with constant bounds, whatever the lower bounds, iteration t has the first index plus t |
| RingIndex.SlotsCollideIff | src/AsyncProducers.cpp:780 | two iterations share a slot if and only if their distance is a multiple of the extent |
| RingBuffer.EveryAccessIndexedIff | src/AsyncProducers.cpp:716-731 | every access to the Func gains one coordinate if and only if the Func is read neither in the coordinates, values or predicate of a store to it nor in the coordinates of a read of it |
| RingBuffer.NestedReadIsMissed | src/AsyncProducers.cpp:725-732 | in `g(x) = f(f(x))` the outer read gains the coordinate and the inner one does not |
| RingBuffer.SelfReadIsMissed | src/AsyncProducers.cpp:716-723 | in `f(x) = f(x) + 1` the store gains the coordinate and the read does not |
| RingRestored.IndicesRestored | src/AsyncProducers.cpp:713-732 | for every statement, taking the last coordinate off the accesses that are looked at gives the statement back: operators, other coordinates and their order, names, predicates, bounds and conditions are as they were |
| RingBuffer.InjectRingBuffering.Mutate | src/AsyncProducers.cpp:744-823 | with the stack of loops and the hoist map pushed and popped as in the source, the result is the specified rewriting and both are restored |
| RingBuffer.InjectRingBuffering.VisitRealize | src/AsyncProducers.cpp:761-792 | a ring-buffered realization gains an extent, its accesses a coordinate, and an async body an acquire in front and a release behind; RingedRestored and InjectedProgram say what that means |
| RingBuffer.InjectRingBuffering.VisitHoistedStorage | src/AsyncProducers.cpp:794-810 | hoisted storage of an async ring-buffered Func is put inside a semaphore of two |
| RingRestored.RingedRestored | src/AsyncProducers.cpp:744-823 | for every program without ring semaphores of its own, taking off the added extents, last coordinates, semaphores, acquires and releases leaves each leaf, signal and end of a node in order and inside the scopes it was inside |
| RingProtocol.RingIsReady | src/AsyncProducers.cpp:782-806 | run serially, ring iterations never wait |
| RingProtocol.TwoIterationsAhead | src/AsyncProducers.cpp:782-806 | in every interleaving the producer has begun at most two produces more than slots were given back |
| RingProtocol.SlotIsKept | src/AsyncProducers.cpp:761-817 | with two or more slots, while the consumer is in iteration u that iteration is fully produced and no later produce has begun to write its slot |
| RingProtocol.OneSlotIsOverwritten | src/AsyncProducers.cpp:798-806 | the smallest case of the next row: with one slot and two bare iterations the second produce begins while the first is being consumed |
| RingOverwrite.RingSufficesIff | src/AsyncProducers.cpp:761-808 | for every injected nest with a consume node: in all runs every slot is intact while it is consumed if and only if the ring has two slots or the nest has at most one iteration; otherwise there is a run in which the second produce has begun in the slot that is being consumed |
| RingOverwrite.RunTo | src/AsyncProducers.cpp:428-429 | whenever each acquire is covered there is a run that does that much of one task and then that much of the other |
| RingNest.InjectionNeedsLoop | src/AsyncProducers.cpp:769-778 | at any depth, the index finds its first loop if and only if at least one loop lies between the hoisted storage and the realization |
| RingNest.InjectedProgram | src/AsyncProducers.cpp:744-823 | injecting into a hoisted nest of loops gives the nest whose every iteration takes a slot, works on indexed accesses and gives the slot back |
| RingNest.InjectedInPlace | src/AsyncProducers.cpp:761-792 | a Func that is not async gets the extent and the coordinate and no semaphore |
| RingNest.RingBodyTrace | src/AsyncProducers.cpp:782-791 | the injected nest can be forked, and its serial trace is one ring iteration per iteration of the nest |
| RingSlots.AccessesGoToSlot | src/AsyncProducers.cpp:716-732 | in iteration t every store to the Func has slot t as its last coordinate and, where every access is indexed, so has every read |
| RingNest.RingNestIsSafe | src/AsyncProducers.cpp:1018-1026 | for the forked ring nest and every interleaving: finite runs, no stuck state, consume semaphores back at 0 and the folding semaphore at 2 when both tasks are done, and with two or more slots none overwritten before it was consumed |
| RingReads.ReadFindsSerialStores | src/AsyncProducers.cpp:713-823 | for the forked ring nest with two or more slots and every access indexed, in every interleaving: when the consumer is about to read the Func at some last coordinate in an iteration whose consume has begun, the producer has performed exactly those stores to that coordinate that come before the read serially |
| RingReads.StoreIsMadeIff | src/AsyncProducers.cpp:782-808 | while the consumer is in iteration u, a store of iteration w to the slot of u has been performed if and only if w is not later than u |
| RingReads.SequentialIsMarked | src/AsyncProducers.cpp:138-162 | whatever work a body does inside the produce node lies between its begin and its end |
| ExpandAcquire.Mutate | src/AsyncProducers.cpp:827-928 | the rewriting with its loops over block parts and lets gives the recursive specification, and the repeated rewriting of realizations and nodes ends because the size stays the same |
| ExpandAcquire.VisitBlock | src/AsyncProducers.cpp:831-856 | rewriting the parts and prepending them from the back gives the rewritten block |
| ExpandAcquire.VisitLets | src/AsyncProducers.cpp:884-917 | the loops over the lets give the specified pulling out; what comes of it is BroadAcquires.LetsAreTightIff and ExpandKeepsPlaces |
| ExpandAcquire.Prepend | src/AsyncProducers.cpp:831-856 | trailing work ends up inside every acquire that starts the statement before it |
| ExpandAcquire.ExpandKeepsActions | src/AsyncProducers.cpp:827-928 | for every statement and environment each task performs the same work, waits, signals and forks in the same order |
| ExpandAcquire.AcquiresStayInScope | src/AsyncProducers.cpp:884-917 | the names acquires use from outside are exactly those they used before, so none left the let of its semaphore or of a variable of its count |
| BroadAcquires.ExpandKeepsPlaces | src/AsyncProducers.cpp:827-928 | for every statement, each leaf, signal and end of a node stays in order and inside the same lets, storage, loops, conditions, nodes and tasks; only acquires move |
| BroadAcquires.ExpandIsBroad | src/AsyncProducers.cpp:858-926 | afterwards no acquire can be reached from a realization, hoisted storage, produce or consume node through blocks' first parts and lets it does not use |
| BroadAcquires.LetsAreTightIff | src/AsyncProducers.cpp:884-917 | afterwards every let directly around an acquire binds a name that acquire uses if and only if no let had more acquires to give than it is visited times; the numbers are read off the program before the pass |
| BroadAcquires.SecondAcquireStays | src/AsyncProducers.cpp:896-917 | of two acquires in a let that neither uses, only the outer one is pulled out |
| PackedAcquires.ExpandPacks | src/AsyncProducers.cpp:831-856 | if no block's first part ends in an acquire behind other work, then afterwards no block starts with an acquire |
| PackedAcquires.PackedIff | src/AsyncProducers.cpp:831-856 | where no realization or node with acquires to give contains such a block, the condition is also necessary |
| PackedAcquires.TrailingWorkStays | src/AsyncProducers.cpp:840-855 | work after a block that is behind an acquire and ends in another is left outside the second |
| PackedAcquires.SecondVisitPacks | src/AsyncProducers.cpp:858-870 | the same block inside a realization is packed, by the second visit |
| BitReversal.BitReverse16Bits | ImageDiff/stb_image.h:4107-4114 | the four mask-and-shift exchanges reverse the low sixteen bits of any value |
| BitReversal.BitReverseValue | ImageDiff/stb_image.h:4116-4122 | reversing s bits gives the value of those bits read backwards |
| Canonical.WindowsIff | ImageDiff/stb_image.h:4124-4169 | for every accepted list of lengths the 16-bit windows that start with a code of at most s bits are exactly those below maxcode[s] |
| Canonical.PrefixFree | ImageDiff/stb_image.h:4138-4149 | no code of an accepted list is a prefix of another (section 3.2.2 of RFC 1951) |
| Canonical.AcceptedIffKraft | ImageDiff/stb_image.h:4143-4145 | the builder's per-length test accepts a list if and only if its lengths satisfy Kraft's inequality |
| Canonical.SymbolOfLength | ImageDiff/stb_image.h:4230-4240 | between the windows of shorter codes and maxcode[s] lies an s-bit code, and its offset counts the earlier symbols of that length |
| ZTables.ZHuffman.Build | ImageDiff/stb_image.h:4124-4169 | building succeeds if and only if the list is accepted, and then fast table, firstcode, maxcode, firstsymbol, size and value decode the canonical code |
| ZTables.ZHuffman.FastLookup | ImageDiff/stb_image.h:4263-4269 | a fast entry is the symbol, and the length, of the code that comes first in the window; zero means no code of at most nine bits does |
| ZTables.ZHuffman.SlowLookup | ImageDiff/stb_image.h:4224-4241 | the slow path finds the symbol whose longer code comes first if there is one, and fails if and only if none does |
| FixedCodes.DefaultCodeIs | ImageDiff/stb_image_write.h:883-888 | the codes the encoder's macros write are the canonical codes of the fixed lengths (section 3.2.6 of RFC 1951) |
| FixedCodes.DefaultsAccepted | ImageDiff/stb_image.h:4452-4468 | the fixed literal and distance lengths are accepted |
| ZDecoder.LengthTables | ImageDiff/stb_image.h:4295-4301 | the length tables are the bases and extra bits of section 3.2.5 of RFC 1951 |
| ZDecoder.ZBuf.FillBits | ImageDiff/stb_image.h:4202-4212 | the buffer is filled past 24 bits with the bytes that come next, and zeros past the end; the overfull guard never fires |
| ZDecoder.ZBuf.Zreceive | ImageDiff/stb_image.h:4214-4222 | returns the value of the next n bits of the input, wherever the buffer is, and advances by n |
| ZDecoder.ZBuf.NeedBits | ImageDiff/stb_image.h:4246-4262 | sixteen bits are available, made up of zeros once at the end, or the decoder has already consumed bits past the end |
| ZDecoder.ZBuf.HuffmanDecode | ImageDiff/stb_image.h:4243-4271 | decodes exactly the symbol whose code is next and consumes its length; fails only if there is none or the input is over |
| ZDecoder.ZBuf.Zexpand | ImageDiff/stb_image.h:4273-4293 | doubling succeeds if and only if the output fits below the largest capacity doubling can reach, from any capacity above zero |
| ZDecoder.DoublingEndsIff | ImageDiff/stb_image.h:4282-4285 | the doubling loop comes to an end, with room or past half of UINT_MAX, if and only if the capacity is not zero or nothing is needed |
| ZDecoder.ZBuf.PutMatch | ImageDiff/stb_image.h:4343-4354 | a match is refused if and only if it reaches before the output or does not fit, and otherwise copies byte by byte, overlaps included |
| ZDecoder.ZBuf.ParseHuffmanBlock | ImageDiff/stb_image.h:4309-4357 | what a block decodes to is what the reference reads; on failure the reference reads nothing or reads past the end of the input |
| ZDecoder.ZBuf.ParseUncompressedBlock | ImageDiff/stb_image.h:4409-4436 | the same for a stored block, from any bit position, and failure is exactly the reference's failure |
| ZDecoder.ZBuf.ReceiveLengths | ImageDiff/stb_image.h:4381-4400 | one symbol of the code lengths is a length, or repeats the last one or zero, as the reference reads it; refused where the reference has none or reads past the end |
| ZDecoder.ZBuf.ComputeHuffmanCodes | ImageDiff/stb_image.h:4359-4407 | the tables built decode exactly the two codes the reference reads at the start of a block (section 3.2.7 of RFC 1951), which DynamicBlocks pins down; failure only where it reads none or runs past the end |
| ZDecoder.ZBuf.ParseDynamicBlock | ImageDiff/stb_image.h:4481-4505 | a block with its own codes decodes to what the reference reads |
| ZDecoder.ZBuf.ParseZlibHeader | ImageDiff/stb_image.h:4438-4450 | accepts exactly deflate headers with right check bits, no dictionary, and input left |
| ZDecoder.ZBuf.ParseZlib | ImageDiff/stb_image.h:4481-4508 | for every input, with fixed, dynamic and stored blocks: whatever the decoder returns is what the reference reads, and what the reference reads without running past the end of the input it returns |
| ZEncoding.TokenReadsBack | ImageDiff/stb_image.h:4309-4342 | with any two accepted codes every literal, match and end of a block is read back from its bits, at any position and before anything |
| ZEncoding.BlockReadsBack | ImageDiff/stb_image.h:4309-4357 | the bits of any sound list of tokens in the fixed codes decode to the bytes they stand for |
| ZEncoding.CodesReadBack | ImageDiff/stb_image.h:4309-4357 | the same with any two accepted codes that have what the tokens need |
| DynamicBlocks.OrderIs | ImageDiff/stb_image.h:4361 | the order of the code-length code's lengths is a closed form: the repeats, zero, then up from eight and down from seven in turn |
| DynamicBlocks.SizesReadBack | ImageDiff/stb_image.h:4368-4377 | any accepted code-length code with lengths below eight is read back from its three-bit lengths, with any number of them given that covers it |
| DynamicBlocks.ListReadsBack | ImageDiff/stb_image.h:4379-4401 | any list of code lengths is read back from any plain and repeat symbols that spell it |
| DynamicBlocks.DynamicBlock.TablesReadBack | ImageDiff/stb_image.h:4359-4407 | for any two accepted lists of lengths, any code-length code and any symbols that spell the lists, the header of a block reads back to exactly those lists |
| DynamicBlocks.DynamicBlock.ReadsBack | ImageDiff/stb_image.h:4481-4505 | and the whole block to the bytes of any sound tokens the two codes can send |
| ZStreams.AnyReadsBack | ImageDiff/stb_image.h:4481-4505 | every stored, fixed or own-code block that can follow what is there is read back, from any bit position |
| ZStreams.StreamReadsBack | ImageDiff/stb_image.h:4481-4508 | any list of such blocks, the last one marked, behind any right header decodes to all their bytes |
| ZStreams.HeaderIff | ImageDiff/stb_image.h:4438-4450 | a header is accepted if and only if its two bytes say deflate with any window, no dictionary, a multiple of 31, and a byte follows |
| ZStreams.BlockIsRefused | ImageDiff/stb_image.h:4409-4427 | the reserved kind of block, and a stored length that its complement does not match, are errors |
| ZStreams.LengthIsRefused | ImageDiff/stb_image.h:4326-4336 | so are the length symbols above 285, in any code that has them |
| ZStreams.DistanceIsRefused | ImageDiff/stb_image.h:4337-4342 | and the distance symbols above 29 |
| ZStreams.MatchIsRefused | ImageDiff/stb_image.h:4343 | and a match from before the first byte |
| ZStreams.ListIsRefused | ImageDiff/stb_image.h:4381-4401 | a list of lengths that starts with a repeat, or runs past its number, is refused |
| ZEncoder.Bitrev | ImageDiff/stb_image_write.h:849-857 | reverses the given number of bits |
| ZEncoder.Countm | ImageDiff/stb_image_write.h:859-865 | the length of the longest agreement, up to the limit and 258 |
| ZEncoder.CopyReproduces | ImageDiff/stb_image_write.h:859-865 | copying from an agreeing earlier position reproduces the data, overlaps included |
| ZEncoder.FindMatch | ImageDiff/stb_image_write.h:924-933 | returns a longest match of three bytes or more among the listed positions in the window, and none only if there is none |
| ZEncoder.BetterMatch | ImageDiff/stb_image_write.h:941-956 | says whether some listed position matches longer one byte later |
| ZEncoder.ZWriter.Add | ImageDiff/stb_image_write.h:880-881 | appends the bits, never overflowing 32 bits, and flushes whole bytes without losing any |
| ZEncoder.ZWriter.Huff | ImageDiff/stb_image_write.h:882-889 | appends the canonical code of any literal, length or end-of-block symbol |
| ZEncoder.FindLength | ImageDiff/stb_image_write.h:958-962 | the table search finds the length symbol whose extra bits hold the rest |
| ZEncoder.FindDistance | ImageDiff/stb_image_write.h:963-965 | the same for distances |
| ZCompress.Lists.Enter | ImageDiff/stb_image_write.h:934-939 | a full list loses its older half, the new position is added, the other lists stay, and all positions are earlier ones |
| ZCompress.PutTokens | ImageDiff/stb_image_write.h:921-974 | for every input and quality what is written is the bits of tokens that stand for all the data, and each token is the one ZChoices.Chosen asks for: no match is shorter than one with the last positions that hash alike or than one at the next byte, and a literal stands only where there is no such match or a longer one at the next byte |
| ZChoices.SearchChooses | ImageDiff/stb_image_write.h:921-956 | what the search finds in lists that hold the last positions of each hash is the choice |
| ZChoices.EnterHolds | ImageDiff/stb_image_write.h:934-939 | a list whose older half is dropped when it is full still holds the last positions of its hash |
| ZCompress.StoreBlocks | ImageDiff/stb_image_write.h:984-999 | the fallback writes blocks of at most 32767 bytes, the last one marked final |
| ZCompress.StoredReadsBack | ImageDiff/stb_image.h:4409-4436 | stored blocks, from any byte position, read back as the data |
| ZCompress.FixedReadsBack | ImageDiff/stb_image.h:4481-4508 | a stream of fixed-code tokens, whatever follows it, reads back as the data |
| ZCompress.Compress | ImageDiff/stb_image_write.h:895-1022 | for every input and quality the result reads back as the data, or is corrupt if there is none; it is the fixed-code block of the chosen tokens, or stored blocks exactly when those are shorter, and ends with the checksum |
| ZCompress.RoundTrip | ImageDiff/stb_image_write.h:895-1022 | compressing and decompressing returns the data if and only if it is not empty, for every quality and every first guess at the size above zero |
| Adler.AdlerSums | ImageDiff/stb_image_write.h:1001-1016 | reducing once per block gives the sums of section 8.2 of RFC 1950 |
| Adler.AdlerIs | ImageDiff/stb_image_write.h:1001-1016 | those sums are one plus the sum of the bytes, and the length plus the sum of the sums of the beginnings, reduced once |
| Adler.NoWrap | ImageDiff/stb_image_write.h:1004-1011 | within a block of at most 5552 bytes neither sum reaches 2^32 |
| Adler.LargestBlock | ImageDiff/stb_image_write.h:1004-1011 | 5552 is the largest block for which that is so |
| Adler.LargerAreComposite | ImageDiff/stb_image_write.h:1008 | none of the primes to 7, 13 and 19 divides the modulus, and one of them divides each larger number below 2^16 |
| PngFilter.PaethsAgree | ImageDiff/stb_image.h:4657-4668 | the reader's branch-free predictor equals the writer's |
| PngFilter.PaethIsNearest | ImageDiff/stb_image_write.h:1083-1089 | the predictor is the neighbour nearest to left plus above less corner, the first of left, above and corner among equals |
| PngFilter.ZeroWhere | ImageDiff/stb_image_write.h:1092-1126 | each filter type has a zero exactly where the byte is what it predicts: zero, the left byte, the one above, their mean rounded down, the nearest neighbour |
| PngFilter.FilterRoundTrip | ImageDiff/stb_image_write.h:1092-1126 | for every type, row, prior row and pixel size, unfiltering a filtered row gives the row |
| PngFilter.UnfilterRoundTrip | ImageDiff/stb_image.h:4737-4787 | and filtering an unfiltered row gives its bytes, so that all bytes are some row's |
| PngFilter.PixelAt | ImageDiff/stb_image_write.h:1099-1100 | row y of an image starts y strides into it, or that far from its last row when it is flipped |
| PngFilter.SignedIsLeast | ImageDiff/stb_image_write.h:1157-1160 | a byte counts in the estimate as the number of least magnitude it can stand for |
| PngFilter.EncodePngLine | ImageDiff/stb_image_write.h:1092-1126 | the line written is the filtered row, with the first row's special types and either row order |
| PngFilter.BestFilter | ImageDiff/stb_image_write.h:1147-1171 | leaves the row filtered by the type returned: the forced one, or the first with the least estimate, or type 0 if no estimate is below the initial bound |
| PngFilter.FilterImage | ImageDiff/stb_image_write.h:1146-1174 | each row is its type followed by its filtered bytes |
| PngReader.RowsRoundTrip | ImageDiff/stb_image.h:4737-4787 | filtered rows followed by anything are restored, whatever types were chosen |
| PngReader.FilterBuffer.NextRow | ImageDiff/stb_image.h:4737-4787 | with the two halves of the buffer changing places each row, the restored row is the unfiltered one |
| PngReader.FilterBuffer.FilterPaeth | ImageDiff/stb_image.h:4774-4779 | the Paeth case restores the row |
| PngReader.FilterBuffer.FilterAverageFirst | ImageDiff/stb_image.h:4780-4783 | the average case of the first row restores the row |
| PngReader.CreateImageRaw | ImageDiff/stb_image.h:4696-4787 | restores the rows; none if and only if the data is short or names an unknown filter |
| PngReader.RowsExistIff | ImageDiff/stb_image.h:4725-4750 | there are rows if and only if there is data enough and every row's filter is known |
| PngReader.ImageRoundTrip | ImageDiff/stb_image_write.h:1128-1178 | every image survives filtering, compressing, decompressing and restoring, for every forced filter and quality |
| Adam7.CoversIff | ImageDiff/stb_image.h:4873-4900 | pixel (i, j) of a pass lands on (x, y) if and only if (x, y) is in the image, belongs to the pass, and (i, j) is its place there (section 2.6 of RFC 2083) |
| Adam7.PassIsTile | ImageDiff/stb_image.h:4873-4883 | the passes are those of the tile in section 2.6 of RFC 2083, written out |
| Adam7.AreasSum | ImageDiff/stb_image.h:4881-4883 | for every width and height the passes' sizes add up to the image's |
| Adam7.Deinterlace | ImageDiff/stb_image.h:4873-4900 | every output pixel is its own pass's pixel |
| JpegTables.Huffman.Build | ImageDiff/stb_image.h:2003-2046 | building succeeds if and only if there are at most 256 symbols and the lengths are accepted, and then the tables decode the canonical code if and only if there are at most 255 symbols or the last has a code of more than nine bits |
| JpegTables.RightIsTabled | ImageDiff/stb_image.h:2033-2044 | no fast table of marks and symbols can be right for 256 symbols the last of which has a short code |
| JpegTables.EightBitsMisread | ImageDiff/stb_image.h:2097-2146 | 256 codes of eight bits are accepted but not rightly tabled: the bound for ten bits takes every window the fast table leaves, and the offset makes a symbol of its ten bits less 768 |
| JpegBits.UnstuffStuffed | ImageDiff/stb_image_write.h:1253-1268 | bytes written with a zero after each 0xFF are read back, before anything |
| JpegReader.Reader.GrowBuffer | ImageDiff/stb_image.h:2075-2091 | loads data bytes until 25 bits are there or a marker or the end was met |
| JpegReader.Reader.HuffDecode | ImageDiff/stb_image.h:2097-2146 | reads the symbol whose code is next, by the fast table or the preshifted bounds; refuses a code that runs past the data |
| JpegReader.Reader.ExtendReceive | ImageDiff/stb_image.h:2153-2167 | the next n bits, sign extended as in section F.2.2.1 of ITU-T T.81, or zero when the data is over |
| JpegBlock.ZigzagsInverse | ImageDiff/stb_image.h:2194-2207 | the reader's and the writer's zigzag tables are inverse permutations |
| JpegBlock.ZigzagOrder | ImageDiff/stb_image.h:2192-2206 | the order goes along the diagonals, down the odd ones and up the even ones |
| JpegBlock.RunPastEnd | ImageDiff/stb_image.h:2194-2206 | a run that leaves the block puts its coefficient in the last place and ends the block |
| JpegBlock.ZeroSize | ImageDiff/stb_image.h:2248-2253 | a symbol of size zero ends the block, except that of run fifteen, which skips sixteen places |
| JpegBlock.ProductFits | ImageDiff/stb_image.h:1078-1084 | for all integers the overflow guard agrees with the product fitting 16 bits if and only if a stated condition on the signs and, for two negative factors, on the bound holds |
| JpegBlock.NegativeFactorsMisjudged | ImageDiff/stb_image.h:1078-1084 | -1 times -2 is refused and -20000 times -2 is let through |
| JpegBlock.BuildFastAc | ImageDiff/stb_image.h:2050-2073 | each entry packs the run, value and length of the coefficient its nine bits hold, or is zero |
| JpegBlock.FastTokenIs | ImageDiff/stb_image.h:2235-2245 | a fast-AC entry that is not zero gives exactly the coefficient the reference reads |
| JpegBlock.ReceiveAc | ImageDiff/stb_image.h:2234-2260 | fast and slow path give the reference's next coefficient, unless it runs past the data |
| JpegBlock.Tables.DecodeBlock | ImageDiff/stb_image.h:2210-2263 | the block is what the reference reads: prediction, runs, ZRL, EOB, dezigzag and dequantisation; it fails when the DC difference cannot be added or multiplied |
| JpegWriter.CalcBits | ImageDiff/stb_image_write.h:1318-1326 | the category is the bit length of the magnitude and the bits pick the value out of it |
| JpegWriter.ExtendUndoes | ImageDiff/stb_image.h:2153-2167 | sign extension undoes the writer's bits for every value |
| JpegWriter.Writer.WriteBits | ImageDiff/stb_image_write.h:1253-1268 | appends the bits, most significant first, through the 24-bit buffer with byte stuffing |
| JpegWriter.ProcessDU | ImageDiff/stb_image_write.h:1355-1396 | writes exactly the block's code: category and bits of the DC difference, runs, ZRL and EOB; returns the next prediction |
| JpegWriter.BlockReadsBack | ImageDiff/stb_image.h:2210-2263 | for every table of 64 multipliers a block's bits, at any position and before anything, decode to each coefficient times the multiplier of its own place, cut to 16 bits; refused if and only if the DC product does not fit them |
| JpegWriter.FittingProducts | ImageDiff/stb_image.h:2243-2259 | where all products fit 16 bits these are the products, and with multipliers of one the coefficients |
| JpegWriter.BlockRoundTrip | ImageDiff/stb_image_write.h:1355-1396 | any 64 coefficients with AC magnitudes to 1023 and a DC difference to 2047 come back times their multipliers, for canonical tables and any multipliers, unless the DC product does not fit |
| JpegStandard.StandardHasCodes | ImageDiff/stb_image_write.h:1425-1462 | a code table whose rows of symbols carry consecutive codes, placed as the counts say, holds the canonical code of every announced symbol |
| JpegStandard.AllUsed | ImageDiff/stb_image_write.h:1400-1424 | as many different symbols as a set has, all from the set, leave no symbol of the set without a code |
| JpegStandardTables.DcLuminanceCovers | ImageDiff/stb_image_write.h:1400-1425 | YDC_HT is the canonical code of the counts and values announced, and covers exactly the twelve DC categories |
| JpegStandardTables.AcLuminanceCovers | ImageDiff/stb_image_write.h:1402-1444 | YAC_HT is the canonical code of the counts and values announced, and covers exactly the 162 AC symbols |
| JpegStandardTables.AcChrominanceCovers | ImageDiff/stb_image_write.h:1414-1462 | the same for UVAC_HT |
| JpegStandardTables.StandardRoundTrip | ImageDiff/stb_image_write.h:1355-1462 | with the writer's own tables, luminance or chrominance, a reader that builds its tables from the announced counts and values, and any multipliers, any 64 coefficients in range come back times their multipliers if and only if the DC product fits 16 bits |
| GifLzw.Gif.OutGifCode | ImageDiff/stb_image.h:6654-6664 | the recursive emission ends, as every prefix is below its own index, and emits the string the links spell |
| GifLzw.NewEntry | ImageDiff/stb_image.h:6755-6757 | a new entry spells the previous string and one more pixel, and every other spelling stays |
| GifLzw.Gif.EnterCode | ImageDiff/stb_image.h:6749-6757 | entering a code, the one under construction included, adds the string that the string decoder adds |
| GifLzw.Gif.HandleCode | ImageDiff/stb_image.h:6744-6771 | every error case and every emitted string is that of the decoder that keeps whole strings |
| GifLzw.Gif.ProcessRaster | ImageDiff/stb_image.h:6691-6774 | for every stream, sub-blocks included, the pixels or the error are those of a decoder that keeps each entry as a string, within the limit of 8192 codes |
| GifReference.AgreesIff | ImageDiff/stb_image.h:6691-6774 | for pixels of 2 to 11 bits and every stream, the result is that of Appendix F of the GIF89a specification, whose full table stays in use, if and only if at most 8191 - 2^cs codes follow one another without a clear code; otherwise it is the too-many-codes error |
| GifReference.StillTracks | ImageDiff/stb_image.h:6749-6768 | entries past the twelfth bit are never named, and testing the low bits of the next code finds the specified widths |
| GifReference.DeferredClearIsRefused | ImageDiff/stb_image.h:6751-6753 | the bytes 0x80 and 12096 or more zeros, for 7-bit pixels, are pixels by Appendix F and an error here |
| GifRoundTrip.RunsReadBack | ImageDiff/stb_image.h:6691-6774 | any runs of words, each after a clear code and cut into entered strings in any way, and the end code: Appendix F reads back their pixels, and so does the program unless a run has more than 8191 - 2^cs words |
| GifRoundTrip.NamelessIsRefused | ImageDiff/stb_image.h:6748-6771 | after any runs a code that stands for nothing yet is an illegal code, and a pixel's code before any clear code is the missing one |
| GifRoundTrip.DataMayEnd | ImageDiff/stb_image.h:6721-6729 | data that ends before another code gives the pixels so far |
| GifRoundTrip.PictureReadsBack | ImageDiff/stb_image.h:6691-6774 | the same of a picture cut into sub-blocks in any way |
| GifRoundTrip.BlocksReadBack | ImageDiff/stb_image.h:6722-6731 | any sub-blocks, up to the empty one, are their bytes |
| GifRoundTrip.EveryPictureCanBeSent | ImageDiff/stb_image.h:6691-6774 | every picture of pixels of 2 to 8 bits has such runs |
| GifCursor.Cursor.OutPixel | ImageDiff/stb_image.h:6666-6688 | the pixel goes to the cursor's row and column, one not drawn before and after all that are in the order of the passes, and there is none left only when all are drawn |
| GifCursor.Cursor.DrawAll | ImageDiff/stb_image.h:6666-6688 | for every frame, interlaced or not and of any width and height, zero included, each pixel is drawn exactly once and then the machine stops (Appendix E of the GIF89a specification) |
| TgaRle.ScanPacket | ImageDiff/stb_image_write.h:562-593 | a run is maximal up to 128 equal pixels; a raw packet goes on while each pixel differs from the one two before |
| TgaRle.WriteRow | ImageDiff/stb_image_write.h:559-605 | a row becomes packets of 1 to 128 pixels that spread to the row, and reading its bytes gives the row; a run has two pixels or more and ends where another pixel or the limit comes, and a raw packet has no pixel equal to the one two before |
| TgaRle.ReadPixels | ImageDiff/stb_image.h:5970-6025 | the loop with its packet state reads what the packet grammar says |
| TgaRle.RoundTrip | ImageDiff/stb_image_write.h:559-605 | any rows of pixels of any width survive writing and reading |
| HdrRle.FindRun | ImageDiff/stb_image_write.h:727-735 | the first run of three, or the end |
| HdrRle.WritePlane | ImageDiff/stb_image_write.h:721-757 | a plane becomes dumps of 1 to 128 bytes and runs of 1 to 127 that spread to it, and reading its bytes gives the plane; no dump holds three equal bytes in a row, and no packet is shorter than its limit unless the other kind or another byte follows |
| HdrRle.ReadPlane | ImageDiff/stb_image.h:7259-7278 | fails exactly on empty or overlong packets, and otherwise puts the plane in every fourth byte and changes no other |
| HdrRle.ReadScanline | ImageDiff/stb_image.h:7230-7278 | accepts exactly a right header and four sound planes, and then holds all four |
| HdrRle.RoundTrip | ImageDiff/stb_image_write.h:721-757 | any four planes of 8 to 32767 bytes survive writing and reading |
| ApplySplit.ApplySplitStep | src/ApplySplit.cpp:14-166 | the results in order and the new alignments, for every tail strategy; an error if and only if the factor is a constant that is not positive and was not already proved to divide |
| ApplySplit.InnerIsEmptyIff | src/ApplySplit.cpp:40-49 | for every accepted constant factor the inner loop is empty if and only if the factor is not positive, and then the alignment let it through |
| ApplySplit.NotPositiveIsAccepted | src/ApplySplit.cpp:40-49 | a dimension already split by eight is split by zero or by minus four without an error |
| SplitTails.ExactIff | src/ApplySplit.cpp:29-132 | for every bounds and positive factor the split loops store each point once and nothing else if and only if the tail is masked, the loop is empty or the factor divides the extent |
| SplitStrategies.StoresPastEndIff | src/Schedule.h:33-130 | for every bounds, factor and tail strategy, a point past the old bound is stored if and only if the strategy is RoundUp or PredicateLoads and the factor does not divide the extent |
| SplitStrategies.StoresBeforeStartIff | src/Schedule.h:85-101 | a point before the first is stored if and only if the strategy is ShiftInwards and the extent is smaller than the factor |
| SplitStrategies.StoresTwiceIff | src/Schedule.h:85-130 | a point is stored more than once if and only if the strategy is ShiftInwards, there is a tail, and a chunk before it |
| SplitStrategies.NothingMissed | src/Schedule.h:33-130 | every strategy stores every point of the old loop |
| SplitStrategies.LoadsPastEndIff | src/Schedule.h:33-130 | loads pass the old bound if and only if the strategy is RoundUp, PredicateStores or RoundUpAndBlend and there is a tail |
| SplitStrategies.BlendsIff | src/Schedule.h:103-130 | stores are blended with what is there by the two strategies named for it and no other |
| SplitTails.FuseExactIff | src/ApplySplit.cpp:134-158 | for all extents the fused loop visits each pair once and no other if and only if not both extents are negative |
| SplitLists.SplitStep | src/ApplySplit.cpp:29-132 | inside the new loops the old variable is base plus inner, and the masks enable exactly the stores of the tail strategy |
| SplitLoads.LoadStep | src/ApplySplit.cpp:52-105 | inside the new loops guarded loads take effect exactly up to the old bound, and others always |
| SplitLoads.GuardedLoadsOnce | src/ApplySplit.cpp:52-105 | guarded loads are made for each old point once and nowhere else |
| SplitLoads.PromiseKeptIff | src/ApplySplit.cpp:66-104 | the clamped variable is the old one, and the bound promised for it holds exactly where the guard does |
| SplitLists.FuseStep | src/ApplySplit.cpp:134-158 | inside the fused loop inner and outer are remainder and quotient, plus their lower bounds |
| SplitLists.RenameStep | src/ApplySplit.cpp:159-162 | the renamed variable has the new one's value |
| SplitLists.SubstitutionsAgree | src/ApplySplit.cpp:98-161 | what is substituted into calls and stores has the value the let statement gives |
| SplitLists.HitsIff | src/ApplySplit.cpp:168-200 | with the bounds computed for the new dimensions, an iteration takes effect at a point if and only if the step's arithmetic relates them and the other dimensions agree |
| SplitLists.SourceHits | src/ApplySplit.cpp:168-200 | every old point is hit by its source iteration |
| SplitLists.HitsOnce | src/ApplySplit.cpp:168-200 | no old point is hit by another iteration |
| SplitSequence.StoresThrough | src/ApplySplit.cpp:14-166 | an iteration of the final loops stores a point exactly when it takes effect in the last step and the iteration it stands for stores the point through the earlier ones |
| SplitSequence.StepsOkIsExact | src/ApplySplit.cpp:14-200 | a list of steps that are exact one by one is exact as a whole |
| SplitSequence.StaysAligned | src/ApplySplit.cpp:24-157 | after every step each recorded alignment divides its dimension's extent |
| SplitExtents.NoGuardsNeeded | src/ApplySplit.cpp:24-157 | from extents recorded as numbers, any list of splits by divisors and of fuses keeps them recorded, and no step adds a guard or a mask, whatever the tail strategies |
| SplitExtents.RenameForgets | src/ApplySplit.cpp:159-162 | a renamed dimension's extent is no longer recorded, so that no split of it is taken to divide |
| SplitSequence.ScheduleIsExact | src/ApplySplit.cpp:14-200 | any list of splits, fuses and renames with positive factors, fresh names and tails that are masked, trivial or proved stores each point of the original domain exactly once and nothing outside it |
| AlignLoads.Aligner.Visit | src/AlignLoads.cpp:45-158 | the rewrite fails if and only if the dense load leaves one lane over a native vector; otherwise the recursion ends on a ranking, every slice is within its vector, the lanes keep their values, loads left alone stay as they are, nothing is read but vectors of the same buffer within the native vectors over the load's own stretch, what they record of their alignment is right if the load's was, and when the offset is known only aligned native vectors and loads left alone are loaded |
| AlignLoads.Aligner.MakeLoad | src/AlignLoads.cpp:37-43 | the same for the load at a new index, which must rank below the old |
| AlignLoads.Aligner.VisitStrided | src/AlignLoads.cpp:90-108 | a stride of 2 to 4 becomes a slice of a dense load, shifted when the offset is below the stride |
| AlignLoads.Aligner.VisitSmall | src/AlignLoads.cpp:112-131 | a load smaller than a native vector becomes a slice of one, shifted back when it still fits |
| AlignLoads.Aligner.VisitNative | src/AlignLoads.cpp:146-155 | a misaligned native vector at a known offset becomes a slice of two aligned ones |
| AlignLoads.Aligner.VisitLarge | src/AlignLoads.cpp:133-144 | a larger load becomes native vectors one after another, the last one shorter if need be; it fails if and only if that one has a single lane |
| AlignLoads.MakeRamp | src/IR.cpp:268-283 | a ramp is made if and only if it has more than one lane |
| AlignLoads.ThirtyThreeLanes | src/AlignLoads.cpp:133-144 | with 128-byte vectors of four-byte lanes, 33 dense lanes and 11 lanes at stride 3 are not rewritten |
| AlignLoads.OffsetIsRight | src/AlignLoads.cpp:83-84 | a known offset is the base's remainder by the native lane count |
| Subgraphs.Close | src/Associativity.cpp:278-287 | after the in-place Warshall loops each set is exactly what its node reaches in one step or more |
| Subgraphs.KeepMaximal | src/Associativity.cpp:289-312 | keeps exactly the nonempty sets that no larger set contains and no earlier set equals |
| Subgraphs.Antichain | src/Associativity.cpp:289-312 | no kept set lies inside another |
| Subgraphs.KeptIsMaximal | src/Associativity.cpp:289-312 | a set is kept if and only if it is nonempty, in no strictly larger set, and the first of its equals |
| Subgraphs.Covered | src/Associativity.cpp:289-312 | every set lies inside a kept one |
| Subgraphs.ComputeSubgraphs | src/Associativity.cpp:278-312 | each kept set is what its node reaches, kept sets form an antichain, and every dependency set lies inside one |
| PerformInline.InlineKeepsValue | src/AutoScheduleUtils.cpp:196-205 | inlining a call keeps the value in every meaning the definitions allow |
| PerformInline.InlineCalls | src/AutoScheduleUtils.cpp:196-205 | the inlined function is gone, the other calls stay, and exactly what it calls comes in, if it was called |
| PerformInline.PendingDrops | src/AutoScheduleUtils.cpp:174-209 | each round lowers a weight of the functions still to be inlined, in any acyclic environment |
| PerformInline.Perform | src/AutoScheduleUtils.cpp:164-211 | in any acyclic environment it ends, and fails if and only if some chain of inlined calls reaches a function that is not in the environment; otherwise no call to a function to be inlined is left, the value is kept, and the result is the expression with the functions of the history inlined in turn, each of them called when its turn comes, and none twice when the order is a realization order |
| PerformInline.InlineKeepsReach | src/AutoScheduleUtils.cpp:196-205 | inlining a function neither adds nor removes a chain of inlined calls to an unknown function |

## Left out

- ForkPass.ProcessBody: does not model the recursion into nested async Funcs and the cloning of their semaphores; its body holds acquires only of the Func's own folding semaphore, around its produce node, and nodes of the Func are not nested in one another.
- ForkPass.ForkIsCorrect: tasks are the event sequences of bounds, conditions and let values that read no storage, since an expression here does not load.
- RingNest.RingNestIsSafe: the nest has constant lower bounds and extents and directly encloses the realization, and the body runs each node of the Func once per iteration.
- RingReads.ReadFindsSerialStores: a value's reads all count, whether or not a select would evaluate them, and only stores inside the produce node count as the producer's.
- RingBuffer.InjectRingBuffering.VisitRealize: a ring-buffered realization outside any hoisted storage of its Func, or with no loop in between, is left out: the source indexes its loops from 1 there, or past the end (RingNest.InjectionNeedsLoop).
- RingBuffer.InjectRingBuffering.Mutate: the same realizations are left out, and so is hoisted storage of a Func inside hoisted storage of the same Func.
- RingBuffer.EveryAccessIndexedIff: bounds, let values and conditions read no storage, so the accesses are those of stores and evaluated values.
- GifRoundTrip.RunsReadBack: the runs are of pixels of 2 to 8 bits, as a byte holds them.
- GifReference.AgreesIff: pixels of 0, 1 or 12 bits, which the specification does not have, are left to GifLzw.Gif.ProcessRaster.
- PackedAcquires.PackedIff: necessary only where no realization or node with acquires to give contains a block whose first part ends in an acquire behind other work; elsewhere a second visit may pack the block, and ExpandPacks and SecondVisitPacks say what is known.
- RingRestored.RingedRestored: the given program has no ring semaphores of its own, which could not be told from the added ones.
- AsyncIR.Eval: expressions have no overflow; Halide's are 32 bits wide.
- TightenForkNodes is not modelled; its hoisted-storage branch at src/AsyncProducers.cpp:956-957 uses the wrong body. InitializeSemaphores and the task runtime are not modelled either.
- ZDecoder.ZBuf.Zexpand: a buffer that may grow must start with a capacity above zero, as doubling zero never ends (ZDecoder.DoublingEndsIff).
- ZCompress.RoundTrip: the first guess is above zero, as for Zexpand; the length is bounded so that the source's `int` holds it rounded up to whole stored blocks; how the output buffer grows is not modelled.
- Deflate.Stored: the 16-bit complement is written as 65535 minus the length.
- JpegReader.Reader.HuffDecode: a refused code leaves the reader's position open; the source drops 16 bits.
- JpegStandardTables.StandardRoundTrip: starts from quantised coefficients and codes one block; the DCT, quantisation and colour conversion before it are floating point, and headers and the order of blocks are not modelled.
- PngReader.ImageRoundTrip: covers 8-bit samples without added alpha; chunks, checksums, palettes and bit depths below 8 are not modelled.
- PngFilter.BestFilter: the estimate is a mathematical integer; the source adds it up in an `int`.
- GifLzw.Gif.ProcessRaster: gives pixel indices; colour tables, transparency, disposal and history are not modelled.
- TgaRle.RoundTrip: pixels are byte strings of one length; channel order, palettes and row order are not modelled.
- HdrRle.RoundTrip: flat scanlines, the fallback for a header that is not run-length coded, and the conversion of floats are not modelled.
- ApplySplit.ApplySplitStep: what a masked load gives is not modelled; SplitStrategies says which loads and stores are made.
- AlignLoads.Aligner.Visit: load indices have no loads inside that would be rewritten first, and `is_hexagon_aligned` is taken at its word through the alignment a load carries.
- PerformInline.Perform: functions are pure, with one value; operators take any number of arguments and have no meaning of their own.
- Progressive JPEG, other image formats, the associative operator table, parameter and image checks and the demonstration programs have no harder property to add.
- Files, callbacks, memory allocation and failure messages are parameters or absent.
