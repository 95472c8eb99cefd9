# Domi: a verified model of the messaging core

Domi is a small Go library for messaging inside a cluster. Most of it is built on buffers and indexes that stand
for something simple: a byte ring for a queue, write slots and a read buffer for a stream of frames, a flat array
for a zip, a pruned bucket list for a count over a time window, a packed word for a rotation. This project models
those components in Dafny and proves that they are what they stand for, or exactly when they are not.

`dafny verify dfyconfig.toml` checks everything.

## How the model is laid out

| files | subject |
|---|---|
| `Bits`, `Conver`, `Slices`, `Lists` | bit operations on naturals, byte encodings and decimal strings, Go's `copy`, lists without repetitions |
| `RingMemory`, `RingProtocol`, `RingSafety`, `RingTheorems`, `RingRuns`, `RingProgress`, `RingCalls`, `RingBuffer` | `util/ring.go`: memory and masks, the interleaved steps, their invariant, what follows for whole runs, particular runs, which states can still deliver everything, what becomes of every call, and the ring as a class |
| `FrameCodec`, `Session` | `transport/frame.go`, the receive half of `transport/tcp_session.go`, and the loop of `transport/tcp_server.go` |
| `SlotProtocol`, `SlotInvariant`, `SlotSafety`, `SlotTheorems`, `SlotLateLock`, `SlotProgress`, `SlotCalls` | the send half of `transport/tcp_session.go` |
| `EndToEnd` | frames from `NewFrameSlice` through slots, the wire and arbitrary reads to a handler |
| `Serial`, `SerialProtocol`, `SerialProgress` | `serial.go`: draining the ring into handlers and the bags of `SubscribeAll`, as classes and interleaved with writing producers |
| `CircuitBreaker`, `BreakerProtocol` | `util/circuitBreaker.go`: the error window and the probes as a class, and the probes' atomic steps interleaved |
| `Rotation`, `Cluster` | `sidecar/cluster.go`: the packed rotation word, the channel table, asking one and asking all |
| `Dispatcher` | `util/work_queue.go` in its running phase |
| `MachineID` | `getMachineID` of `sidecar/etcd.go`, and nodes that come and go |

Where several goroutines share state (ring, slots, breaker, rotation, dispatcher) the code is a transition system
with one step for each atomic operation; a theorem about reachable states is a theorem about every interleaving of
any number of participants. Where one goroutine owns the state, the code is a class whose methods have the loops of
the source. Fields such as `accepted`, `claims`, `place`, `history`, `heard` or `log` only record what has happened,
so that contracts can speak about it.

## Hypotheses, and what happens without them

* **The ring's length word.** Every message starts with its own length (`util/ring.go:80`); cursors stay below 2^64.
  The reader decodes the length word before it looks at any flag (`util/ring.go:83-85`), so while the oldest claim is
  unfilled the word is left over from an earlier lap, or a mixture of old and new bytes; the model lets it be any
  word. `RingProtocol.HeadWordHonest` says that such a word never points at a set flag. A correct read needs exactly
  that (`RingTheorems.ReadCorrectIffHonest`), and so does getting every accepted message out of the ring
  (`RingProgress.DeliversAllIff`); it holds by itself when heads are only decoded once finished
  (`RingTheorems.FinishedRunsAreFifo`); and without it two eight-byte messages followed by two four-byte ones make the
  reader deliver bytes nobody wrote as a message (`RingRuns.StaleHeadBreaksFifo`).
* **A spurious overflow.** The ring's space check subtracts an `availableCursor` that may have passed the claim
  (`util/ring.go:59`). `RingTheorems.RejectedIff` says exactly when the check turns a write away, nothing else does
  (`RingCalls.StepRejects`), and `RingRuns.OverflowOfEmptyRing` is a run in which an empty ring reports an overflow.
* **Locking a slot safely.** Loading `wSlot` and incrementing `writeLock` (`transport/tcp_session.go:218-219`) are
  two steps here, and the comment at `transport/tcp_session.go:321` concedes the gap between them.
  `SlotProtocol.LockSafe` is the assumption: the count is incremented before the slot's worker has seen it at 0, or the
  slot has no space left for the frame anyway. `SlotLateLock.LockSafeIff` shows that this is the exact condition: after
  a safe increment no run of further steps loses an accepted frame, and after any unsafe one some run does, by
  returning nil for a frame that its slot's only batch does not carry. Unsafe increments are reachable
  (`SlotLateLock.LateLockHappens`), and they cost more than the late writer's own frame: if two of them come before
  the batch is sent, the batch has bytes that no call wrote and misses a frame that was counted
  (`SlotLateLock.UnwrittenBytesSent`). `SlotProtocol.AllotBelow` keeps `allotCursor` below 2^32.
* **Reject callbacks.** A slot has room for 4096 empty frames, and its array, used from index 1 on, for 4095
  callbacks. `SlotTheorems.RejectsInRangeIff`: the index leaves the array exactly when a slot fills up with nothing but
  frame heads.
* **The breaker's threshold.** The last bucket's total counts the newest error twice once a second bucket exists
  (`util/circuitBreaker.go:97-104`), so a breaker opens one error early unless all errors fall into one tick;
  `CircuitBreakers.OpensAtThreshold` gives the exact condition.
* **The breaker's probes.** With calls one at a time every probe is more than the sleep window after every earlier
  opening and probe. Interleaved, a caller compares one time and takes the token later. The probes of a run are spaced
  if and only if no free token is taken while an opening or a probe later than the time its caller compared lies within
  the window (`BreakerProtocol.SpacedIffPunctual`); such an opening or probe was pending at that compare or came after
  it (`BreakerProtocol.LaterIsPending`). At most one probe is under way exactly as long as no pass clears the token of
  a running one.
* **Room in the rotation.** Fewer than 2^32 - length callers may stand between their addition and their reset; with
  that many the next call changes the packed length (`Rotation.LengthLost`).
* **AskOne.** Its round counter is declared inside the loop (`sidecar/cluster.go:31`), so nothing but an accepting
  member ends the loop: `Clusters.AskOneEndsIff`.
* **Fresh puts.** The table appends on every put; machines are distinct exactly if no live key is put again
  (`Clusters.DistinctIffFresh`), and `Clusters.PutTwice` shows a dead machine left in the table otherwise.
* **SubscribeAll.** A bag zips its channels if it owns all of its columns, and never fires if it lost one to a
  repetition or a later subscription (`Serials.OwnedBagZips`, `Serials.RobbedBagIsSilent`).
* **Long extends.** The extend length is 16 bits: a frame survives decoding exactly if its extend part is shorter
  than 65536 bytes (`FrameCodec.FrameRoundTrip`).

## Model

| member | source | states |
|---|---|---|
| Bits.MinQuantity | util/ring.go:123-133 | for 1 <= v <= 2^63 the smearing computes the least power of two not below v; for 0 and above 2^63 it wraps to 0 |
| Bits.MaskIsMod | util/ring.go:19 | masking with 2^k - 1 is the remainder by 2^k, for every number |
| RingMemory.MaskIsIndex | util/ring.go:68-76 | masking any cursor with size - 1 is its index in a ring of that size |
| RingMemory.IndexForward | util/ring.go:68-74 | where the index of a cursor some bytes further on lies, with and without wrapping around |
| RingMemory.PutBytesAt | util/ring.go:68-74 | a claim's copy, wrapped or not, puts every byte at its own cursor's index, and the byte at every other index of the ring stays |
| RingMemory.GetBytesAt | util/ring.go:109-120 | reading between two cursors gives, byte for byte, what lies at the indices in between |
| RingMemory.ReadBack | util/ring.go:81-90 | a finished claim reads back as its message, also across the wrap-around |
| RingSafety.StepInv | util/ring.go:46-96 | every atomic step of producers and consumer keeps the ring's invariant |
| RingTheorems.RefinesFifo | util/ring.go:46-96 | each step enqueues the message whose compare-and-swap succeeds, dequeues the oldest one, or changes no queue content |
| RingTheorems.FifoOrder | util/ring.go:46-96 | over every run the messages read are a prefix of the accepted ones, in the order of their claims, and the rest is the queue |
| RingTheorems.ClaimsTileAndFlag | util/ring.go:56-76 | unreleased claims tile the window between the cursors and fill less than the ring; a flag is set exactly at a finished claim's masked end |
| RingTheorems.SliceIsMessage | util/ring.go:81-90 | the slice handed out holds the message last read |
| RingTheorems.SliceStable | util/ring.go:93-96 | whatever producers do, that slice keeps its bytes until availableCursor is stored |
| RingTheorems.FlaggedHeadIsRead | util/ring.go:81-90 | once the oldest claim is flagged a read returns exactly it, whatever producers do between decoding and the flag check |
| RingTheorems.ReadCorrectIffHonest | util/ring.go:83-86 | a flag check returns nothing or the oldest message if and only if the decoded word did not point at another flag |
| RingTheorems.FinishedRunsAreFifo | util/ring.go:46-96 | without any assumption on the word: runs that decode only finished heads are FIFO |
| RingTheorems.NoWriterMeansFinished | util/ring.go:81-90 | with no producer between claim and flag, as under mutual exclusion, every decoded head is finished |
| RingProgress.DeliversAllIff | util/ring.go:46-96 | from a reachable state some further run reads every message accepted so far, if and only if the consumer is not about to look at the flag of a claim that is not the oldest one |
| RingTheorems.RejectedIff | util/ring.go:57-61 | the space check turns a call away if and only if space is missing at the loaded cursor or the consumer has already passed the claim's end |
| RingCalls.StepRejects | util/ring.go:54-66 | nothing but that check turns a call away; after a lost compare-and-swap the call goes on with its message |
| RingCalls.EveryCallOnce | util/ring.go:46-78 | over every run each called message has exactly one claim, or one refusal, or a caller that is not yet at its claim, and there are no others |
| RingCalls.ClaimsByItselfIff | util/ring.go:54-66 | a caller that is not yet at its claim can make it by its own steps if and only if there is room at the cursor and its loaded cursor is not so old that the check will fail |
| RingRuns.RoundTrip | util/ring.go:46-96 | from any empty ring, writing and reading a message delivers it and leaves the ring empty behind it |
| RingRuns.OverflowOfEmptyRing | util/ring.go:57-61 | a run in which a message is turned away by an empty ring |
| RingRuns.StaleHeadBreaksFifo | util/ring.go:83-86 | a run, without the head-word hypothesis, after which the messages read are no prefix of the accepted ones |
| RingRuns.BreakingMessages | util/ring.go:80-90 | a ring and messages for that run exist |
| RingBuffers.RingBuffer.InitRingBuffer | util/ring.go:31-36 | an empty ring of the least sufficient power of two; for sizes 0 and above 2^63, no memory and a mask of ones |
| RingBuffers.RingBuffer.WriteToRingBuffer | util/ring.go:46-78 | appends the message to the queue, or reports exactly which of the three conditions failed and changes nothing |
| RingBuffers.RingBuffer.ReadFromRingBuffer | util/ring.go:81-90 | the oldest message and the cursor behind it; nothing and 0 exactly for an empty queue |
| RingBuffers.RingBuffer.SetAvailableCursor | util/ring.go:93-96 | releasing the message that was read removes it from the queue |
| RingBuffers.RingBuffer.ReadBytes | util/ring.go:109-120 | the masked, possibly joined slices are the bytes between the cursors |
| Conver.OrsAreTheSum | util/conver.go:53-72 | shifting and or-ing the bytes gives the little-endian number |
| Conver.Uint16RoundTrip | util/conver.go:69-80 | writing and reading back keeps the low 16 bits |
| Conver.Uint32RoundTrip | util/conver.go:53-66 | writing and reading back keeps the low 32 bits |
| Conver.Uint32ToString | util/conver.go:11-23 | for every uint32 at most 10 digits, canonical, parsing back to the number |
| Conver.Uint64ToString | util/conver.go:26-38 | for every uint64 at most 20 digits, canonical, parsing back to the number |
| Conver.CanonicalUnique | util/conver.go:11-38 | a number has only one canonical decimal, so the strings above are determined |
| FrameCodec.NewFrameSlice | transport/frame.go:62-76 | the buffer filled by five writes is the encoded frame |
| FrameCodec.FrameRoundTrip | transport/frame.go:62-99 | decoding gives back type, data and extend if and only if the extend part is shorter than 65536 bytes |
| FrameCodec.FrameSlice.WriteToBytes | transport/frame.go:102-108 | the whole frame is copied and nothing else changes, or nothing is written |
| Sessions.ParseAppend | transport/tcp_server.go:153-167 | parsing what has arrived and later the rest is parsing everything at once |
| Sessions.ParseConserves | transport/tcp_server.go:153-167 | routed frames and unread bytes are together the bytes parsed |
| Sessions.ChunkingIndependent | transport/tcp_session.go:116-160 | two ways of cutting a byte stream route the same frames and leave the same bytes |
| Sessions.NoOverflow | transport/tcp_session.go:150-152 | frames no longer than the buffer never make a read fail |
| Sessions.Reassembly | transport/tcp_server.go:140-167 | for every cut exactly the completed frames are routed in order, and routed and pending bytes are all that arrived |
| Sessions.CompletedIs | transport/tcp_server.go:153-167 | the completed frames are as many whole frames as the bytes hold, and none behind the first exit frame |
| Sessions.FitsIffNoFailure | transport/tcp_session.go:150-152 | over all runs: no way of cutting frames that are no exit frames makes a read fail if and only if every frame fits the buffer |
| Sessions.SessionTCP.GetFrameType | transport/tcp_session.go:128-137 | the type of the frame at the front of the unread bytes, or nil if it is not complete |
| Sessions.SessionTCP.GetFrameSlice | transport/tcp_session.go:116-125 | the bytes of the frame at the front, or nothing if it is not complete |
| Sessions.SessionTCP.IoRead | transport/tcp_session.go:141-160 | compaction keeps the unread bytes and a read appends to them; it fails exactly on a full buffer |
| Sessions.SessionTCP.RouteFrames | transport/tcp_server.go:153-167 | the inner loop ends and routes what parsing the unread bytes gives |
| Sessions.SessionTCP.IoLoop | transport/tcp_server.go:140-168 | whatever the reads return, the completed frames are routed in order; a read fails only on a frame longer than the buffer |
| SlotSafety.StepInv | transport/tcp_session.go:214-257 | every atomic step of writers and workers keeps the slots' invariant |
| SlotTheorems.DrainedSlotIsExact | transport/tcp_session.go:316-336 | when a worker finds writeLock at 0 the accepted claims tile the buffer up to availableCursor and it holds their frames in order |
| SlotTheorems.SendWritesBatch | transport/tcp_session.go:332-341 | sending writes exactly that batch, and the ErrAvailableCursor branch is never taken |
| SlotTheorems.WireIsBatches | transport/tcp_session.go:316-345 | over every run the wire carries one complete batch for each sent slot, no slot twice |
| SlotTheorems.OneCrossing | transport/tcp_session.go:220-245 | at most one claim of a slot crosses the boundary, and the first one always fits |
| SlotCalls.SwapReplaces | transport/tcp_session.go:235-243 | after the swap by the crossing call wSlot is another slot, a new and empty one unless somebody else had replaced it |
| SlotCalls.FullIsReplaced | transport/tcp_session.go:220-243 | in every reachable state the current slot has space or a call is about to replace it |
| SlotCalls.ReturnsByItselfIff | transport/tcp_session.go:214-257 | a call that looks for a slot returns nil by its own steps, without any worker, if and only if no range has crossed the current slot's boundary yet |
| SlotCalls.NewCallReturnsIff | transport/tcp_session.go:192-257 | the same for a new call |
| SlotCalls.SwapperReturns | transport/tcp_session.go:235-257 | a call that has replaced a full slot returns nil by its own steps |
| SlotCalls.ReturnsAfterSwap | transport/tcp_session.go:220-243 | behind a full slot the swap of one other call is enough for that |
| SlotCalls.GivesUpIff | transport/tcp_session.go:222-234 | a call gives up at its round busyLimit + 2 beyond the boundary since its last swap, and at no other step |
| SlotTheorems.QueuedExactlyOnce | transport/tcp_session.go:251-256 | a slot is queued at most once, and is queued exactly when its first claimer has returned |
| SlotTheorems.QuietMeansQueued | transport/tcp_session.go:251-256 | with no call under way exactly the slots with claims are queued |
| SlotTheorems.AcceptedExactlyOnce | transport/tcp_session.go:214-257 | a call that returned nil has its frame at exactly one place of one slot, sent in one batch or still to be sent |
| SlotTheorems.RejectsInRangeIff | transport/tcp_session.go:246-250 | at most 4096 claims of a slot are committed, and fewer, so that the index of every callback is inside its array, if and only if the slot is not full of committed frames without data and extend |
| SlotProgress.AcceptedCanBeSent | transport/tcp_session.go:214-345 | from every reachable state some fair run lets every call that has a range return nil and puts all of their frames on the wire |
| SlotTheorems.TurnedAwayNowhere | transport/tcp_session.go:224-231 | a call that gave up has its frame in no slot |
| SlotLateLock.LockSafeIff | transport/tcp_session.go:218-219 | an increment of writeLock is safe if and only if, whatever steps follow, every accepted frame of a slot that was sent is in the slot's batch at its own range |
| SlotLateLock.UnsafeLoses | transport/tcp_session.go:214-257 | after an unsafe increment the late writer can return nil for a frame that the batch does not carry |
| SlotLateLock.NothingLost | transport/tcp_session.go:316-336 | in every state that safe increments lead to, each batch sent carries each accepted frame of its slot |
| SlotLateLock.LateLockHappens | transport/tcp_session.go:316-326 | permitted steps lead from the start to two writers whose increments are unsafe |
| SlotLateLock.UnwrittenBytesSent | transport/tcp_session.go:246-250 | two unsafe increments put bytes on the wire that no call wrote, in the place of a counted frame |
| EndToEnd.MessagesArrive | transport/tcp_session.go:246-247 | messages encoded, batched, put on the wire and cut into any reads come out with the same type, data and extend, in allotment order |
| EndToEnd.SentArrivesOnce | transport/tcp_server.go:140-167 | the message of every accepted call of a sent slot is routed to the handler exactly once, however the wire is cut |
| EndToEnd.AcceptedCanArrive | transport/tcp_session.go:214-345 | from every reachable state some run puts bytes on the wire from which, however they are cut, every accepted message arrives exactly once |
| Serials.Zip | serial.go:131-148 | as many rows as the shortest column has messages; row k holds the k-th message of every column |
| Serials.Bag.SerialProcessWrapper | serial.go:199-214 | the message becomes the last one of its column and no other column changes |
| Serials.Bag.TakeRow | serial.go:139-146 | one call with the next message of every column, and nothing else about the bag changes: the step that SerialProtocol interleaves |
| Serials.Bag.ReadyIffFull | serial.go:133-138 | the first entries of the flat buffer are all there if and only if every column has a message that no call has received |
| Serials.Bag.Fire | serial.go:133-147 | afterwards fs has been called with the zip of everything received |
| Serials.Bag.BufferIsRest | serial.go:192-214 | the buffer is a positive number of whole rows and holds, column by column, what no call has received, then nil |
| Serials.Bag.AddRow | serial.go:205-207 | growing by a row of nil changes no column |
| Serials.OwnedBagZips | serial.go:217-234 | for channels whose handlers are the bag's columns, call k gets the k-th message of every channel, and there are as many calls as the fewest messages |
| Serials.RobbedBagIsSilent | serial.go:217-234 | a bag that lost one of its channels never fires |
| Serials.RegisteredOwns | serial.go:230-233 | a new bag owns all of its columns if and only if its channels are distinct |
| Serials.CallOfEncoded | serial.go:123-128 | the handler of an encoded message is that of its type and gets its data and extend |
| Serials.Serial.Init | serial.go:45-60 | an empty, paused serial with the least sufficient power of two as its ring; size 0 stands for 2^21 |
| Serials.Serial.SerialProcessWrapper | serial.go:151-156 | while the serial works a frame enters the ring, or an overflow is reported exactly if there is no space; otherwise it is dropped without an error |
| Serials.Serial.Subscribe | serial.go:159-167 | the channel's handler is replaced, and the bags stay consistent with the table |
| Serials.Serial.SubscribeAll | serial.go:217-234 | a new bag is registered for all channels, each for its last occurrence in the list |
| Serials.Serial.Drain | serial.go:119-130 | every queued frame is handled once, in order, and the ring is empty; for encoded messages the handlers get their own types, data and extends |
| Serials.Serial.AssignmentTask | serial.go:119-149 | the same, and every bag has then been called with the zip of its channels' messages since the start |
| SerialProtocol.HandledInOrder | serial.go:119-130 | while any number of producers go on writing, the handler calls are those of the first accepted frames, in order |
| SerialProtocol.BagsZip | serial.go:133-147 | and every bag has been called with a prefix of the zip of what its channels brought, all of it once no bag can fire |
| SerialProtocol.MessagesHandled | serial.go:119-147 | when producers write encoded messages, the handler calls are the first accepted messages themselves, and row k of a bag that owns its columns is made of the data of the k-th messages of its channels |
| SerialProgress.FinishesIff | serial.go:119-149 | from a reachable state a run handles every accepted message and fires every complete row, if and only if the consumer is not about to look at the flag of a claim that is not the oldest one |
| SerialProgress.MessageIsHandled | serial.go:119-156 | a message with room can be written and handled, together with everything accepted before |
| CircuitBreakers.BucketsAreTicks | util/circuitBreaker.go:77-113 | the list holds exactly the non-empty ticks of the window with exact counts, at most RollingBucketsNum of them |
| CircuitBreakers.SameTick | util/circuitBreaker.go:91-93 | another error in the last tick keeps the list an exact image of the window |
| CircuitBreakers.NewTick | util/circuitBreaker.go:94-110 | so does a later tick: the pruned list is the window, and the new total counts the newest error twice |
| CircuitBreakers.CircuitBreaker.constructor | util/circuitBreaker.go:57-74 | a closed breaker with an empty window; zero settings get their defaults |
| CircuitBreakers.CircuitBreaker.ErrorRecord | util/circuitBreaker.go:77-120 | a closed breaker opens if and only if the naive window count, plus one unless all errors fell into one tick, reaches the threshold |
| CircuitBreakers.CircuitBreaker.Shift | util/circuitBreaker.go:95-110 | the loop cuts off exactly the buckets that left the window and adds up the others |
| CircuitBreakers.OpensAtThreshold | util/circuitBreaker.go:115-119 | it opens whenever the window holds the threshold's number of errors, never below one less, and is exact if and only if errors share one tick or the count is not one below |
| CircuitBreakers.OpensEarly | util/circuitBreaker.go:97-104 | two errors in neighbouring ticks open a breaker with threshold three |
| CircuitBreakers.CircuitBreaker.IsPass | util/circuitBreaker.go:123-137 | calls pass exactly while the breaker is closed; a probe is sent exactly if it is open, the sleep window is over and the token is free |
| CircuitBreakers.CircuitBreaker.SetCircuitBreakerPass | util/circuitBreaker.go:140-143 | the breaker closes and the token is free |
| CircuitBreakers.ProbesAreSpaced | util/circuitBreaker.go:123-137 | what the class keeps for calls one at a time: each probe comes more than the sleep window after every earlier opening and probe |
| CircuitBreakers.ProbesAlternate | util/circuitBreaker.go:129-134 | between two probes one failed or the breaker was closed |
| BreakerProtocol.TakesAlternate | util/circuitBreaker.go:123-143 | the same for every interleaving of the atomic steps |
| BreakerProtocol.StepLoads | util/circuitBreaker.go:124 | a call begins with loading the current state, and nothing else changes what calls have loaded |
| BreakerProtocol.PassesIffClosed | util/circuitBreaker.go:123-137 | in every interleaving a call returns true if and only if it loaded the closed state, and one that has not returned loaded the open state |
| BreakerProtocol.ClosedIff | util/circuitBreaker.go:115-143 | the breaker is closed exactly after a pass that no trip has followed, or if it was at first and nothing tripped |
| BreakerProtocol.OpensOnce | util/circuitBreaker.go:115-119 | an open breaker is not opened again, and stores no time for it, before a pass |
| BreakerProtocol.ProbeNeedsOpening | util/circuitBreaker.go:123-134 | no probe is sent before the breaker has opened |
| BreakerProtocol.UnansweredStaysOpen | util/circuitBreaker.go:129-134 | while nobody clears the token of an open breaker or closes it, no call takes the token and the breaker stays open |
| BreakerProtocol.SilentProbeStaysOpen | util/circuitBreaker.go:129-134 | so a probe that neither fails nor is answered leaves the breaker open for good |
| BreakerProtocol.FailedProbeFreesToken | util/circuitBreaker.go:131-133 | a failing probe gives the token back and changes neither state nor time |
| BreakerProtocol.PassFreesToken | util/circuitBreaker.go:140-143 | a pass closes the breaker, and then frees the token |
| BreakerProtocol.ExclusiveIff | util/circuitBreaker.go:129-143 | a step keeps "at most one probe, and it holds the token" if and only if it does not clear the token of a running probe |
| BreakerProtocol.OneProbeAtATime | util/circuitBreaker.go:129-143 | runs in which no pass overtakes a probe have at most one probe at a time |
| BreakerProtocol.SecondProbe | util/circuitBreaker.go:129-143 | after a pass has overtaken a probe, a second probe can join it |
| BreakerProtocol.StepSpacedIff | util/circuitBreaker.go:127-130 | a step keeps the probes spaced if and only if it does not take a free token while an opening or a probe later than the compared time lies within the window |
| BreakerProtocol.SpacedIffPunctual | util/circuitBreaker.go:123-137 | for every interleaved run: each probe comes more than the sleep window after every earlier opening and probe if and only if no take of the run is of that kind |
| BreakerProtocol.LaterIsPending | util/circuitBreaker.go:115-130 | in every reachable state an opening or a probe later than the stored time belongs to a caller that has yet to store it |
| BreakerProtocol.UpToDateIsPunctual | util/circuitBreaker.go:127-130 | runs that take a free token only while the stored time is outside the window and none is pending have no such take |
| BreakerProtocol.InitTimes | util/circuitBreaker.go:57-74 | a new breaker is where the statements about interleaved runs start |
| BreakerProtocol.ProbeAtOpening | util/circuitBreaker.go:115-118 | a run with such a take, whose probe is sent at the moment of the opening |
| Rotation.PackIsOr | sidecar/cluster.go:328-334 | packing and unpacking by shift and or is arithmetic on the two halves |
| Rotation.PackRoundTrip | sidecar/cluster.go:328-334 | both halves come back |
| Rotation.RotationSafe | sidecar/cluster.go:366-376 | for every interleaving with room the packed length never changes, the cursor is bounded by length - 1 plus the pending resets, and every index is in range |
| Rotation.AddKeepsLengthIff | sidecar/cluster.go:367 | an addition keeps the length if and only if the cursor half does not overflow |
| Rotation.LengthLost | sidecar/cluster.go:366-376 | a run with 2^32 - length stalled callers after which the next call changes the length |
| Rotation.EachPositionOnce | sidecar/cluster.go:366-376 | run alone, as many calls as the bucket is long return each position exactly once |
| Rotation.AddReturns | sidecar/cluster.go:366-376 | in every interleaving with room, an addition returns the next position, or leaves the caller before its reset if there is none |
| Rotation.CallAloneReturns | sidecar/cluster.go:366-376 | an uninterrupted call returns the index behind the cursor and leaves the cursor there |
| Rotation.RotationIsFair | sidecar/cluster.go:366-376 | as many uninterrupted calls as the bucket is long return each of its positions exactly once |
| Clusters.MembersAreAlive | sidecar/cluster.go:121-143 | without a put of a live key a channel's machines are distinct and exactly the live ones |
| Clusters.DistinctIffFresh | sidecar/cluster.go:344-349 | they are distinct at all times if and only if no live key is put again |
| Clusters.PutTwice | sidecar/cluster.go:344-349 | a machine put twice and deleted once stays in the table |
| Clusters.EventsMatch | sidecar/cluster.go:299-312 | what SetChannel writes is decoded as put and delete of the same channel and machine |
| Clusters.KeyLayout | sidecar/cluster.go:252-257 | the byte positions of machine id and channel in a value and in a key |
| Clusters.Bucket.Add | sidecar/cluster.go:344-349 | the new bucket is the old list with the machine behind it, at the front of its rotation |
| Clusters.Bucket.Remove | sidecar/cluster.go:352-364 | the new bucket is the old list without the machine's first occurrence |
| Clusters.Bucket.Next | sidecar/cluster.go:366-376 | run alone, the machine behind the cursor, whose place the cursor takes |
| Clusters.Cluster.ChannelPut | sidecar/cluster.go:124-133 | the table stays the fold of all events: lists, lengths and absent channels; other channels keep their buckets |
| Clusters.Cluster.ChannelDelete | sidecar/cluster.go:134-143 | the same for a delete, where an empty list becomes an absent channel |
| Clusters.Cluster.InitStateAndChannels | sidecar/cluster.go:207-247 | grouping the snapshot gives the table of its entries as puts, or nothing if messages are pending |
| Clusters.AskOneEndsIff | sidecar/cluster.go:30-43 | the loop meets an accepting machine if and only if a member accepts, and then within one lap |
| Clusters.Cluster.AskOne | sidecar/cluster.go:27-45 | the first accepting machine behind the cursor writes the frame once and no other machine writes it |
| Clusters.Cluster.AskAll | sidecar/cluster.go:50-63 | one attempt for each occurrence of a machine with a session, failures reported one by one; with fresh puts exactly one for each live machine |
| Dispatchers.Dispatcher.AssignmentTask | util/work_queue.go:133-151 | jobs are sent in order until jobs or workers run out: to pairwise different workers, from the front of the pool or, with fewer jobs, from its end; the others stay |
| Dispatchers.HandedInOrder | util/work_queue.go:91-99 | in every reachable state the arrived jobs are those handed out, then jobSlice, then JobQueue |
| Dispatchers.HandedOnce | util/work_queue.go:39-47 | every job handed out is either done or with exactly one worker |
| Dispatchers.WorkersPartition | util/work_queue.go:84-99 | every worker is in exactly one of pool, queue and work, and the total is constant |
| Dispatchers.ReturnNeverBlocks | util/work_queue.go:46 | a worker's send back always finds room in workerQueue |
| Dispatchers.HandNeverBlocks | util/work_queue.go:138-147 | the dispatcher's next send is always to a worker that waits |
| Dispatchers.AssignmentRuns | util/work_queue.go:133-151 | the steps of an undisturbed assignment do the same, and each send reaches its worker |
| Dispatchers.AllCanBeDone | util/work_queue.go:29-48 | from every reachable state with a worker some run hands out every job that has arrived and gets all of them done |
| Dispatchers.JobsCanBeDone | util/work_queue.go:75-99 | and any further jobs, in the order of their submission |
| Dispatchers.BurstFitsIff | util/work_queue.go:63 | a burst of jobs goes into JobQueue, in order and whatever the dispatcher is doing, if and only if it fits into its 2048 places |
| MachineIDs.GetMachineID | sidecar/etcd.go:169-199 | the scan over the sorted ids finds an id not taken; for distinct ids the least one, and it fails if and only if all 1024 are taken |
| MachineIDs.ChoiceIsFree | sidecar/etcd.go:184-194 | with repeated ids the choice is still free, and least if and only if no smaller id is repeated |
| MachineIDs.ChoiceIsLeast | sidecar/etcd.go:184-197 | for distinct ids the choice is the least free one and there is none if and only if all are taken |
| MachineIDs.RegisterIsSafe | sidecar/etcd.go:67-92 | a registration that sees every live node's key gets the least id no live node has |
| MachineIDs.LiveIdsDiffer | sidecar/etcd.go:55-92 | over every run of registrations and expiries no two live nodes have the same id |
| MachineIDs.HappensToOne | sidecar/etcd.go:67-92 | a registration or an expiry changes no other node; an expired node is gone, and a registration fails only if all ids are in use |
| MachineIDs.ExpiredIdIsReused | sidecar/etcd.go:184-197 | with all ids in use, the id of a node that expires goes to the next one that registers |

## Left out

- RingTheorems.FifoOrder: flags, data bytes and cursors are read and written one step each in a single order; the Go memory model gives no such order for the plain flag and byte accesses. The slice is read in one step with its flag, when its claim is finished and no producer writes to it.
- RingBuffers.RingBuffer.ReadFromRingBuffer: returns the bytes, not a slice that shares memory with the ring; that a shared slice stays unchanged is proved in RingTheorems.SliceStable.
- RingBuffers.RingBuffer.SetAvailableCursor: called, as Serial does, with the cursor the last read returned.
- RingBuffers.RingBuffer.WriteToRingBuffer: a message with a wrong length word is outside the contract, as the comment at util/ring.go:80 demands; ReleaseRingBuffer is not modelled.
- SlotTheorems.AcceptedExactlyOnce: holds under LockSafe, which is the exact condition, and AllotBelow; whether the worker's Conn.Write succeeds is not modelled, a write appends to the wire.
- SlotCalls.ReturnsByItselfIff: such a run exists; the callback array and the session's state check are left out, as below.
- SlotProgress.AcceptedCanBeSent: asks that writers about to take their ranges cannot bring allotCursor past 2^32; says that such a run exists, not that a scheduler finds it; and takes the call of a slot's 4096th eight-byte frame to return.
- EndToEnd.AcceptedCanArrive: the same.
- RingProgress.DeliversAllIff: such a run exists; that the scheduler takes it is not modelled.
- SlotTheorems.SendWritesBatch: timeouts and connection errors, which only run reject callbacks, are left out.
- Frames of 32768 bytes and more are sent by a job of their own (transport/tcp_session.go:204-213) and WriteFrameDataPromptly writes directly; neither is modelled, so the order between them and slot frames is not either.
- The reject callbacks: the array is filled from index 1 and walked from index 0 (transport/tcp_session.go:248-249, transport/tcp_session.go:352), so the callback of the newest frame is skipped; which callbacks run is not modelled. The 4096th frame of eight bytes in a slot indexes rejects[4096], behind the end of the array, and panics before writeLock is decremented, which leaves the slot's worker spinning; SlotTheorems.RejectsInRangeIff says when that is, and the model lets that call return.
- The state check and the circuit breaker in front of a write (transport/tcp_session.go:195-202), and buffer pools: a slot's buffer is taken as new.
- Sessions.SessionTCP.RouteFrames: a complete frame with length field 0 makes the source's loop spin, so the contract asks for frames that advance; a length field from 1 to 7 or a Nil type on the wire is allowed here but is not a well-formed frame.
- Sessions.SessionTCP.IoRead: deadlines, and reads that return an error, with or without bytes, are left out.
- Sessions.SessionTCP.IoLoop: the peer's bytes come from a list of well-formed frames; the limiter, deadlines, handlers and their errors are left out. The client's loop is the same and not modelled twice.
- Serials.Serial.AssignmentTask: the class takes calls one at a time, and arrivals during a drain are in SerialProtocol.HandledInOrder and SerialProtocol.BagsZip; handlers that change the serial or panic, the reject and unsubscribe channels of Run, and UnsubscribeGroup are left out.
- Serials.Serial.Drain: the same; no frame arrives while the method runs.
- Serials.Serial.SerialProcessWrapper: only frames whose extend part lies within them, of a channel with a handler; handlers belong to one serial, although the table is global in the source.
- Serials.Serial.Subscribe: before the serial has handled anything, as its comment demands; a later call is logged and performed by the source.
- Serials.Serial.SubscribeAll: before the serial has handled anything, as its comment demands, and for at least one channel; with none the source indexes an empty buffer.
- CircuitBreakers.CircuitBreaker.ErrorRecord: ticks do not decrease, as a clock that is set back would make the unsigned difference wrap around.
- BreakerProtocol.TakesAlternate: ErrorRecord's list is under a mutex and appears only as the step that opens the breaker.
- Clusters.Cluster.AskOne: needs an accepting member, because without one the source does not return; sessions do not change while it runs, and no other caller moves the cursor.
- Clusters.Cluster.AskAll: a session takes every frame or none; its own contract is that of the slots.
- Clusters.Cluster.InitStateAndChannels: the snapshot read and its errors are left out; state messages, node messages and the key-value writes of Run are too.
- Dispatchers.HandedOnce: jobs do not panic and the dispatcher is not being closed; in the shutdown workerPoolCount is changed by both Run and Worker.run without synchronisation.
- Dispatchers.HandNeverBlocks: a fair schedule, under which every job is eventually done, is not modelled.
- MachineIDs.GetMachineID: reading the store and decoding the nodes' JSON are left out; sorting is a function of the model.
- MachineIDs.LiveIdsDiffer: a registration is one step that sees the keys of exactly the live nodes, which the distributed lock and the leases are there for.
- Integers are unbounded except where a register's width matters: the ring's subtraction, the 32-bit slot cursors, the packed rotation word and the byte encodings wrap around as in Go.
- The limiter, logging, signals, HTTP, etcd watches, node names and generated code.
