# Verified protocols of the lock-free ring buffer library

A Dafny model of the shared-memory protocols of `lf_ring` and proofs about every run of them: the
byte ring with many producers and one or many consumers, the single-producer byte ring with crash
takeover, the fixed-slot `SPSCQueue`, the `SharedLatest` seqlock slot, and the typed messages on top
of the rings. `dafny verify dfyconfig.toml` checks everything.

## How the system is modelled

Concurrent code is a state machine. Every load, store and read-modify-write of shared memory is one
step, payloads are copied one byte (rings) or one word (`SharedLatest`, `SPSCQueue`) at a time, and a
run is any interleaving of the steps of any number of threads. `compare_exchange_weak` may fail on an
equal value. Memory is sequentially consistent.

| modules | source |
|---|---|
| `Arithmetic`, `Bytes`, `RingLayout` | positions modulo the capacity, masks, little-endian fields, `align_up`, the record header |
| `FrameLog`, `FrameLogFacts`, `Fifo` | the ring as counters and bytes, with the history of frames laid out in it; the queue it stands for |
| `RingWriter`, `RingWriterProofs`, `WriterProgress`, `WriterAnswers` | the multi-producer writer: reserve, write in place, publish in order; what it answers |
| `MpmcRing`, `MpmcProofs`, `MpmcProgress`, `MpmcSystem`, `MpmcTheorems`, `MpmcStale`, `MpmcFalse`, `MpmcSpurious`, `MpmcSolo` | the multi-consumer ring |
| `SingleConsumer`, `SingleConsumerProofs`, `MpscSystem`, `MpscTheorems`, `MpscStuck` | the single-consumer `try_pop` against many producers |
| `SpscRing`, `SpscProofs`, `SpscSystem` | the single-producer writer, crashes and `claim` |
| `RingDecode`, `PushSpec`, `RingBuffer`, `PushFit` | the ring as a class over an array: both writers, both readers and `claim` with their loops, proved against functions on the bytes |
| `SoloWriter`, `SoloPusher`, `SoloPopper` | the step machines of both writers and of the single-consumer reader, run alone, do what those functions say |
| `LatestSlot`, `LatestProofs`, `LatestTheorems`, `LatestRecovery`, `LatestWrites`, `LatestAnswers`, `LatestReads`, `LatestWitness` | `SharedLatest`: claimants, writers, readers, waiters, crashes, a clock; what a finished call has done and what its answer means |
| `LatestObject` | `SharedLatest` as a class: its methods with their loops, and a writer that stops after any store |
| `SpscQueue`, `SpscQueueProofs`, `QueueProgress` | `SPSCQueue` with indices modulo 2^64 |
| `QueueObject` | `SPSCQueue` as a class over an array of slots |
| `TypedMessages` | codecs, the typed writer and reader |

The shared part of the byte rings is `FrameLog.Ring`. Its fields `log`, `iHp` and `iTp`, the `claims`
of the consumers, and `vals`, `epoch`, `marks` and `lostAt` in `LatestSlot` are history: they are written
by the steps and never read by the modelled code. `RingDecode.Decode` reads the queue back from the
bytes alone, so the meaning of the ring does not rest on the history.

Assumptions, all of them stated in the contracts or in the data model:

- The counters of the byte rings are natural numbers, that is, fewer than 2^64 bytes pass through a
  ring. Unsigned subtraction is `Diff64` and does wrap when the subtrahend is larger. `SPSCQueue`
  stores its indices modulo 2^64 and needs no such assumption.
- The capacity is positive. That it is a multiple of 8 is not needed.
- A fresh ring is all zeros.
- A run of the multi-consumer ring is *fresh* if no consumer loads `head_reserve` while its earlier
  load of `tail_publish` lies behind it and every published frame is already claimed. This is weaker
  than asking that the tail snapshot is never behind the head snapshot.
- A run of `SharedLatest` is *undisturbed* if nobody owns the slot at any moment between a claimant's
  load of the sequence and its taking the slot. A claimant can arrange this by claiming only when the
  previous writer has stopped and no other process is claiming. A take under this assumption still
  finds the parity that the claimant loaded (`LatestTheorems.ParityFollows`). That a taker is the only
  owner is not enough; see below. A run is *timely* if fewer than 2^32 notifications fall between a
  snapshot and the wait that uses it.

## Where code and documentation disagree

The model follows the code.

- `SharedRingBufferMPMC::try_pop` loads the tail before the head. With two consumers the head can pass
  the tail snapshot, the unsigned difference wraps, and a consumer claims bytes nobody published.
  `MpmcStale.StaleClaimReachable` is such a run with capacity 24; `MpmcStale.StaleExact` says exactly
  when it happens; `MpmcTheorems.OneConsumerFresh` proves that it never happens with one consumer.
- `SharedRingBufferMPMC::try_pop` can answer false with a record in the queue, once another consumer
  has moved `head_reserve` and the header at the old position has been overwritten
  (`MpmcSpurious.SpuriousFalse`). While `head_reserve` equals its snapshot, none of
  its size exits is taken, and a lost exchange never ends the call (`MpmcFalse.FalseMeans`).
- `SharedLatest::claim` says that the caller becomes the sole writer. It checks the parity of the
  sequence and the age of the heartbeat, not whether somebody writes. `LatestRecovery.ClaimAloneExact`
  says of every call that runs alone when it succeeds and that it then leaves a second writer whenever
  there was one; `LatestWitness.TwoResumersBothOwn` is a run with two writers.
- `SharedLatest::claim` never looks at the sequence again after its first load. If the writer commits
  and dies while a claimant that saw an odd sequence is about to recover, or opens a write and dies
  while one that saw an even sequence is about to resume, a reader can succeed with a torn payload,
  with one owner at a time throughout and no reset of the sequence between its loads
  (`LatestWitness.TornByLateRecovery`, `LatestWitness.TornByLateResume`). With one owner at a time the
  slot stays consistent if and only if every taker finds the parity that it loaded
  (`LatestTheorems.SoleRunExact`); a taker that does not find it ruins the slot for readers by its own
  next steps, from any state (`LatestRecovery.LateRecoveryHarms`, `LatestRecovery.LateResumeHarms`).
- `SharedLatest` says that readers never see torn payloads. Recovery resets the sequence to 0, so even
  in an undisturbed run a read that straddles one can succeed with a payload that was never there
  (`LatestWitness.TornAcrossRecovery`). In an undisturbed run, without a recovery between its two
  loads, it cannot (`LatestTheorems.ReadReturnsCommitted`).
- `write_and_notify` says that it wakes any waiters. If the notifier dies between counting and waking,
  a waiter stays blocked behind a committed and counted write until its timeout or the next
  notification (`LatestWitness.WakeUpLost`). In a timely run
  this is the only way to lose a wake-up (`LatestTheorems.NoLostWakeUp`).
- The span overload of `try_push` casts the length to 32 bits, so an encoding of 2^32 bytes or more is
  cut off silently (`TypedMessages.SentWhole`).
- The typed reader hands out its whole buffer, which never shrinks. A shorter message after a longer
  one does not come out as it went in (`TypedMessages.TypedRoundTrip`).

## Model

| member | source | states |
|---|---|---|
| Arithmetic.PhysicalDisjoint | include/lf_ring/ring_writer.hpp:49-50 | two disjoint intervals of one capacity-sized window that do not cross the boundary occupy disjoint bytes of the ring |
| Arithmetic.MaskIsMod | include/lf_ring/spsc_queue.hpp:48 | masking with 2^k - 1 is reduction modulo 2^k |
| Arithmetic.PowerOfTwoTest | include/lf_ring/spsc_queue.hpp:43-44 | the compile-time test `c & (c - 1) == 0` accepts exactly the powers of two |
| RingLayout.AlignUpLeastMultiple | include/lf_ring/ring_layout.hpp:39-41 | for a power-of-two alignment the masked sum is the least multiple that is not below the value |
| RingLayout.RecordSizeIsAligned | include/lf_ring/ring_writer.hpp:31 | the record size used throughout is `align_up` of header plus payload |
| Bytes.FieldRoundTrip | include/lf_ring/ring_layout.hpp:54-59 | loading a stored little-endian field gives the value modulo the width of the field |
| RingLayout.LoadHeader | include/lf_ring/ring_layout.hpp:54-61 | size, type, flags and sequence read from a stored header are the ones stored |
| RingLayout.WrapIsBit | src/shared_ring_buffer.cpp:74 | the readers test exactly the lowest bit of the flags |
| RingWriterProofs.ReserveKeeps | include/lf_ring/ring_writer.hpp:40-72 | a successful compare-and-swap on `tail_reserve` adds exactly the frames of this producer and keeps the writers' invariant |
| RingWriterProofs.StoreKeeps | include/lf_ring/ring_writer.hpp:74-94 | every header or payload store of any producer keeps all published frames and all other producers' bytes |
| RingWriterProofs.PublishKeeps | include/lf_ring/ring_writer.hpp:96-103 | the store to `tail_publish` keeps the writers' invariant and leaves the producer idle |
| RingWriterProofs.ProducerKeeps | include/lf_ring/ring_writer.hpp:25-104 | every step of every producer keeps the writers' invariant; what a step answers is `WriterAnswers.CallStep` |
| RingWriterProofs.ProducerFifo | include/lf_ring/ring_writer.hpp:96-103 | a producer step changes the queue only at its store to `tail_publish`, which appends its message |
| WriterAnswers.CallStep | include/lf_ring/ring_writer.hpp:40-103 | a call keeps its request, a push carries it and ends the call, and the call ends without a push if and only if it is at the reservation and the padding and record do not fit between its two snapshots; a lost exchange goes round again |
| WriterProgress.ReservationInside | include/lf_ring/ring_writer.hpp:61-72 | every reservation in flight lies in [tail_publish, tail_reserve) |
| WriterProgress.ReservationsTile | include/lf_ring/ring_writer.hpp:61-72 | every byte in [tail_publish, tail_reserve) belongs to exactly one producer in flight |
| WriterProgress.TurnHolder | include/lf_ring/ring_writer.hpp:96-100 | whenever tail_publish < tail_reserve exactly one producer in flight starts at tail_publish |
| WriterProgress.TurnHolderMoves | include/lf_ring/ring_writer.hpp:74-103 | the producer whose turn it is can always step, and gets closer to publishing with each step |
| WriterProgress.PublishDecreases | include/lf_ring/ring_writer.hpp:102 | each publication lowers the number of producers in flight by one |
| WriterProgress.Drain | include/lf_ring/ring_writer.hpp:96-103 | no deadlock: from every state that satisfies the invariant the producers in flight can publish every reservation by their own steps |
| MpmcProofs.SpeculationOK | src/shared_ring_buffer_mpmc.cpp:49-95 | what a consumer reads before its compare-and-swap is right as long as `head_reserve` equals its snapshot |
| MpmcProofs.ClaimTakesNext | src/shared_ring_buffer_mpmc.cpp:62-111 | a successful compare-and-swap claims exactly the next unclaimed published frame, and the header read before it was the committed one |
| MpmcProofs.HandBackIsNext | src/shared_ring_buffer_mpmc.cpp:113-128 | the store to `head_publish` hands back the oldest claimed frame; a record is delivered as it was pushed and ends the call, after padding the call goes on |
| MpmcProgress.ClaimInside | src/shared_ring_buffer_mpmc.cpp:97-111 | every claim in flight lies in [head_publish, head_reserve) |
| MpmcProgress.ClaimsTile | src/shared_ring_buffer_mpmc.cpp:97-111 | every byte in [head_publish, head_reserve) belongs to exactly one consumer that holds a claim |
| MpmcProgress.TurnHolder | src/shared_ring_buffer_mpmc.cpp:70-72 | whenever head_publish < head_reserve exactly one consumer holds the claim that starts at head_publish |
| MpmcProgress.HandBackDecreases | src/shared_ring_buffer_mpmc.cpp:125-127 | each store to `head_publish` lowers the number of consumers holding claims by one |
| MpmcProgress.Drain | src/shared_ring_buffer_mpmc.cpp:91-93 | no deadlock: the consumers holding claims can hand back everything claimed by their own steps |
| MpmcSystem.StepKeeps | src/shared_ring_buffer_mpmc.cpp:47-130 | every fresh step of any producer or consumer keeps the invariant and is a step of a FIFO queue |
| MpmcSystem.RunSafe | src/shared_ring_buffer_mpmc.cpp:47-130 | in every fresh run, the messages pushed are the messages popped, in order, followed by those queued: nothing lost, duplicated, reordered or altered |
| MpmcSystem.CountersOrdered | src/shared_ring_buffer_mpmc.cpp:49-59 | head_publish <= head_reserve <= tail_publish <= tail_reserve <= head_publish + capacity |
| MpmcTheorems.ApproxSizeBounds | src/shared_ring_buffer_mpmc.cpp:132-140 | `approx_size` by any thread, with any delay between its loads, does not wrap: it is the difference of the loads cut at the capacity, at least the bytes in the ring at its second load, and exactly those if the head has not moved in between |
| MpmcTheorems.SequenceNumbers | include/lf_ring/ring_writer.hpp:98-102 | the k-th message pushed, and so the k-th popped, carries number k + 1, for any interleaving |
| MpmcTheorems.PublishedStable | src/shared_ring_buffer_mpmc.cpp:80-127 | no step of any thread changes a byte of a published frame that is not handed back |
| MpmcTheorems.FrozenUntilHandedBack | src/shared_ring_buffer_mpmc.cpp:80-127 | over any stretch of a fresh run, header and payload of a frame stay as published until its own hand-back |
| MpmcTheorems.ClaimsGrow | src/shared_ring_buffer_mpmc.cpp:107-111 | claims are added one frame at a time, in publication order, each frame to one consumer, never beyond what is published |
| MpmcTheorems.PopDelivers | src/shared_ring_buffer_mpmc.cpp:113-129 | a completed pop delivers type, payload and number of the record at the head to the one consumer that claimed it |
| MpmcTheorems.OneConsumerFresh | src/shared_ring_buffer_mpmc.cpp:50-51 | with one consumer every run is fresh, so all of the above holds without assumption |
| MpmcTheorems.RefusedMeans | include/lf_ring/ring_writer.hpp:40-72 | in every fresh run `try_push` returns false only if its padding and record did not fit between the values that `head_publish` and `tail_reserve` had at its two loads |
| MpmcStale.StaleClaimReachable | src/shared_ring_buffer_mpmc.cpp:50-72 | a run with two consumers that ends with `head_reserve` beyond `tail_publish` |
| MpmcStale.SoloTargetIsRun | src/shared_ring_buffer_mpmc.cpp:49-111 | the function that predicts what a consumer running alone claims is what its steps do |
| MpmcStale.StaleExact | src/shared_ring_buffer_mpmc.cpp:50-103 | such a consumer claims beyond `tail_publish` if and only if its tail snapshot is stale on a fully claimed ring and the bytes there look like a frame that fits; otherwise it gives up or takes exactly the next frame |
| MpmcFalse.FalseMeans | src/shared_ring_buffer_mpmc.cpp:53-105 | in a fresh run a step of `try_pop` answers false if and only if at its head load every frame up to its tail snapshot was claimed, or what it has read does not fit into what its snapshots make available; the second only after another consumer has moved `head_reserve`. No other step ends the call without a record, a lost exchange included |
| MpmcSpurious.SpuriousFalse | src/shared_ring_buffer_mpmc.cpp:97-105 | a fresh run in which it answers false with a record in the queue |
| MpmcSolo.SoloPop | src/shared_ring_buffer_mpmc.cpp:47-130 | every call that runs alone while no claim is open, whatever the other threads have begun: it pops exactly the first queued message, or nothing if none is queued, and changes nothing but the head |
| MpmcSolo.SoloPopEnds | src/shared_ring_buffer_mpmc.cpp:47-130 | such a call can end, from every such state |
| SingleConsumerProofs.PopperKeeps | src/shared_ring_buffer.cpp:52-109 | every step of the single consumer, with either order of its two head stores, keeps the ring and is a step of the queue |
| MpscSystem.RunRefinesFifo | src/shared_ring_buffer.cpp:52-109 | every run of many producers and one consumer is a run of a FIFO of (type, payload, sequence), pushes taking effect at `tail_publish` and pops at `head_publish` |
| MpscSystem.EarlyReturnsUnreachable | src/shared_ring_buffer.cpp:84-90 | the two size-check returns are never taken, and a call skips at most one frame |
| MpscSystem.RecordAfterSkip | src/shared_ring_buffer.cpp:65-79 | the step that completes a skip sends the same call back to the tail load, and a published record is then queued |
| MpscSystem.FalseMeansEmpty | src/shared_ring_buffer.cpp:55-60 | a call that ends without delivering a record does so at its head load, and only if no record was published at its last load of the tail |
| MpscTheorems.CountersOrdered | src/shared_ring_buffer.cpp:55-56 | head_publish <= tail_publish <= tail_reserve <= head_publish + capacity |
| MpscTheorems.SequenceNumbers | include/lf_ring/ring_writer.hpp:98-102 | the k-th message pushed, and so the k-th popped, carries number k + 1 |
| MpscTheorems.ApproxSizeBounds | src/shared_ring_buffer.cpp:111-119 | `approx_size` is the difference of its loads cut at the capacity, at least the bytes in the ring at its second load, and exactly those if the head has not moved in between |
| MpscTheorems.RefusedMeans | include/lf_ring/ring_writer.hpp:40-72 | in every run `try_push` returns false only if its padding and record did not fit between the values that `head_publish` and `tail_reserve` had at its two loads |
| RingDecode.DecodeQueue | src/shared_ring_buffer.cpp:58-90 | in every state that satisfies the ring invariant the bytes between head and tail parse as frames that stay inside the boundary, into exactly the queued messages |
| SpscProofs.PusherKeeps | src/shared_ring_buffer_spsc.cpp:57-136 | every step of the single producer keeps its invariant and is a step of the queue |
| SpscSystem.RunSurvivesCrashes | src/shared_ring_buffer_spsc.cpp:57-205 | however often the producer dies, after whatever step: the bytes decode to exactly the messages whose `tail_publish` store happened and which were not popped, in FIFO order |
| SpscSystem.ClaimAfterCrash | src/shared_ring_buffer_spsc.cpp:44-54 | a crash followed by `claim` leaves the queue as it was and `tail_reserve` equal to `tail_publish` |
| SpscSystem.SequenceIncreases | src/shared_ring_buffer_spsc.cpp:129 | sequence numbers are strictly increasing over the whole run, crashes included |
| SpscSystem.EarlyReturnsUnreachable | src/shared_ring_buffer_spsc.cpp:180-186 | the two size-check returns are never taken, and a call skips at most one frame |
| SpscSystem.FalseMeansEmpty | src/shared_ring_buffer_spsc.cpp:151-157 | a call that ends without delivering a record does so at its head load, and only if no record was published at its last load of the tail |
| SpscSystem.RefusedMeans | src/shared_ring_buffer_spsc.cpp:70-117 | a call ends without a push if and only if it is at its decision and there is no room - for the padding alone if the gap is too short for a header - between the tail and a head that was right when loaded |
| SpscSystem.ApproxSizeBounds | src/shared_ring_buffer_spsc.cpp:207-215 | the same of the single-producer ring, crashes included |
| RingBuffer.Ring.PushShared | include/lf_ring/ring_writer.hpp:25-104 | without contention the shared writer succeeds exactly when the source is admissible and the record with its padding fits; it then appends exactly its message, otherwise it changes nothing |
| RingBuffer.Ring.PutLoop | src/shared_ring_buffer_spsc.cpp:70-135 | the push loop ends, and its whole effect on bytes, tail and sequence is one function of the state before |
| RingBuffer.Ring.PushSingle | src/shared_ring_buffer_spsc.cpp:57-136 | the single-producer writer succeeds under the same condition and appends the same message; a refused push never changes the queue |
| RingBuffer.Ring.PopTurn | src/shared_ring_buffer.cpp:54-108 | one turn of the pop loop on any bytes, malformed ones included: step over padding, take the record at the head, or give up |
| RingBuffer.Ring.TryPop | src/shared_ring_buffer.cpp:52-109 | true exactly when a message is queued; then the first one is removed and laid over the front of the caller's buffer, which never shrinks |
| RingBuffer.Ring.PopTurnMany | src/shared_ring_buffer_mpmc.cpp:49-128 | one turn of the multi-consumer pop loop on any bytes, malformed ones included, for the only active consumer |
| RingBuffer.Ring.TryPopMany | src/shared_ring_buffer_mpmc.cpp:47-130 | for the only active consumer the multi-consumer `try_pop` has the contract of the single-consumer one |
| RingBuffer.Ring.Claim | src/shared_ring_buffer_spsc.cpp:49-51 | the queue is unchanged and `tail_reserve` equals `tail_publish` |
| RingBuffer.Overlay | src/shared_ring_buffer.cpp:92-98 | the buffer is as long as the longer of buffer and payload, starts with the payload and keeps its old bytes behind it |
| PushSpec.DecodeKept | include/lf_ring/ring_writer.hpp:62-94 | bytes written behind the tail and within the capacity leave the decoded queue as it is |
| PushSpec.PushAppends | include/lf_ring/ring_writer.hpp:74-102 | the bytes of a push that fits decode to the old queue followed by its message |
| PushFit.CompareWriters | src/shared_ring_buffer_spsc.cpp:57-136 | both writers called on rings in the same quiescent state: the same answer, identical bytes, tail and sequence on success, the same decoded queue in every case, and an untouched shared ring on refusal |
| PushFit.EmptyFit | include/lf_ring/ring_writer.hpp:44-64 | on an empty ring at position p a record of size r fits exactly when r <= capacity - p or r <= p; always if r is at most half the capacity, and not exactly when capacity - r < p < r |
| PushFit.RetrySingle | src/shared_ring_buffer_spsc.cpp:82-91 | a push stuck on an empty ring, a look by the consumer and a second push: the single-producer writer gets the record in if and only if the gap is too short for a header |
| MpscStuck.StuckForever | include/lf_ring/ring_writer.hpp:40-72 | from every consistent state with an empty ring and nothing reserved, for any number of producers with snapshots of any age: while they ask only for records of stuck sizes, nothing is ever pushed and no byte changes |
| SoloWriter.SoloShared | include/lf_ring/ring_writer.hpp:25-104 | every complete call of the shared writer whose atomic steps run alone from a quiescent ring ends in exactly the state of the sequential method, and has pushed its message exactly when that fits |
| SoloWriter.SoloSharedEnds | include/lf_ring/ring_writer.hpp:25-104 | there is such a call from every quiescent ring |
| SoloPusher.SoloSingle | src/shared_ring_buffer_spsc.cpp:57-136 | every complete call of the single-producer writer whose atomic steps run while the consumer rests ends in exactly the state of the sequential method, and has pushed its message exactly when that fits |
| SoloPusher.SoloSingleEnds | src/shared_ring_buffer_spsc.cpp:57-136 | there is such a call from every such ring |
| SoloPopper.SoloPop | src/shared_ring_buffer.cpp:52-109 | every complete call of the single-consumer `try_pop` that runs alone, with either order of its two head stores, on every ring that satisfies the invariant: it pops exactly the first queued message, or nothing if none is queued, and changes nothing but the head |
| SoloPopper.SoloPopEnds | src/shared_ring_buffer.cpp:52-109 | there is such a call from every such ring |
| LatestProofs.AgentKeepsSlot | include/lf_ring/shared_latest.hpp:85-153 | every step of claiming, recovering and writing keeps the slot consistent, committed values only accumulate within an epoch, and the agent ends up where it should be exactly when a take finds the parity that was loaded |
| LatestProofs.BlocksIffCurrent | include/lf_ring/futex.hpp:70-93 | the kernel blocks a waiter exactly when the missed notifications are a multiple of 2^32; below 2^32 exactly when none was missed; otherwise the wait returns true |
| LatestTheorems.ParityFollows | include/lf_ring/shared_latest.hpp:85-112 | if nobody has owned the slot since a claimant loaded the sequence, the sequence still has the parity that it saw |
| LatestTheorems.SoleRunExact | include/lf_ring/shared_latest.hpp:85-120 | with one owner at a time, every state is consistent if and only if every taker finds the parity that it loaded |
| LatestTheorems.RunSafe | include/lf_ring/shared_latest.hpp:72-240 | every state of every undisturbed run satisfies the seqlock invariant, for any number of claimants, readers, waiters and crashes |
| LatestTheorems.ReadReturnsCommitted | include/lf_ring/shared_latest.hpp:184-202 | in an undisturbed run a successful read with no recovery between its loads returns exactly the value committed at its sequence number, zeros at 0, which is the whole slot at its second load |
| LatestTheorems.ReadsMonotone | include/lf_ring/shared_latest.hpp:217-237 | successive such reads of one reader never go back to an older write |
| LatestTheorems.EvenMeansIntact | include/lf_ring/shared_latest.hpp:139-153 | in an undisturbed run, after a crash at any step, an even sequence means the slot holds the last committed value complete |
| LatestTheorems.RecoversOnce | include/lf_ring/shared_latest.hpp:95-112 | with a monotone clock and a stopped writer, at most one claimant holding a given stale heartbeat recovers |
| LatestTheorems.NoLostWakeUp | include/lf_ring/shared_latest.hpp:157-180 | a waiter blocked although the counter has moved has an agent about to wake it, whose next step releases every waiter, or else some notifier whose count lies beyond the waiter's snapshot died before waking |
| LatestTheorems.NotifyMarks | include/lf_ring/shared_latest.hpp:157-163 | a notification announces the write just committed |
| LatestWrites.WriteMeans | include/lf_ring/shared_latest.hpp:139-163 | every completed write in any stretch with one owner at a time, whatever the others do: the value is committed two numbers on, the heartbeat is a clock value read after the commit, and the counter grows by one, marked with this write, exactly for `write_and_notify`, which returns with no waiter blocked |
| LatestWrites.WriteEnds | include/lf_ring/shared_latest.hpp:139-163 | a write that runs alone ends, from every state |
| LatestAnswers.AnswerMeans | include/lf_ring/shared_latest.hpp:184-240 | what each answer of an interleaved read means: `Empty` a first load of 0, `Contended` a failure of every allowed attempt, `WriterDead` an odd sequence followed by a heartbeat that is too old now, `Success` a whole copy between two equal loads |
| LatestAnswers.AnswersWhen | include/lf_ring/shared_latest.hpp:184-240 | a reader step ends the call if and only if one of these four conditions holds; otherwise it moves on to the next attempt exactly if this one failed |
| LatestReads.SoloRead | include/lf_ring/shared_latest.hpp:184-240 | every read of either overload that nobody disturbs, from every state: its answer is one function of sequence, heartbeat, clock and allowed attempts, a success returns the whole slot with its number, and nothing else changes |
| LatestReads.SoloReadEnds | include/lf_ring/shared_latest.hpp:184-240 | such a read ends, from every state |
| LatestAnswers.WaitMeans | include/lf_ring/shared_latest.hpp:167-180 | in every run a wait blocks if and only if the counter has moved by a multiple of 2^32 since the snapshot it was given, and otherwise returns true at once |
| LatestAnswers.ClaimThrows | include/lf_ring/shared_latest.hpp:95-112 | in every run a claimant that saw an odd sequence throws if and only if the heartbeat it loaded is fresh or has changed by its exchange, and has then changed nothing; otherwise it leaves the clock value it read as the heartbeat |
| LatestTheorems.WokenReadsNew | include/lf_ring/shared_latest.hpp:157-202 | in an undisturbed run a read attempt begun after a notification of its epoch starts at a sequence number at least as new as the notifying write |
| LatestRecovery.ClaimResumes | include/lf_ring/shared_latest.hpp:85-92 | claiming an abandoned slot with an even sequence changes only the heartbeat: the last committed value survives |
| LatestRecovery.ClaimRecovers | include/lf_ring/shared_latest.hpp:94-129 | claiming an abandoned slot with an odd sequence and a stale heartbeat leaves a zeroed slot at sequence 0 and wakes every waiter |
| LatestRecovery.ClaimAloneExact | include/lf_ring/shared_latest.hpp:85-129 | every call of `claim` that runs alone, from every state: it takes the slot if and only if the sequence is even or the heartbeat is absent or stale, whether or not somebody owns it, and otherwise changes nothing; the whole slot and the waiters afterwards; it leaves a sole writer exactly when nobody owned the slot |
| LatestRecovery.LateRecoveryHarms | include/lf_ring/shared_latest.hpp:107-120 | from any state in which a recovery has taken a non-zero slot at an even sequence, its own steps lead to an even sequence whose committed value is gone |
| LatestRecovery.LateResumeHarms | include/lf_ring/shared_latest.hpp:87-92 | from any state in which a claimant has resumed at an odd sequence, any write it begins leads to an even sequence at which nothing was committed |
| LatestWitness.TwoResumersBothOwn | include/lf_ring/shared_latest.hpp:85-92 | a run in which two claimants both become the writer |
| LatestWitness.TornAcrossRecovery | include/lf_ring/shared_latest.hpp:114-120 | an undisturbed run in which a read across a recovery succeeds with a payload that was never in the slot |
| LatestWitness.TornByLateRecovery | include/lf_ring/shared_latest.hpp:107-120 | a run with one owner at a time in which a recovery acts on an old odd sequence and a read within one epoch is torn |
| LatestWitness.TornByLateResume | include/lf_ring/shared_latest.hpp:87-92 | a run with one owner at a time in which a resume acts on an old even sequence and a read is torn |
| LatestWitness.WakeUpLost | include/lf_ring/shared_latest.hpp:157-163 | an undisturbed, timely run that ends with a waiter blocked behind a counted write and nobody left to wake it |
| LatestObject.Latest.WriteUntil | include/lf_ring/shared_latest.hpp:139-153 | a write stopped after any number of its stores: the sequence is odd exactly between opening and commit, and the value counts as committed only after the commit |
| LatestObject.Latest.WriteAndNotify | include/lf_ring/shared_latest.hpp:157-163 | commits the value two numbers on and counts one notification |
| LatestObject.Latest.Claim | include/lf_ring/shared_latest.hpp:85-129 | resumes on an even sequence, refuses on an odd one with a fresh heartbeat, otherwise zeroes and restarts the slot; nothing else changes |
| LatestObject.Latest.TryRead | include/lf_ring/shared_latest.hpp:184-202 | succeeds exactly when the sequence is even and a retry is allowed, with the last committed value |
| LatestObject.Latest.TryReadRich | include/lf_ring/shared_latest.hpp:207-240 | which of the four results is returned: a dead writer is reported exactly when at least 64 retries are allowed and the heartbeat is set and older than the threshold |
| LatestObject.Latest.CrashClaimRead | include/lf_ring/shared_latest.hpp:85-153 | stop the writer after any store, claim, read: the old value, zeros or the new value, never a partial one |
| SpscQueueProofs.MaskedSlot | include/lf_ring/spsc_queue.hpp:106 | the masked 64-bit index addresses the slot of the index that never wraps |
| SpscQueueProofs.StepKeeps | include/lf_ring/spsc_queue.hpp:95-130 | every step of either side, and every crash, keeps the invariant and appends, removes or leaves the items |
| SpscQueueProofs.RunIsFifo | include/lf_ring/spsc_queue.hpp:95-130 | for every legal capacity and interleaving, across index wrap-around: pushed is popped followed by queued, and at most `Capacity` are queued |
| SpscQueueProofs.RefusalsExact | include/lf_ring/spsc_queue.hpp:99-123 | a call of `try_push` fails exactly when the queue is full at its head load and succeeds exactly by pushing its item; `try_pop` fails exactly when it is empty at its tail load and succeeds exactly by taking the first item |
| QueueProgress.WaitFree | include/lf_ring/spsc_queue.hpp:95-130 | in every run no call of either side takes more own steps than an item has words, plus three, whatever the other side does |
| QueueProgress.NeverBlocked | include/lf_ring/spsc_queue.hpp:95-130 | in every state that satisfies the invariant both sides can take a step |
| SpscQueueProofs.SizeByOwner | include/lf_ring/spsc_queue.hpp:134-138 | called by the producer or the consumer, `size` is the exact difference of its loads and at most the capacity |
| SpscQueueProofs.SizeByOther | include/lf_ring/spsc_queue.hpp:134-138 | called by a third thread it stays within the capacity if and only if the consumer has not overtaken the loaded tail |
| QueueObject.FixedQueue.TryPush | include/lf_ring/spsc_queue.hpp:95-111 | appends exactly when fewer than `Capacity` items are queued, for indices at any point of their 64-bit cycle |
| QueueObject.FixedQueue.TryPop | include/lf_ring/spsc_queue.hpp:114-130 | removes and returns the oldest item exactly when one is queued |
| QueueObject.FixedQueue.Size | include/lf_ring/spsc_queue.hpp:134-138 | the number of queued items |
| TypedMessages.CodecRoundTrip | include/lf_ring/typed_message.hpp:48-103 | each codec decodes what it encodes |
| TypedMessages.DecodeExact | include/lf_ring/typed_message.hpp:48-103 | decoding yields a value if and only if it is the value of the codec's type that encodes to the payload; it fails exactly on a wrong length |
| TypedMessages.BufferExact | include/lf_ring/typed_message.hpp:149-157 | the reader's buffer is as long as the longest payload so far, and byte j comes from the last payload longer than j |
| TypedMessages.BufferIsLast | include/lf_ring/typed_message.hpp:149-157 | the buffer holds exactly the last payload if and only if no earlier one was longer |
| TypedMessages.TypedRoundTrip | include/lf_ring/typed_message.hpp:159-188 | a fixed-size value, string or vector comes out as it went in if and only if no earlier payload was longer |
| TypedMessages.FixedDecodesExactly | include/lf_ring/typed_message.hpp:176-184 | a fixed-width value decodes if and only if the longest payload so far has its width |
| TypedMessages.VectorDecodesExactly | include/lf_ring/typed_message.hpp:90-102 | a vector decodes if and only if the longest payload so far is a whole number of elements |
| TypedMessages.Writer.TryPushTyped | include/lf_ring/typed_message.hpp:120-131 | pushes as many bytes of the encoding as its length modulo 2^32 says as one message, or nothing |
| TypedMessages.SentWhole | include/lf_ring/shared_ring_buffer.hpp:40-42 | a value goes out whole if and only if its encoding is shorter than 2^32 bytes |
| TypedMessages.Reader.TryPop | include/lf_ring/typed_message.hpp:149-157 | takes the first message and records its payload, type and number |
| TypedMessages.Reader.TryPopTyped | include/lf_ring/typed_message.hpp:159-169 | consumes one message; yields the decoded buffer if the type matches and it decodes, otherwise the message is lost |

## Left out

- Weak memory ordering: all steps are sequentially consistent; acquire, release and relaxed orders and the formal data race of the seqlock copy are not modelled.
- File handling (`create`, `open`, `mmap`, `fstat`, path checks) and the mapping header: only the zeroed initial state is taken from it.
- The futex system call: only its documented behaviour is modelled (compare and block atomically, wake all, timeout, spurious return).
- `ipc_adapter.hpp`, the benchmarks and the documentation: no protocol logic of their own.
- Real time: the clock is any non-decreasing value; reboots and units are not modelled.
- Counters of the byte rings at or beyond 2^64 bytes: the counters are unbounded.
- Slot addresses of `SPSCQueue` in bytes: slots are separate sequences of words, so `index * sizeof(T)` is not computed.
- The classes `RingBuffer.Ring`, `LatestObject.Latest` and `QueueObject.FixedQueue` run one method at a time; interleaving is modelled by the step machines, which work on values.
- `is_writer_alive`, `raw_sequence`, `notify_counter`, `capacity` and `empty`: one load and a comparison each.
- TypedMessages.Writer.TryPushTyped: does not model the reuse of the scratch buffer, because every encode overwrites it and nothing reads it back.
- LatestTheorems.ReadReturnsCommitted: holds of undisturbed runs and of reads that no recovery crosses; `LatestWitness.TornAcrossRecovery` and `LatestWitness.TornByLateRecovery` show what happens otherwise, with both loads returning the same number, so the reader itself cannot tell.
- LatestRecovery.ClaimRecovers: the claimant runs without interleaving; interleaved claimants are covered by `LatestTheorems.RecoversOnce` and `LatestTheorems.RunSafe`.
