# Verified model of the evdev resynchronisation engine

`evdev` reads input events from the Linux kernel. When the kernel's ring buffer overflows it
drops events and leaves a SYN_DROPPED in the stream; the synchronising `Device` then suppresses
the damaged frame, takes a snapshot of the kernel's state, and injects a synthetic frame that
carries its cached state to the snapshot. This project models that engine in Dafny together with
the state it drives, its two drivers (the `FetchEventsSynced` iterator with its draining drop,
and the asynchronous `EventStream`), the bit arrays underneath, the writer that produces the
frames the reader cuts, and the force-feedback union. It proves what every step keeps and what
whole runs deliver.

The kernel is an adversary throughout: any chunks, any snapshots, any failures, any wake-ups.
Clocks, ioctls, file descriptors and the reactor are parameters (`Reply`, `Wake`, `WriteReply`).

| file | subject |
|---|---|
| `Events.dfy`, `Wrappers.dfy`, `Sequences.dfy` | events, their destructuring, option and result values, sequence algebra |
| `Frames.dfy` | frames, the clean part of a stream, what one batch takes |
| `DeviceState.dfy` | the cached state, its fold, the class that is updated in place |
| `Compensation.dfy` | the synthetic frame: resumable diff, exactness, patch |
| `Engine.dfy` | fetch, scan, `next` and drop on values; safety, fused iteration |
| `Runs.dfy` | every run of fetches, `next` calls and drops, with a history of what happened |
| `Consumer.dfy` | a consumer's own view against the device's cache, over every run |
| `Recovery.dfy` | the fetch after a damaged frame: when the consumer ends with the kernel's values, what a failed one spoils |
| `Drivers.dfy`, `Batches.dfy` | fully driven iterators and the polled stream as whole programs |
| `AsyncRefinement.dfy` | the stream delivers what the iterators deliver |
| `Polling.dfy` | what one poll answers: pending, which error, which event, which wake-ups used |
| `Limits.dfy` | inputs for which the promised consistency fails |
| `AttributeSet.dfy` | the byte-packed bit array and its iterators |
| `RawStream.dfy`, `SyncStream.dfy` | the device, iterator and stream classes, proved against the value functions |
| `Wire.dfy`, `Writer.dfy` | event bytes, `fd_write_all`, `emit`, the framing round trip |
| `ForceFeedback.dfy` | effects and the shared union |

## What was found

The crate's documentation promises callers state transitions consistent with the device. Three
inputs, each a run proved in `Limits.dfy`, break that promise, and the exact conditions are
theorems.

- A key pressed inside a damaged frame reaches the cache although the frame is suppressed, so
  the later diff is empty and the consumer never learns of it. `Recovery.RecoversIff` gives the
  condition for every slot of all four classes in every run, and `Recovery.RecoversFromAnyIff`
  the one a caller can check before the fetch: the consumer's view of the slot equals the cached
  state. `Recovery.CarefulRunAgreesAfterDrop` bounds the slots that fail it by what damaged
  frames write.
- A fetch that fails after taking the `block_dropped` flag, for instance with a read that would
  block, loses the resynchronisation for good. `Engine.FetchResyncsIff` says when it survives,
  and `Recovery.FailedFetchSpoils` that it spoils exactly the slots whose ioctl was reached and
  whose cached value that changed.
- Switches and LEDs are not followed between resynchronisations, so a switch turned on in a
  delivered frame and off in lost ones stays on for the consumer. The condition is the same; for
  these classes the cached value is the one the last resynchronisation read
  (`Recovery.UnfollowedCacheIsSnapshot`).

Three smaller ones. A stream made from a device that an iterator left with a resynchronisation
pending delivers a buffered frame before the synthetic one, exactly when a clean frame heads the
buffer (`Limits.StreamSkipsSynthetic`, `AsyncRefinement.LeftoverComesFirstIff`). `next_back` on
a slice that does not start at 0 yields wrong codes (`AttributeSet.ReverseRightIff`). And
`fd_write_all` reports success with data unwritten, exactly when a write is answered with 0
bytes while data is left (`Writer.SuccessMeansWrittenIff`).

The documentation of the crate also says events are held back until the end of each frame. The
cache is not: it already reflects unfinished frames (`Runs.UndamagedCacheIsOneFold`). The model
follows the code.

## Model

| member | source | states |
|---|---|---|
| Frames.CleanConcat | src/sync_stream.rs:635-657 | cutting a stream anywhere and carrying the unfinished frame over changes neither the clean output nor the unfinished rest |
| Frames.CleanFixedPoint | src/sync_stream.rs:635-657 | the clean output is always a concatenation of whole frames without SYN_DROPPED, and exactly such streams pass unchanged |
| Frames.BatchTakesFrames | src/sync_stream.rs:630-658 | a batch uses up whole frames, at most one of them damaged, and otherwise leaves only an unfinished one |
| DeviceState.NewState | src/device_state.rs:43-74 | the initial cache has an array exactly for each supported class, reads zero in every slot, with all-zero axis records and the epoch as its timestamp |
| DeviceState.DeviceState.constructor | src/device_state.rs:43-74 | the record starts as that cache |
| DeviceState.DeviceState.CloneFrom | src/device_state.rs:31-37 | every field is overwritten with the other's |
| DeviceState.DeviceState.ProcessEvent | src/device_state.rs:109-127 | on the fields: a key event sets its bit to whether the value is non-zero, an axis event replaces the value of its record, every other field and entry stays; no unwrap or index fails on accepted events |
| DeviceState.FoldReadsLast | src/device_state.rs:109-127 | after any sequence of events a followed bit reads whether the last event of its type and code had a non-zero value, an axis reads that event's value, and without one the slot reads what it did |
| DeviceState.UpdateFields | src/device_state.rs:109-127 | the value of one event, field by field, for two-class and four-class folds |
| DeviceState.GetFold | src/device_state.rs:109-127 | folding a sequence leaves each followed slot at its last written value |
| DeviceState.ReplayAbsorbed | src/sync_stream.rs:636-657 | refolding any suffix of what was just folded changes nothing |
| Compensation.CompensateEmitsHead | src/sync_stream.rs:480-586 | each call emits the head of the pending frame and leaves its tail, resuming across phases |
| Compensation.PendingSlotsExact | src/sync_stream.rs:486-509 | from any cursor, the slots still to be emitted are strictly increasing and exactly the supported ones at or after it whose values differ |
| Compensation.SyntheticFrameExact | src/sync_stream.rs:480-586 | on the fields of the events: one event per differing supported slot and no other, each with the slot's type, code and new value and the time of the resynchronisation; types and then codes strictly rise; then one SYN_REPORT of value 0 and the same time; length is differences plus one |
| Compensation.CompensateTells | src/sync_stream.rs:480-586 | one call from any cursor, on the fields of the event: time of the resynchronisation, least differing slot from the cursor on with its new value, cursor just past it; or the closing SYN_REPORT when none differs |
| Compensation.DiffThenPatch | src/sync_stream.rs:480-586 | folding the frame over the previous state reaches the new state in every supported followed slot and touches no other, for four-class and for process_event folds |
| Compensation.ConsumerAgreesIff | src/sync_stream.rs:480-586 | a consumer agrees with the snapshot in a slot after the frame if and only if it did before or the cached value changed |
| Compensation.FoldingEmittedCatchesUp | src/sync_stream.rs:593-596 | folding each emitted event into prev_state keeps every key and axis below the cursor equal to the new state, all of them at the end |
| Compensation.FoldingEmittedIsInvisible | src/sync_stream.rs:593-596 | that folding never changes the rest of the frame |
| Compensation.CompensateDependsOn | src/sync_stream.rs:480-586 | what a call emits depends on prev_state only from the cursor on |
| Engine.ResyncReadsKernel | src/sync_stream.rs:308-323 | a resynchronisation succeeds exactly when every ioctl it makes does, and then holds the kernel's value in every supported slot; shapes never change |
| Engine.PartialResync | src/sync_stream.rs:308-323 | a failed resynchronisation is partial exactly: a supported slot reads the kernel's value if its ioctl was reached, its old value if not |
| Engine.ResyncWholeState | src/sync_stream.rs:308-323 | the bitmaps are the kernel's, supported axes take its whole record, unsupported axes keep theirs, the timestamp moves only on success |
| Engine.FetchResyncsIff | src/sync_stream.rs:325-342 | a synthetic frame is started exactly when the flag was set and every call succeeded; the flag is cleared either way; a failed read with the flag clear changes nothing |
| Engine.FetchFailsIff | src/sync_stream.rs:325-342 | the errno a fetch reports is that of the first ioctl to fail if the flag was set, in the order keys, axes by code, switches, LEDs; else the read's |
| Engine.ScanExact | src/sync_stream.rs:635-657 | a scan stops behind the first SYN_REPORT, with damage if and only if a SYN_DROPPED comes before it, by the events' own fields |
| Engine.FetchKeepsSafe | src/sync_stream.rs:325-358 | a fetch keeps shapes and buffer safe and hands the new iterator a valid cursor |
| Engine.NextKeepsOk | src/sync_stream.rs:588-614 | next keeps array shapes, event acceptability and every cursor in range; a non-empty range ends at consumed_to |
| Engine.NextCatchesUp | src/sync_stream.rs:593-596 | during a synthetic frame prev_state agrees with the new state on every key and axis below the cursor, and on all of them once the SYN_REPORT is out |
| Engine.NoneIsFinal | src/sync_stream.rs:588-614 | after None, None for ever, with states, flag and cursor fixed, whatever complete frames follow a damaged one |
| Runs.EveryRunIsSafe | src/sync_stream.rs:588-620 | the invariants, safety included, hold after every legal sequence of fetches, next calls and drops |
| Runs.DeliveryOverAnyRun | src/sync_stream.rs:588-620 | delivered, discarded and still owed kernel events are together the clean frames of everything read, once and in order; the buffer starts at a frame boundary; damaged frames are all accounted for |
| Runs.DropLosesAtMostOneFrame | src/sync_stream.rs:616-620 | a drop discards at most the rest of one frame, kernel's or synthetic, and nothing where next would return None |
| Runs.DropOwesTheRest | src/sync_stream.rs:616-620 | what is still owed shrinks by exactly the discarded part |
| Runs.YieldReflectsWholeFrame | src/sync_stream.rs:597-605 | when a kernel event is yielded the cache already is the last synchronised state folded through its whole frame, and stays put during the frame |
| Runs.UndamagedCacheIsOneFold | src/sync_stream.rs:636-657 | without SYN_DROPPED the cache is one fold of everything scanned, despite re-scans and early drops, and of everything read once None is returned |
| Consumer.RunKeepsAgreed | src/sync_stream.rs:588-620 | at every step of every run, failed fetches included, consumer view plus what is owed equals the cache on every supported key and axis outside the stale set, which a failed fetch extends only by the slots it changed |
| Consumer.CarefulRunAgrees | src/sync_stream.rs:588-620 | when resynchronisations succeed and iterators are driven to completion, it equals the cache at every step on every supported key and axis that no damaged frame read so far writes |
| Recovery.RecoversIff | src/sync_stream.rs:325-342 | in every run and for all four classes, once the synthetic frame is through the consumer has the kernel's value of a slot if and only if it had it before or the cache had not |
| Recovery.RecoversFromAnyIff | src/sync_stream.rs:325-342 | a slot comes out right for every snapshot the kernel may report if and only if the consumer's view of it equals the cached state before the fetch |
| Recovery.AgreementAfterDrop | src/sync_stream.rs:308-342 | in every run, after a successful fetch the synthetic frame is delivered first and alone, the agreement invariant survives it, the same if-and-only-if holds in every supported slot, and every key and axis not stale is right |
| Recovery.UnfollowedCacheIsSnapshot | src/device_state.rs:109-127 | the cached value of a switch or LED is the one the last resynchronisation read, zero before the first |
| Recovery.FailedFetchSpoils | src/sync_stream.rs:325-342 | a fetch that fails with the flag set delivers nothing, clears the flag, and spoils exactly the slots whose ioctl was reached and whose cached value it changed |
| Recovery.CarefulRunAgreesAfterDrop | src/sync_stream.rs:308-342 | when resynchronisations succeed and iterators are driven to completion, once a synthetic frame is through the consumer holds the kernel's snapshot on every supported key and axis that no damaged frame wrote or that the snapshot changed |
| Batches.DriveOutput | src/sync_stream.rs:588-614 | driving an iterator delivers the rest of its synthetic frame, the rest of its range, then the clean frames up to the first damaged or unfinished one |
| Batches.BatchExact | src/sync_stream.rs:344-358 | a whole batch, exactly: synthetic frame if and only if one was due, first; then kernel frames; what stays buffered; whether a resynchronisation is due |
| Batches.ChunkIndependence | src/sync_stream.rs:616-660 | for every cutting of the stream into reads, delivered kernel events plus clean(buffer) equals clean(all read) |
| Batches.UndamagedStream | src/sync_stream.rs:630-658 | without SYN_DROPPED exactly the whole frames come out and the unfinished one stays buffered |
| Batches.OutputWellFormed | src/sync_stream.rs:588-614 | the delivered stream is a concatenation of frames, each ending in its only SYN_REPORT, free of SYN_DROPPED |
| Batches.EveryDamageAnswered | src/sync_stream.rs:325-342 | when fetches succeed, synthetic frames and damaged frames used up are equal in number, one possibly still due |
| AsyncRefinement.AsyncRefinesSync | src/sync_stream.rs:833-872 | from a fresh device, under any wake-ups, polling delivers the same sequence and leaves the same buffer, cache and flag as fully driven iterators |
| AsyncRefinement.PollAgain | src/sync_stream.rs:839-856 | polling again over the stale range of a drained buffer only waits: nothing is skipped, repeated or refolded |
| AsyncRefinement.LiveFollows | src/sync_stream.rs:833-872 | the same from the middle of any batch, with prev_state differing below the cursor |
| AsyncRefinement.LeftoverComesFirstIff | src/sync_stream.rs:833-872 | a stream made from a device whose resynchronisation is pending takes its first event from the buffer, before the synthetic frame, if and only if a clean frame heads the buffer |
| Polling.PollAnswers | src/sync_stream.rs:851-868 | with nothing buffered for delivery, the first wake-up whose fetch neither would block nor comes back with nothing to deliver decides the poll and is the last one used: Failed(x) if and only if the reactor or that fetch failed with x, an event if and only if the fetch succeeded, Pending if and only if it was not ready or there is none |
| Polling.RestingPollAnswers | src/sync_stream.rs:833-872 | the same for a stream that last answered Pending or an error |
| Polling.OutstandingComesFirst | src/sync_stream.rs:833-850 | what is outstanding is delivered first, one event a poll, and uses no wake-up |
| Limits.PressInDamagedFrameIsMissed | src/sync_stream.rs:635-654 | a key pressed inside a damaged frame is never reported although the kernel says it is down |
| Limits.FailedReadLosesResync | src/sync_stream.rs:325-342 | a read that would block after the snapshot loses the synthetic frame for good |
| Limits.SwitchTurnedOffIsMissed | src/sync_stream.rs:325-342 | three reads: a switch on, a damaged frame, then a snapshot with the switch off; the run delivers the switch on and a bare SYN_REPORT, so the consumer keeps it on |
| Limits.StreamSkipsSynthetic | src/sync_stream.rs:805-814 | one read of a damaged frame with a key press behind it, an iterator driven to its end, then a stream: the press is delivered before the synthetic frame whatever the reactor does |
| AttributeSet.AttributeSet.constructor | src/attribute_set.rs:129-134 | a new set is empty |
| AttributeSet.AttributeSet.Contains | src/attribute_set.rs:31-33 | membership, false past the end |
| AttributeSet.AttributeSet.Set | src/attribute_set.rs:51-53 | exactly one member is added or removed, through one byte of the packed array |
| AttributeSet.AttributeSet.Insert | src/attribute_set.rs:41-43 | adds one member |
| AttributeSet.AttributeSet.Remove | src/attribute_set.rs:45-47 | removes one member |
| AttributeSet.AttributeSet.FromIter | src/attribute_set.rs:156-162 | the set of the elements given |
| AttributeSet.AttributeSet.Iter | src/attribute_set.rs:37-39 | an iterator over all members |
| AttributeSet.AttributeSet.SliceIter | src/attribute_set.rs:56-64 | an iterator over exactly the members from start on |
| AttributeSet.OnesExact | src/attribute_set.rs:84-95 | the enumeration is strictly increasing and lists exactly the members |
| AttributeSet.BitsAreDigits | src/attribute_set.rs:31-33 | least significant bit first: element k is a member if and only if binary digit k mod 8 of byte k div 8 is one |
| AttributeSet.AttributeSetRefIter.Next | src/attribute_set.rs:106-110 | yields the next code in order, shifted by the offset, until none is left |
| AttributeSet.AttributeSetRefIter.NextBack | src/attribute_set.rs:119-123 | yields the last index left, without the offset |
| AttributeSet.AttributeSetRefIter.Len | src/attribute_set.rs:113-117 | the number of items still to come |
| AttributeSet.ReverseRightIff | src/attribute_set.rs:119-123 | reverse iteration of a slice is right if and only if it starts at 0 or holds no member |
| RawStream.RawDevice.FromFd | src/raw_stream.rs:146-184 | a support bitmap is kept exactly for each event type reported |
| RawStream.RawDevice.FillEvents | src/raw_stream.rs:429-445 | a successful read is appended, a failed one changes nothing |
| RawStream.RawDevice.FetchEvents | src/raw_stream.rs:452-455 | hands over the whole buffer and empties it |
| RawStream.RawDevice.UpdateAbsState | src/raw_stream.rs:514-530 | asks for the supported axes in order and stops at the first failure; without an axis bitmap it succeeds and changes nothing |
| RawStream.RawDeliversEverything | src/raw_stream.rs:810-833 | the raw stream delivers every event read once and in order, for any wake-ups |
| RawStream.RawPollAnswers | src/raw_stream.rs:810-833 | a buffered event comes first and uses no wake-up; else the first wake-up whose read neither would block nor is empty decides: its first event, its error with its errno, or Pending |
| RawStream.RawEventStream.PollEvent | src/raw_stream.rs:810-833 | the polling method does one step of that run |
| SyncStream.Device.FromRawDevice | src/sync_stream.rs:59-69 | a new device holds two zero states, an empty buffer and no pending resynchronisation |
| SyncStream.Device.SyncState | src/sync_stream.rs:308-323 | the cache becomes the resynchronised state, or the part of it reached before the failure |
| SyncStream.Device.FetchEventsInner | src/sync_stream.rs:325-342 | new buffer, states and flag, and the pending diff, as Engine's theorems describe them |
| SyncStream.Device.FetchEvents | src/sync_stream.rs:349-358 | the same, with a fresh valid iterator |
| SyncStream.TryCompensate | src/sync_stream.rs:485-509 | finds the first supported differing code at or after the cursor, without a failing unwrap or index |
| SyncStream.CompensateEvents | src/sync_stream.rs:480-586 | walks the phases to the next difference or the closing SYN_REPORT and terminates; what it emits is told field by field by Compensation.CompensateTells |
| SyncStream.WalkBlock | src/sync_stream.rs:638-656 | finds the end of the next frame, notes damage, and folds exactly the events walked over |
| SyncStream.ScanEvents | src/sync_stream.rs:624-660 | emits from the range, opens the next clean frame, or stops; restarts at most once |
| SyncStream.FetchEventsSynced.constructor | src/sync_stream.rs:352-357 | an iterator starts at the front with the pending diff |
| SyncStream.FetchEventsSynced.Next | src/sync_stream.rs:590-613 | one step of the runs the theorems are about, keeping the iterator valid |
| SyncStream.FetchEventsSynced.Drop | src/sync_stream.rs:616-620 | exactly the consumed prefix leaves the buffer |
| SyncStream.EventStream.constructor | src/sync_stream.rs:805-814 | a stream starts with an empty range and nothing pending, from a device in any state |
| SyncStream.EventStream.PollEvent | src/sync_stream.rs:833-872 | one step of the asynchronous run, from any device the stream was made of, looping over would-blocks and empty reads, terminating in the wake-ups left; what it answers is told by Polling.PollAnswers |
| SyncStream.CompensatedIsAccepted | src/sync_stream.rs:593-596 | no synthetic event trips process_event |
| Wire.DecodeEncode | src/raw_stream.rs:436-444 | whole events read back as written, a partial one at the end is not seen |
| Wire.EncodeInOrder | src/lib.rs:547-550 | event i stands at byte 24 i: seconds, microseconds, type, code and value at their offsets, least significant byte first, signed fields in two's complement |
| Wire.DecodeInOrder | src/raw_stream.rs:436-444 | reading any bytes takes every whole record in order and gives the fields laid out there |
| Writer.FdWriteAll | src/lib.rs:536-545 | under any short writes, EINTRs and failures the sink grows by a prefix of the data, in order |
| Writer.SuccessMeansWrittenIff | src/lib.rs:536-545 | on success all was written if and only if no write was answered with 0 bytes while data was left; EINTR is never returned |
| Writer.WriteAllOutcome | src/lib.rs:536-545 | under any answers: it stops at the first that is neither EINTR nor some of the bytes left, fails if and only if the kernel refused there and with that errno, has written exactly what was taken before, and asks for no later answer |
| Writer.AnyProperPrefixCanReportSuccess | src/lib.rs:538-540 | for every proper prefix of any data the kernel can answer so that success is reported with exactly that prefix written |
| Writer.VirtualDevice.WriteRaw | src/uinput.rs:275-278 | a prefix of the events' bytes reaches the sink; on success all of them if and only if the write was not starved |
| Writer.VirtualDevice.Emit | src/uinput.rs:318-322 | an error in the batch's own write is the result, leaves just that write's prefix in the sink and writes no SYN_REPORT; unless that write is starved the sink only ever gains a prefix of the framed batch; on success all of it if and only if neither write was starved |
| Writer.VirtualDevice.EmitEach | src/uinput.rs:318-322 | emitting batch after batch: unless a write is starved the sink only gains a prefix of the framed batches, errors included; on success all of them if and only if no write was starved |
| Writer.LaterBatchesUnsent | src/uinput.rs:318-322 | batches after one that fails change neither the sink, nor the result, nor the answers used |
| Writer.UnframedFramed | src/uinput.rs:311-322 | the batches can be read off the emitted stream again |
| Writer.FramingRoundTrip | src/uinput.rs:318-322 | the sink several emits leave, cut into any reads, comes out of the synchronous reader as exactly the emitted batches, each with its one SYN_REPORT, nothing left buffered |
| ForceFeedback.Encode | src/ff.rs:334-391 | every named word holds its field at its offset, signed ones modulo 2^16, under the type code of the kind, for all eight kinds and five waveforms; id and all other words are zero; it decodes to exactly the data |
| ForceFeedback.PutKind | src/ff.rs:344-387 | assigning the fields in place leaves each in its word, the rest zero, and the union reads back as the kind |
| ForceFeedback.DecodeReadsLayout | src/ff.rs:247-332 | an effect decodes to given data if and only if its words hold those fields at their offsets under that type code |
| ForceFeedback.Reencode | src/ff.rs:247-391 | encoding a decoded effect gives it back with id and unnamed words cleared, and it decodes to the same data |
| ForceFeedback.DecodeDetermines | src/ff.rs:247-332 | two known effects decode alike if and only if they agree in every named word and every field but the id |
| ForceFeedback.DecodeDefinedIff | src/ff.rs:249-323 | decoding reaches unreachable! exactly outside the eight types and five waveforms |

## Left out

- Consumer.RunKeepsAgreed: covers keys and absolute axes, since switches and LEDs are not followed between resynchronisations; Recovery.RecoversIff covers all four classes at each resynchronisation.
- The inner loop of `sync_events` is a method of its own, and its callback is always `process_event`, the only one used; the four arms of the `try_compensate!` macro are one method with the class as a parameter.
- DeviceState holds its bit arrays as boolean sequences, the abstract value AttributeSet is proved to implement; the records are owned, so no aliasing is lost.
- Array lengths are parameters below 2^16; the axis value array and the axis support bitmap are given the same length, as they are for the kernel's 64 axes.
- A failed ioctl leaves its own buffer unchanged; the kernel could have written part of it.
- The size of a read: any number of whole events, not at most the spare capacity of the buffer.
- Times are copied only: `systime_to_timeval` and its inverse are not part of this model.
- Event types other than SYN, KEY, ABS, SW and LED are one case, since the engine only passes them through.
- The kernel's own rewriting of timestamps and filtering of unsupported events between a uinput writer and a reader.
- The uinput event stream: the same code as the raw stream over the same kind of buffer.
- The union words of a 32-bit target; the named fields lie at the same offsets there.
- Opening and enumerating devices, grab, auto-repeat, scancodes, uinput setup, names, display and serialisation.
