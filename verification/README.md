# SmartDashboard: telemetry from the robot to the display

A Dafny model of the path a value takes from a robot process to the dashboard, with proofs that each
concurrent or incremental stage agrees with a simple reference. Run `dafny verify dfyconfig.toml`.

- `LastWrite` is the shared reference: the map a plain observer holds after a log of keyed writes.
- `DirectWire` is the frame format, `DirectRing` the shared-memory ring as an object with its two-segment
  copies, and `RingProtocol` the same ring with every byte and index access of producer and consumer interleaved.
- `DirectPublisher` and `DirectSubscriber` are the two ends; `TelemetryLink` runs them together over the byte-level
  ring, with every lock of a store and of a replay taken separately; `PublisherRuns` shows that the publisher's methods
  are uninterrupted runs of it.
- `Transport` and `ReplayTransport` are recorded sessions: checkpoints, seek and playback.
- `UiUpdates` is the update queue, the bounded coalescing drain, updates that the UI thread receives past the queue,
  and the sequence-gated store.
- `DashboardPipeline` joins link and queue, `ReplayPipeline` joins replay and queue, both up to the display.
- `MjpegParser` is the incremental multipart parser of the camera stream.
- `TextFiles`, `EscapedFields` and `RetainedStore` are text files with their line ends, the line format, and the
  bounded table with its file.
- `SessionRecorder` is the recording queue with its writer thread and shutdown.

Each stage comes twice: as a class whose methods follow the source step by step and are proved against
functions on values, and as lemmas about those functions or about a state machine built from them. A state
machine's step is total: an action that is not enabled changes nothing, so a theorem about `Run` over an arbitrary
list of actions covers every interleaving.

## What the code does not promise

Some expected properties are false of the code. Each has an input that shows it and the exact condition under which
the property holds.

- A seek to an index that is a checkpoint shows that event before its time, because a checkpoint stored at index i
  already includes event i (`SeekToCheckpointShowsTooMuch`; exactly when: `SeekRefinesReplay`, `SeekThenPlayAgrees`).
- Playback never delivers an event stamped at the very end of a session (`LastEventIsMissed`, `EndOfPlaybackExactly`).
- Staleness is missed while a heartbeat stamp ahead of the reader's clock is passed by that clock, and over-reported
  when the clock reads 0 (`StaleFlipsBack`, `ClockAtZeroIsUnsound`; `StaleMissedExactly`, `StaleExactly`).
- Keys that share their first 128 bytes collapse on the wire (`LongKeysCollide`; `ClippedLogShowsExactly`).
- A key or text cut inside a character is displayed differently (`CutKeyMoves`; `DisplayExactly`).
- Overlapping stores of one key can send one value and retain another (`OverlappingStoresDiverge`;
  `LateJoinerIsComplete`).
- A store between the two locks of a replay can be overwritten by an older value (`ReplayOverwritesStore`;
  `SplitReplayIsExact`).
- An update without a sequence number in a numbered session is refused, and so can be a numbered one after it
  (`UnnumberedUpdateSticks`; `RefusedExactly`, `NumberedAcceptedExactly`, `LastWriteWinsExactly`). The comment at
  SmartDashboard/src/app/main_window.cpp:1803 speaks of publisher restarts only.
- In a replayed session the same happens to an event without a number, such as the retained controls that the
  dashboard itself records with number 0 (SmartDashboard/src/app/main_window.cpp:4447): the display misses it
  (`UnnumberedEventIsLost`; `SeekThenPlayDisplays` with `FallsBehindExactly`, `AlikeSessionDisplays`).
- A seek on the UI thread can be undone by older updates still queued (`SeekIsOverwritten`; `SeekOverQueue`,
  `NumberedSeekOverQueue`).
- A retained key longer than 191 bytes is searched for unclipped and stored clipped, which can duplicate a key
  (`LongKeyDuplicates`; `UniqueKeptExactly`).
- The retained file escapes a newline but still writes it, and the reader splits lines first; on Windows byte 26 ends
  the file for the reader (`NewlineIsNotRestored`; `PersistLoadExactly`).
- A multipart part without header lines loses its frame (`BareFirstIsLost`; `HeadersNeededExactly`).
- More than 10 MB without a complete part is dropped from the camera buffer (`OverflowIsDropped`; `ChunkingExactly`).
- Connection events are stamped outside the recorder's lock, so recorded times can go back
  (`ConnectionEventGoesBack`, `VariableEventGoesBack`; `TimesGoBackExactly`).
- A ring of almost 4 GiB would overflow the 32-bit cursor sums (`AdvanceWraps`; `AdvanceExact`).

## Model

| member | source | states |
|---|---|---|
| DirectWire.LittleEndianRoundTrip | SmartDashboard_Interface_direct/src/sd_direct_ring.cpp:248-258 | An integer stored in a k-byte header field reads back unchanged if it is below 256^k |
| DirectWire.EncodeValueLength | SmartDashboard_Interface_direct/src/sd_direct_ring.cpp:112-136 | No encoded value is longer than 8257 bytes |
| DirectWire.ValueRoundTrip | SmartDashboard_Interface_direct/src/sd_direct_ring.cpp:277-337 | Decoding an encoded value gives the value with strings cut to 256 bytes and arrays to 32 items |
| DirectWire.OddValues | SmartDashboard_Interface_direct/src/sd_direct_ring.cpp:412-485 | Value bytes no writer produces: an empty flag is false, a short number is zero, an empty list has no items, and an unknown type is read as a string |
| DirectWire.HeaderRoundTrip | SmartDashboard_Interface_direct/include/sd_direct_wire.h:47-56 | A message header whose lengths fit 16 bits is read back field by field from its 32 bytes |
| DirectWire.FrameRoundTrip | SmartDashboard_Interface_direct/src/sd_direct_ring.cpp:234-343 | The frame of any update is at most 8417 bytes, passes all three reader guards, declares its own length, and decodes to the update with key and value clipped |
| DirectWire.FrameLayout | SmartDashboard_Interface_direct/include/sd_direct_wire.h:47-56 | The same layout for every update, byte by byte: total length, type 1, value type 1 to 4 by the kind of value, number, time, lengths, at most 128 bytes of key, and the value, with at most 256 bytes of a string and the number of items, at most 32, before a list |
| DirectWire.LongestFrame | SmartDashboard_Interface_direct/include/sd_direct_wire.h:12-14 | The bound 8417 is attained by a long key with 32 long items |
| DirectRing.AdvanceExact | SmartDashboard_Interface_direct/src/sd_direct_ring.cpp:269-275 | The 32-bit cursor sum followed by the remainder is the circular step at every cursor if and only if capacity - 1 + n is below 2^32 |
| DirectRing.BlitSplit | SmartDashboard_Interface_direct/src/sd_direct_ring.cpp:78-92 | A circular store of two pieces is the store of the first and then of the second where the first ended |
| DirectRing.GatherBlit | SmartDashboard_Interface_direct/src/sd_direct_ring.cpp:78-109 | Bytes stored just past a span extend the span and leave every byte of it as it was |
| DirectRing.FrameSurvivesWrap | SmartDashboard_Interface_direct/src/sd_direct_ring.cpp:78-109 | A frame that fits is loaded as it was stored at every start index, wrapped or not |
| DirectRing.UsedIsUnread | SmartDashboard_Interface_direct/src/sd_direct_ring.cpp:57-69 | The occupancy formula gives exactly the number of unread bytes |
| DirectRing.WriteAppends | SmartDashboard_Interface_direct/src/sd_direct_ring.cpp:240-249 | A write that passes the free-space test with its guard byte appends its frame behind all unread frames and damages none of them |
| DirectRing.ReadTakesOldest | SmartDashboard_Interface_direct/src/sd_direct_ring.cpp:353-500 | A ring holding frames never triggers a guard: a read returns the oldest update clipped and leaves exactly the rest; it returns nothing if and only if the ring is empty |
| DirectRing.ReadsExactly | SmartDashboard_Interface_direct/src/sd_direct_ring.cpp:360-411 | What a read does with any bytes: a total length below 32 or other than header, key and value together throws away all that is unread, another message type is stepped over, and else the bytes after the header are the key and the cursor moves by the total length |
| DirectRing.FrameAt | SmartDashboard_Interface_direct/src/sd_direct_ring.cpp:360-500 | Where the bytes of a frame stand, the reader decodes the clipped update and moves its cursor exactly past the frame |
| DirectRing.Ring.AttachRing | SmartDashboard_Interface_direct/src/sd_direct_ring.cpp:173-217 | Attach succeeds exactly on a nonempty region that carries the handshake or may be initialised; a matching region is left alone, any other is wiped to an empty ring with both heartbeats at now; the capacity is cut to 32 bits, as the code cuts it |
| DirectRing.Ring.RingUsed | SmartDashboard_Interface_direct/src/sd_direct_ring.cpp:57-69 | Used bytes by the published indices, always below the capacity |
| DirectRing.Ring.CopyToRing | SmartDashboard_Interface_direct/src/sd_direct_ring.cpp:78-92 | The two-segment copy equals a byte-by-byte circular store and changes nothing else |
| DirectRing.Ring.CopyFromRing | SmartDashboard_Interface_direct/src/sd_direct_ring.cpp:95-109 | The two-segment copy equals a byte-by-byte circular load |
| DirectRing.Ring.AdvanceCursor | SmartDashboard_Interface_direct/src/sd_direct_ring.cpp:268-269 | The 32-bit cursor update never overflows in an attached ring and is the circular step |
| DirectRing.Ring.ComputeValueLen | SmartDashboard_Interface_direct/src/sd_direct_ring.cpp:112-136 | The 16-bit value length is exactly the number of bytes the value encodes to |
| DirectRing.Ring.WriteUpsert | SmartDashboard_Interface_direct/src/sd_direct_ring.cpp:219-344 | Either the frame does not fit into the free space and only the drop count changes, or exactly the frame is stored from writeIndex on and writeIndex, sequence and heartbeat move |
| DirectRing.Ring.CopyFrame | SmartDashboard_Interface_direct/src/sd_direct_ring.cpp:266-338 | Storing header, key and value piece by piece stores exactly their concatenation |
| DirectRing.Ring.CopyItems | SmartDashboard_Interface_direct/src/sd_direct_ring.cpp:308-334 | The item loop stores exactly the length-prefixed encoding of the clipped items |
| DirectRing.Ring.ReadNextUpsert | SmartDashboard_Interface_direct/src/sd_direct_ring.cpp:346-502 | Result and next cursor for every ring content, including the malformed, unsupported and mismatch branches; only the consumer heartbeat changes, and only on success |
| DirectRing.Ring.ReadItems | SmartDashboard_Interface_direct/src/sd_direct_ring.cpp:448-472 | The item loop decodes the count-prefixed list and cuts an item whose length runs past the end |
| RingProtocol.StepInv | SmartDashboard_Interface_direct/src/sd_direct_ring.cpp:219-502 | Every single access of either side (a byte stored or loaded, an index published, attach, detach) keeps the ring invariant |
| RingProtocol.LoadedByte | SmartDashboard_Interface_direct/src/sd_direct_ring.cpp:95-109 | While a frame is being loaded every byte of it is still in the ring, whatever the producer has stored meanwhile |
| RingProtocol.FifoInEveryRun | SmartDashboard_Interface_direct/src/sd_direct_ring.cpp:219-502 | In every interleaving from a fresh ring the consumer receives exactly the updates published since it attached, clipped, in order, once each, without gaps, all of them once its cursor meets writeIndex; no guard branch is ever taken |
| RingProtocol.UnreadNeverOverwritten | SmartDashboard_Interface_direct/src/sd_direct_ring.cpp:71-75 | In every interleaving the byte the producer stores next is none of the bytes the consumer has yet to read |
| RingProtocol.UnreadFrames | SmartDashboard_Interface_direct/src/sd_direct_subscriber_stub.cpp:185-192 | The local cursor meets writeIndex exactly when nothing is left to read |
| RingProtocol.PublishCursorInv | SmartDashboard_Interface_direct/src/sd_direct_subscriber_stub.cpp:259 | Publishing the drain cursor late releases exactly the frames already delivered |
| RingProtocol.AdmittedExactly | SmartDashboard_Interface_direct/src/sd_direct_subscriber_stub.cpp:259 | Once the drain cursor is published the next update is let in exactly when its frame fits beside the frames not yet delivered |
| RingProtocol.AttachInv | SmartDashboard_Interface_direct/src/sd_direct_subscriber_stub.cpp:61-74 | Attaching at writeIndex starts a consumer at a frame boundary with nothing delivered |
| RingProtocol.NextConsumerStartsAfresh | SmartDashboard_Interface_direct/src/sd_direct_subscriber_stub.cpp:61-74 | After one consumer has left, the next starts at the write index with nothing delivered |
| RingProtocol.UninterruptedWrite | SmartDashboard_Interface_direct/src/sd_direct_ring.cpp:219-344 | Taken without interruption, the byte steps of a write are the contract of WriteUpsert |
| RingProtocol.RejectedWrite | SmartDashboard_Interface_direct/src/sd_direct_ring.cpp:246-250 | Without room the byte steps of a write change nothing but the drop count |
| RingProtocol.UninterruptedRead | SmartDashboard_Interface_direct/src/sd_direct_ring.cpp:346-502 | Taken without interruption, the byte steps of a read are the contract of ReadNextUpsert |
| RingProtocol.GuardsAgree | SmartDashboard_Interface_direct/src/sd_direct_ring.cpp:363-400 | Where a header fails a guard the byte steps deliver nothing and put the cursor where ReadNextUpsert puts it |
| DirectPublisher.SplitReplayIsExact | ClientInterface_direct/src/sd_direct_publisher_stub.cpp:267-284 | Whatever halves of stores run between the copy of the retained table and its merge, the replay is complete if and only if every key retained meanwhile keeps its value, or is new and its last pending half carries its last retained value |
| DirectPublisher.ReplayOverwritesStore | ClientInterface_direct/src/sd_direct_publisher_stub.cpp:267-284 | One store in between is enough to put an older value back over the newer pending one |
| DirectPublisher.PassReplaysExactly | ClientInterface_direct/src/sd_direct_publisher_stub.cpp:234-284 | A pass replays if and only if the heartbeat of the consumer is at most 500000 us old and not in the future, and the consumer was not active at the last pass or has a new nonzero id; it always remembers activity and the last nonzero id |
| DirectPublisher.Publisher.MaybeReplayRetainedSnapshot | ClientInterface_direct/src/sd_direct_publisher_stub.cpp:227-285 | With a heartbeat h and 0 < h <= now <= h + 500000, and a consumer that was not active or has a new id, pending ends as pending joined with retained; in every other case it is unchanged; the observation fields follow in all cases |
| DirectPublisher.Publisher.FlushNow | ClientInterface_direct/src/sd_direct_publisher_stub.cpp:128-181 | The pending table is emptied and the frames appended carry exactly its values except those counted as dropped |
| DirectPublisher.Publisher.RunPass | ClientInterface_direct/src/sd_direct_publisher_stub.cpp:200-210 | One auto-flush pass writes the pending table, joined with the retained one if a new consumer is seen, without the entries counted as dropped |
| DirectPublisher.Publisher.WriteEntry | ClientInterface_direct/src/sd_direct_publisher_stub.cpp:146-168 | One entry takes the next sequence number and is either written behind the unread frames or counted as dropped |
| PublisherRuns.UninterruptedStore | ClientInterface_direct/src/sd_direct_publisher_stub.cpp:212-225 | The two locked sections of a store, with nothing in between, replace the key in the retained and the pending table and nothing else |
| PublisherRuns.UninterruptedPass | ClientInterface_direct/src/sd_direct_publisher_stub.cpp:227-285 | Copy and merge with nothing in between are the contract of MaybeReplayRetainedSnapshot |
| PublisherRuns.UninterruptedFlush | ClientInterface_direct/src/sd_direct_publisher_stub.cpp:128-181 | Swapping the pending table out and writing its entries in any order through the byte-level ring is the contract of FlushNow |
| TelemetryLink.StepCovers | ClientInterface_direct/src/sd_direct_publisher_stub.cpp:128-285 | No step of publisher, ring or consumer, half stores and half replays included, loses a value last sent that was not counted as dropped: it stays published or on its way |
| TelemetryLink.StepKeepsOrder | ClientInterface_direct/src/sd_direct_publisher_stub.cpp:212-225 | As long as no store overlaps another store of its key or a replay of another value, what was last sent is what is retained, but for stores half done |
| TelemetryLink.LossIsCounted | ClientInterface_direct/src/sd_direct_publisher_stub.cpp:159-165 | A value is lost only in a step that raises the drop count |
| TelemetryLink.PassCovers | ClientInterface_direct/src/sd_direct_publisher_stub.cpp:227-285 | A pass that sees a new consumer will put every retained value on its way to it |
| TelemetryLink.PublishedAndPendingIsRetained | ClientInterface_direct/src/sd_direct_publisher_stub.cpp:128-225 | In every run without drops, all published frames folded and overridden by what is being written, flushed and pending give exactly the value last sent per key; that is the retained table if stores of one key never overlap and none is half done |
| TelemetryLink.OverlappingStoresDiverge | ClientInterface_direct/src/sd_direct_publisher_stub.cpp:218-224 | Two overlapping stores of one key can leave one value retained and the other one sent for good, without a drop |
| TelemetryLink.ServedReceivesSent | ClientInterface_direct/src/sd_direct_publisher_stub.cpp:200-285 | A consumer found by a pass has, once all is at rest without a drop, received clipped updates that fold to exactly the values last sent, for exactly the retained keys |
| TelemetryLink.LateJoinerIsComplete | ClientInterface_direct/src/sd_direct_publisher_stub.cpp:200-285 | Then it holds those values, clipped, if and only if keys it cannot tell apart were sent with the same clipped value, and it shows the retained table if and only if every key was last sent with its retained value up to clipping |
| TelemetryLink.FreshJoinerIsComplete | SmartDashboard_Interface_direct/src/sd_direct_subscriber_stub.cpp:247-260 | A consumer that claims the ring with an id the publisher has not noted is served by the first pass whose clock is at most 500000 us past the heartbeat the consumer stored last, and ends up complete under the same condition |
| TelemetryLink.FirstPassServes | ClientInterface_direct/src/sd_direct_publisher_stub.cpp:235-284 | Before its first pass the publisher counts no consumer as active, so the first pass with a heartbeat at most 500000 us old replays, whatever the id |
| TelemetryLink.NobodyIsServedBeforeABeat | ClientInterface_direct/src/sd_direct_publisher_stub.cpp:235-284 | Before any heartbeat is stored no pass replays, at whatever clock |
| TelemetryLink.ClippedLogShowsExactly | SmartDashboard_Interface_direct/src/sd_direct_ring.cpp:234-235 | Folding the decoded frames shows the table that was written if and only if keys with the same first 128 bytes have the same clipped value |
| TelemetryLink.LongKeysCollide | SmartDashboard_Interface_direct/src/sd_direct_ring.cpp:234 | Two updates whose keys share their first 128 bytes collapse into one key holding the later value |
| DirectSubscriber.StaleExactly | SmartDashboard_Interface_direct/src/sd_direct_subscriber_stub.cpp:197-245 | Exactly when Stale is reported, in 64-bit wrapping arithmetic, for every history of observations |
| DirectSubscriber.StaleIsSound | SmartDashboard_Interface_direct/src/sd_direct_subscriber_stub.cpp:214-235 | Stale is reported only if the heartbeat stood still for more than the limit on the reader's clock, even when its stamp is ahead of that clock |
| DirectSubscriber.StaleIsComplete | SmartDashboard_Interface_direct/src/sd_direct_subscriber_stub.cpp:214-235 | A nonzero heartbeat that was not ahead of the clock when first seen and stood still for more than the limit is always reported Stale |
| DirectSubscriber.StaleMissedExactly | SmartDashboard_Interface_direct/src/sd_direct_subscriber_stub.cpp:214-245 | After the limit has passed, Connected is still reported exactly while the wrapping age of the stamp is within the limit, whatever the clock read when the heartbeat was first seen |
| DirectSubscriber.ConnectedExactly | SmartDashboard_Interface_direct/src/sd_direct_subscriber_stub.cpp:209-245 | Connecting is reported exactly while there is no heartbeat; Connected exactly when its wrapping age or the time since it last changed is within the limit |
| DirectSubscriber.StaleFlipsBack | SmartDashboard_Interface_direct/src/sd_direct_subscriber_stub.cpp:214-245 | A heartbeat stamped ahead of the clock is reported Stale and later Connected again although nothing was heard |
| DirectSubscriber.ClockAtZeroIsUnsound | SmartDashboard_Interface_direct/src/sd_direct_subscriber_stub.cpp:216-218 | With the clock reading 0 a single observation is reported Stale, since 0 also marks a heartbeat that never changed |
| DirectSubscriber.WatchRemembers | SmartDashboard_Interface_direct/src/sd_direct_subscriber_stub.cpp:202-207 | The two heartbeat fields always hold the heartbeat last seen and the time it was first seen |
| DirectSubscriber.Subscriber.constructor | SmartDashboard_Interface_direct/src/sd_direct_subscriber_stub.cpp:61-74 | Attaching puts the local and the shared cursor on writeIndex |
| DirectSubscriber.Subscriber.Drain | SmartDashboard_Interface_direct/src/sd_direct_subscriber_stub.cpp:180-193 | The drain loop hands over every unread update, clipped and in order, and stops at writeIndex |
| DirectSubscriber.Subscriber.JudgeHeartbeat | SmartDashboard_Interface_direct/src/sd_direct_subscriber_stub.cpp:197-245 | The connection state is the one the whole history of observations calls for |
| DirectSubscriber.Subscriber.RunPass | SmartDashboard_Interface_direct/src/sd_direct_subscriber_stub.cpp:172-262 | A pass drains unless its wait failed, judges the heartbeat, claims the ring and publishes the cursor |
| LastWrite.LatestIsLastWrite | ClientInterface_direct/src/sd_direct_publisher_stub.cpp:128-140 | The reference map holds for every key the value of its last write |
| LastWrite.LatestConcat | ClientInterface_direct/src/sd_direct_publisher_stub.cpp:261-284 | A later log overrides an earlier one key by key |
| ReplayTransport.CheckpointsSound | SmartDashboard/src/transport/dashboard_transport.cpp:792-816 | Checkpoints stand at multiples of the stride in increasing order, each holding the map after its own event |
| ReplayTransport.CheckpointsComplete | SmartDashboard/src/transport/dashboard_transport.cpp:792-816 | Every multiple of the stride below the number of events has a checkpoint |
| ReplayTransport.SeekRefinesReplay | SmartDashboard/src/transport/dashboard_transport.cpp:383-430 | For every session, stride and target index the map a seek rebuilds equals the fold from the start if and only if the target is not a checkpoint whose event changes that fold |
| ReplayTransport.SeekToCheckpointShowsTooMuch | SmartDashboard/src/transport/dashboard_transport.cpp:396-411 | A one-event session sought to time 0 already shows the event |
| ReplayTransport.ApplyKeepsPosition | SmartDashboard/src/transport/dashboard_transport.cpp:370-444 | Every tick, pause and rate change keeps the cursor inside the session, never moves it back and keeps the event index equal to its lower bound |
| ReplayTransport.PlaybackIsExactlyOnce | SmartDashboard/src/transport/dashboard_transport.cpp:858-904 | Between seeks, over any time steps, pauses and rates, the data events from the starting to the current index are delivered once each and in order |
| ReplayTransport.EndIsNotDelivered | SmartDashboard/src/transport/dashboard_transport.cpp:884-895 | No run of playback ever delivers an event stamped at the very end of the session |
| ReplayTransport.EndOfPlaybackExactly | SmartDashboard/src/transport/dashboard_transport.cpp:884-895 | Playback that has reached the end of the session has passed exactly the events stamped before the end |
| ReplayTransport.LastEventIsMissed | SmartDashboard/src/transport/dashboard_transport.cpp:884-900 | A session of one event, played to its end, delivers nothing |
| ReplayTransport.TickExactly | SmartDashboard/src/transport/dashboard_transport.cpp:875-900 | A tick while playing moves the cursor by the scaled time since the last tick, up to the duration, where playback stops; a clock set back counts as no time; a tick while paused moves nothing |
| ReplayTransport.CursorTravels | SmartDashboard/src/transport/dashboard_transport.cpp:858-904 | Over every run of ticks, pauses and rate changes the cursor moves by the session time that passes according to the clock, up to the duration, and exactly the data events up to it are delivered |
| ReplayTransport.PlaysInRealTime | SmartDashboard/src/transport/dashboard_transport.cpp:875-881 | At rate 1 with exact scaling n ticks from t0 to tn move the cursor by tn - t0, up to the duration |
| ReplayTransport.PauseContributesNothing | SmartDashboard/src/transport/dashboard_transport.cpp:370-381 | A pause, from switching off to switching on, adds nothing to the session time, however long and whatever the ticks in it |
| ReplayTransport.DurationExactly | SmartDashboard/src/transport/dashboard_transport.cpp:589-590 | The duration is the time of the last event, or 0 if there is none after the start |
| ReplayTransport.PlayedOn | SmartDashboard/src/transport/dashboard_transport.cpp:383-411 | The map a seek rebuilds, overridden by the data events delivered since, is the fold from the start |
| ReplayTransport.SeekThenPlayAgrees | SmartDashboard/src/transport/dashboard_transport.cpp:383-904 | Seek then play gives the map of a direct seek to the same place if and only if the index did not move or the direct seek shows no event early |
| ReplayTransport.ReplayDashboardTransport.constructor | SmartDashboard/src/transport/dashboard_transport.cpp:589-590 | Loading sorted events takes them over and sets the duration; the checkpoints are those of BuildCheckpoints |
| ReplayTransport.ReplayDashboardTransport.BuildCheckpoints | SmartDashboard/src/transport/dashboard_transport.cpp:792-816 | One pass over the events builds exactly the specified checkpoints |
| ReplayTransport.ReplayDashboardTransport.FindCheckpointForEvent | SmartDashboard/src/transport/dashboard_transport.cpp:818-836 | The candidate separates the checkpoints at or before the index from those after it |
| ReplayTransport.ReplayDashboardTransport.FindFirstEventAfterTime | SmartDashboard/src/transport/dashboard_transport.cpp:838-851 | Binary search finds the number of events before the cursor |
| ReplayTransport.ReplayDashboardTransport.Reconstruct | SmartDashboard/src/transport/dashboard_transport.cpp:395-411 | Checkpoint plus partial replay computes the specified map |
| ReplayTransport.ReplayDashboardTransport.Entries | SmartDashboard/src/transport/dashboard_transport.cpp:413-417 | The entries of a map are listed once each, by ascending key |
| ReplayTransport.ReplayDashboardTransport.SeekPlaybackUs | SmartDashboard/src/transport/dashboard_transport.cpp:383-430 | A seek clamps the cursor, moves the index with it and publishes every entry of the rebuilt map exactly once, by ascending key |
| ReplayTransport.ReplayDashboardTransport.SetPlaybackPlaying | SmartDashboard/src/transport/dashboard_transport.cpp:370-381 | Refused when stopped, else sets the flag and restarts the tick clock |
| ReplayTransport.ReplayDashboardTransport.SetPlaybackRate | SmartDashboard/src/transport/dashboard_transport.cpp:432-444 | Refused when stopped, else sets the rate clamped to 0.05..8 and restarts the tick clock |
| ReplayTransport.ReplayDashboardTransport.DeliverUntil | SmartDashboard/src/transport/dashboard_transport.cpp:883-895 | The filter on the old cursor never drops a data event |
| ReplayTransport.ReplayDashboardTransport.PlaybackTick | SmartDashboard/src/transport/dashboard_transport.cpp:865-904 | The locked part of a pass: while playing the new cursor is the lesser of the duration and the old one plus the scaled time since the last tick, by any rounding; the data events passed are returned, and playback stops at the end |
| ReplayTransport.ReplayDashboardTransport.PlaybackPass | SmartDashboard/src/transport/dashboard_transport.cpp:858-909 | What a tick returns is published, after the lock is released |
| UiUpdates.CoalescedMap | SmartDashboard/src/app/main_window.cpp:1583-1601 | Coalescing by key changes nothing a last-write observer could see |
| UiUpdates.CoalescedInOrder | SmartDashboard/src/app/main_window.cpp:1583-1601 | Every entry is the last update of its key and entries are ordered by the first appearance of their keys |
| UiUpdates.CoalescedKeepsKeys | SmartDashboard/src/app/main_window.cpp:4388-4411 | Coalescing keeps exactly the keys, one entry each |
| UiUpdates.CollapsedMap | SmartDashboard/src/app/main_window.cpp:4388-4411 | Overflow collapse keeps the last value per key and bounds the queue by 500 or the number of distinct keys |
| UiUpdates.RefusedExactly | SmartDashboard/src/model/variable_store.cpp:7-37 | An update is refused if and only if its record has a larger number and no rollback is detected |
| UiUpdates.ReceivedExactly | SmartDashboard/src/app/main_window.cpp:1803-1812 | What receiving an update does to every record: a number below the last one sets all numbers to 0; then the record of the key takes value, number and type (1 flag, 2 number, else text) unless its number is larger |
| UiUpdates.NumberedAcceptedExactly | SmartDashboard/src/app/main_window.cpp:1803-1812 | A gate accepts every numbered update if and only if every record is at or below the last number seen, where 0 counts as 1 |
| UiUpdates.FallsBehindExactly | SmartDashboard/src/app/main_window.cpp:1803-1812 | Receiving an update leaves its key behind the stream if and only if the update is refused and differs from what is displayed |
| UiUpdates.OrderKeptExactly | SmartDashboard/src/app/main_window.cpp:1803-1812 | The gate stays ordered if and only if the update is numbered or all resulting records are at 0 |
| UiUpdates.ReceivedDisplays | SmartDashboard/src/app/main_window.cpp:1803-1812 | A numbered update, or an unnumbered one while all records are at 0, is stored and shown |
| UiUpdates.UnnumberedUpdateSticks | SmartDashboard/src/app/main_window.cpp:1805-1812 | An unnumbered update in a numbered session is refused and so is the smaller number after it: the display stays behind |
| UiUpdates.StepConserved | SmartDashboard/src/app/main_window.cpp:1541-1606 | Received, then in hand, then queued values always make up the last lasting value of every key: a direct update lasts unless its key is queued |
| UiUpdates.DrainAlwaysScheduled | SmartDashboard/src/app/main_window.cpp:4380-4423 | In every interleaving a nonempty queue has a drain outstanding, at most one is outstanding, and the queue holds at most 500 updates or one per key |
| UiUpdates.LastWriteWins | SmartDashboard/src/app/main_window.cpp:1541-1606 | In every run whose updates, queued or received on the UI thread, are numbered no update is refused and an empty queue means the store shows the last lasting value of every key; without direct updates that is the last value enqueued |
| UiUpdates.LastWriteWinsExactly | SmartDashboard/src/app/main_window.cpp:1541-1606 | In every run, numbered or not, with updates received on the UI thread or not, an empty queue means the store shows exactly the keys that arrived, each with its last lasting value if and only if the key is not behind; that value is the last one enqueued unless a later direct update met no queued one |
| UiUpdates.DisturbedButComplete | SmartDashboard/src/model/variable_store.cpp:17-25 | An unnumbered update of a new key beside a numbered record is accepted and shown |
| UiUpdates.SeekOverQueue | SmartDashboard/src/app/main_window.cpp:4367-4371 | Updates received on the UI thread while others are queued and more arrive: in any session, once all is drained, every key shows the last value in the order received, sought, queued, arrived since, if and only if the key is not behind |
| UiUpdates.NumberedSeekOverQueue | SmartDashboard/src/app/main_window.cpp:4367-4371 | In a numbered session nothing is refused and that value is displayed for every key, so the values sought are shown in the end if and only if no key sought was queued, or arrived since, with another last value |
| UiUpdates.SeekIsOverwritten | SmartDashboard/src/app/main_window.cpp:4367-4371 | One older queued update replaces the value sought, although its number is smaller |
| UiUpdates.DrainsEmptyTheQueue | SmartDashboard/src/app/main_window.cpp:1552-1570 | Without arrivals n queued updates are gone after n/150 drains, rounded up, and not before |
| UiUpdates.CatchUp | SmartDashboard/src/app/main_window.cpp:1541-1606 | From every scheduled state the UI side comes to rest by its own steps, within a bound computed from queue, hands and drains due |
| UiUpdates.UninterruptedDrain | SmartDashboard/src/app/main_window.cpp:1541-1606 | A drain event taken to its end is the contract of DrainPendingUiUpdates and posts another one exactly when updates are left |
| UiUpdates.VariableStore.Upsert | SmartDashboard/src/model/variable_store.cpp:7-37 | A new key is stored; a known one is replaced unless the number is smaller; the record returned is the one stored |
| UiUpdates.VariableStore.ResetSequenceTracking | SmartDashboard/src/model/variable_store.cpp:39-47 | All values stay, all sequence numbers become 0 |
| UiUpdates.ReconnectTakesAnyNumber | SmartDashboard/src/app/main_window.cpp:4342 | After a reconnect an update of any number is stored and shown, while the display has stayed as it was |
| UiUpdates.ClearKeepsTheQueue | SmartDashboard/src/app/main_window.cpp:2179-2203 | Clearing the widgets in any reachable state forgets all that was received, accepts every numbered update afterwards, and makes what is still queued all that lasts |
| UiUpdates.MainWindow.CoalesceByKey | SmartDashboard/src/app/main_window.cpp:1583-1601 | The loop with its key index computes the coalesced list |
| UiUpdates.MainWindow.EnqueueUpdate | SmartDashboard/src/app/main_window.cpp:4382-4418 | Appends, collapses above 500 and asks for a drain exactly if none is scheduled |
| UiUpdates.MainWindow.TakeBatch | SmartDashboard/src/app/main_window.cpp:1554-1570 | Takes at most 150 updates from the front and reschedules exactly if some are left |
| UiUpdates.MainWindow.OnVariableUpdateReceived | SmartDashboard/src/app/main_window.cpp:1803-1813 | Rollback detection, then the store; an accepted update is recorded with its value, as a flag exactly for type 1 and as a number exactly for type 2 |
| UiUpdates.MainWindow.DrainPendingUiUpdates | SmartDashboard/src/app/main_window.cpp:1541-1606 | The batch is coalesced and received in order; the queue keeps the rest |
| DashboardPipeline.SeqStep | ClientInterface_direct/src/sd_direct_publisher_stub.cpp:146-149 | Published sequence numbers stay nonzero and strictly increasing for fewer than 2^64 steps |
| DashboardPipeline.Projection | SmartDashboard/src/transport/dashboard_transport.cpp:113-152 | Nothing the dashboard does with updates changes what publisher, ring and consumer do |
| DashboardPipeline.LinkKeepsDisplay | SmartDashboard/src/transport/dashboard_transport.cpp:113-152 | Nothing the link does, a detach included, changes what the dashboard holds; only a dashboard that attaches starts afresh |
| DashboardPipeline.ControlIsReceived | SmartDashboard/src/transport/dashboard_transport.cpp:231-266 | Before the first drain a control value for any key handed over is received at once |
| DashboardPipeline.DisplayExactly | SmartDashboard/src/transport/dashboard_transport.cpp:121-147 | Displaying what a consumer decodes shows the table written, clipped and converted to text, if and only if keys that end up the same have values that do, for any text conversion |
| DashboardPipeline.CutKeyMoves | SmartDashboard/src/transport/dashboard_transport.cpp:122 | A key whose first 128 bytes do not survive the text conversion is displayed under another key |
| DashboardPipeline.RobotValueIsRecorded | SmartDashboard/src/app/main_window.cpp:159-173 | A value that has come through wire, conversion and gate is recorded as a flag if a flag was sent, as a number if a number, as text if a string or a list, with the content sent up to 256 bytes and 32 items, under its key cut to 128 bytes |
| DashboardPipeline.ControlGentle | SmartDashboard/src/app/main_window.cpp:4443-4449 | An unnumbered control value for a key already handed over, received before the first drain, is followed by the queued value of its key: nothing is disturbed and it does not last |
| DashboardPipeline.DisplayIsLastDelivered | SmartDashboard/src/transport/dashboard_transport.cpp:113-152 | In every run of publisher, ring, worker and UI thread, control values received while the transport starts included, nothing is refused by the store, and an empty queue means the display shows the last value delivered for every key, converted to text |
| DashboardPipeline.DashboardCatchesUp | SmartDashboard/src/transport/dashboard_transport.cpp:113-152 | From every state of every run worker and UI thread can, without the robot, come to show the last value of every key delivered |
| DashboardPipeline.LateDashboardIsComplete | SmartDashboard/src/app/main_window.cpp:4357-4449 | A dashboard that attaches late ends up displaying the values last sent for exactly the retained keys, clipped, converted and typed, if and only if keys that end up the same have values that do; then every value is shown as what it was sent as; those are the retained values if stores of one key never overlap |
| ReplayPipeline.SeekThenPlayDisplays | SmartDashboard/src/transport/dashboard_transport.cpp:383-916 | A fresh dashboard that seeks and plays, draining in any order, displays in every session exactly the keys of the fold of the data events before the cursor (until playback passes an event, of the map the seek rebuilt), each with its value there if and only if it is not behind; so it displays the fold if and only if no key is behind |
| ReplayPipeline.AlikeSessionDisplays | SmartDashboard/src/transport/dashboard_transport.cpp:383-916 | In a session whose data events all carry numbers, or all lack them, nothing is refused and that fold is displayed |
| ReplayPipeline.UnnumberedEventIsLost | SmartDashboard/src/transport/dashboard_transport.cpp:712 | A session with an event numbered 7 and then an unnumbered one for the same key displays the first value after playing both, with one update refused |
| MjpegParser.RoundIsStable | SmartDashboard/src/camera/mjpeg_stream_source.cpp:189-246 | A parse round that succeeds does the same whatever bytes arrive later |
| MjpegParser.ParseInTwo | SmartDashboard/src/camera/mjpeg_stream_source.cpp:126-127 | Parsing what has arrived and then the rest gives the frames and buffer of one parse of everything |
| MjpegParser.ChunkingDoesNotMatter | SmartDashboard/src/camera/mjpeg_stream_source.cpp:126-256 | However the stream is cut into arrivals, frames and buffer are those of one parse, as long as no arrival leaves more than 10 MB |
| MjpegParser.ChunkingExactly | SmartDashboard/src/camera/mjpeg_stream_source.cpp:248-255 | Frames and buffer agree with one parse after every arrival if and only if no arrival leaves more than 10 MB unparsed |
| MjpegParser.OverflowIsDropped | SmartDashboard/src/camera/mjpeg_stream_source.cpp:248-255 | Bytes without a marker, in one arrival, are kept, and dropped exactly if they are more than 10485760 |
| MjpegParser.PrintParseRoundTrip | SmartDashboard/src/camera/mjpeg_stream_source.cpp:172-246 | Parsing a printed multipart body whose parts have headers (section 5.1.1 of RFC 2046) returns the data of every part in order and keeps the final marker |
| MjpegParser.PreambleIsSkipped | SmartDashboard/src/camera/mjpeg_stream_source.cpp:189-246 | A printed body yields the data of its parts whatever comes before its first marker |
| MjpegParser.RoundOnText | SmartDashboard/src/camera/mjpeg_stream_source.cpp:189-246 | A text of junk, marker, line end (CR LF, LF, CR or none), headers up to the first blank line and data up to the next marker is cut there, and its data, less one CR LF before that marker, is the frame |
| MjpegParser.RoundHasText | SmartDashboard/src/camera/mjpeg_stream_source.cpp:189-246 | Every round that cuts something off cuts such a text |
| MjpegParser.LeftoverIsOnePart | SmartDashboard/src/camera/mjpeg_stream_source.cpp:248-255 | While a printed body arrives, less than one part and the marker after it is ever left in the buffer |
| MjpegParser.PrintedStreamInChunks | SmartDashboard/src/camera/mjpeg_stream_source.cpp:126-256 | A printed body yields its frames however the network cuts it, if every part with the next marker fits 10 MB |
| MjpegParser.StreamInChunks | SmartDashboard/src/camera/mjpeg_stream_source.cpp:126-256 | A stream with the delimiter of its boundary (two hyphens before it) yields its frames however the network cuts it and whatever precedes the first delimiter, if junk, one part and the next delimiter fit 10485760 bytes |
| MjpegParser.StreamAfterOverflow | SmartDashboard/src/camera/mjpeg_stream_source.cpp:248-255 | After the buffer has been cleared, inside a part or not, frames are found again from the next delimiter on |
| MjpegParser.HeadersNeededExactly | SmartDashboard/src/camera/mjpeg_stream_source.cpp:189-246 | Parsing a body of parts with and without header blocks returns the data of every part if and only if every part has a header block |
| MjpegParser.BareFirstIsLost | SmartDashboard/src/camera/mjpeg_stream_source.cpp:189-246 | A body that starts with a part without headers never yields the data of its parts |
| MjpegParser.BareRound | SmartDashboard/src/camera/mjpeg_stream_source.cpp:198-217 | A round on a part without headers that ends at the next marker yields less than its data, whatever follows |
| MjpegParser.MjpegStreamSource.ParseRound | SmartDashboard/src/camera/mjpeg_stream_source.cpp:191-245 | One round cuts off the first complete part and emits its data if not empty, or waits |
| MjpegParser.MjpegStreamSource.ParseBuffer | SmartDashboard/src/camera/mjpeg_stream_source.cpp:165-256 | The loop ends, emits exactly the frames of the buffer and drops a leftover above 10 MB; without a boundary it does nothing |
| MjpegParser.MjpegStreamSource.OnReadyRead | SmartDashboard/src/camera/mjpeg_stream_source.cpp:126-127 | Appending and parsing is one step of the chunked parse |
| EscapedFields.UnescapeUndoesEscape | ClientInterface_direct/src/sd_direct_retained_store.cpp:63-97 | Unescaping an escaped string returns it, for all bytes |
| EscapedFields.SplitUndoesJoin | ClientInterface_direct/src/sd_direct_retained_store.cpp:99-136 | Splitting the bar-joined escaped fields returns the fields, for every nonempty list |
| EscapedFields.EscapeKeeps | ClientInterface_direct/src/sd_direct_retained_store.cpp:63-75 | Escaping leaves every byte but the backslash in place, a newline too |
| EscapedFields.EscapeByByte | ClientInterface_direct/src/sd_direct_retained_store.cpp:63-75 | Escaping puts a backslash before the bytes 92, 124, 10 and 13 and changes nothing else |
| EscapedFields.NumberText | ClientInterface_direct/src/sd_direct_retained_store.cpp:241-243 | What a numeric field is read as: spaces, at most one sign and the digits that follow; no digit or a value beyond 32 bits (type code) or 64 bits (number, time) throws; the type code keeps its low byte and a minus wraps around in 64 bits |
| EscapedFields.NumberRoundTrip | ClientInterface_direct/src/sd_direct_retained_store.cpp:241-243 | Decimal numbers read back as written, within the width of the field they go to |
| EscapedFields.EscapeText | ClientInterface_direct/src/sd_direct_retained_store.cpp:63-75 | The loop computes the escaped form |
| EscapedFields.UnescapeText | ClientInterface_direct/src/sd_direct_retained_store.cpp:77-97 | The loop computes the unescaped form |
| EscapedFields.SplitEscaped | ClientInterface_direct/src/sd_direct_retained_store.cpp:99-136 | The loop computes the fields |
| TextFiles.TextRoundTrip | ClientInterface_direct/src/sd_direct_retained_store.cpp:167-217 | A file written and read as text gives back what was written, on Windows up to the first byte 26, so all of it if and only if there is none |
| TextFiles.NativeByByte | ClientInterface_direct/src/sd_direct_retained_store.cpp:167-217 | On Windows a newline is written as return and newline, every other byte as it is |
| RetainedStore.StoredExactly | ClientInterface_direct/src/sd_direct_retained_store.cpp:419-421 | A field reads back as written if and only if it has no NUL and fits its slot |
| RetainedStore.ArrayReadsBackExactly | ClientInterface_direct/src/sd_direct_retained_store.cpp:431-505 | A string array reads back if and only if it is nonempty, no item contains the separator 0x1f, and the packed form fits |
| RetainedStore.ValueReadsBackExactly | ClientInterface_direct/src/sd_direct_retained_store.cpp:423-509 | The same condition for every kind of value |
| RetainedStore.UniqueKeptExactly | ClientInterface_direct/src/sd_direct_retained_store.cpp:404-421 | A put keeps keys unique if and only if the key fits, or its clipped form is new or already in the slot written |
| RetainedStore.LongKeyDuplicates | ClientInterface_direct/src/sd_direct_retained_store.cpp:404-421 | A key longer than 191 bytes put twice is stored twice |
| RetainedStore.PutRefines | ClientInterface_direct/src/sd_direct_retained_store.cpp:381-411 | A put that keeps keys unique is a map update under the stored key: it replaces the entry of the key given, else takes a free slot, else evicts exactly one entry, of smallest sequence number |
| RetainedStore.PutRecords | ClientInterface_direct/src/sd_direct_retained_store.cpp:419-451 | The slot a put writes holds the number and the time of the update, its value, and the type code 1, 2, 3 or 4 by the kind of value |
| RetainedStore.HoldsLastPuts | ClientInterface_direct/src/sd_direct_retained_store.cpp:369-456 | After every run of puts with fitting keys each key held shows the last update put for it |
| RetainedStore.EvictsSmallestPut | ClientInterface_direct/src/sd_direct_retained_store.cpp:381-411 | In every run of puts with fitting keys a key is given up only for a new one in a full table, and then one whose last put carried the smallest number among the keys held |
| RetainedStore.LineOfPut | ClientInterface_direct/src/sd_direct_retained_store.cpp:185-205 | The file line of an update put: type code, number, time, key and text, separated by bars |
| RetainedStore.GetSeesView | ClientInterface_direct/src/sd_direct_retained_store.cpp:458-517 | A lookup returns what the map holds for the key if the kind matches, else nothing |
| RetainedStore.GetAfterPut | ClientInterface_direct/src/sd_direct_retained_store.cpp:369-517 | A lookup after a put returns the value put if and only if key and value fit their slot, for every key and whatever duplicates earlier puts left |
| RetainedStore.RunKeepsTable | ClientInterface_direct/src/sd_direct_retained_store.cpp:369-456 | Over every run of puts the table keeps its size and stays well formed, and keys stay unique if all keys put fit |
| RetainedStore.PersistLoadExactly | ClientInterface_direct/src/sd_direct_retained_store.cpp:156-274 | Loading what was persisted restores exactly the held entries in slot order if and only if no key or text contains a newline or, where files are translated as on Windows, the byte 26 |
| RetainedStore.NewlineIsNotRestored | ClientInterface_direct/src/sd_direct_retained_store.cpp:63-274 | One put with a newline in its key is not restored from the file |
| RetainedStore.LeftIsLoaded | ClientInterface_direct/src/sd_direct_retained_store.cpp:228-271 | Without a conversion error the table holds exactly the entries loaded |
| RetainedStore.OddLineIsSkipped | ClientInterface_direct/src/sd_direct_retained_store.cpp:228-236 | A line that does not split into five fields is passed over, wherever it stands |
| RetainedStore.ThrowLeaves | ClientInterface_direct/src/sd_direct_retained_store.cpp:238-268 | Where a conversion throws, the slot keeps what was converted before it: type, number, time and, if only the double failed, the key; the rest is empty |
| RetainedStore.CompactionKeepsView | ClientInterface_direct/src/sd_direct_retained_store.cpp:223-271 | Compacting the table on load keeps the map it stands for |
| RetainedStore.RestartKeepsReads | ClientInterface_direct/src/sd_direct_retained_store.cpp:210-456 | After every run of puts a restart loads the file without a conversion error, and the table it leaves answers every lookup as before, for fitting keys and texts that a text file can carry |
| RetainedStore.DirectRetainedStore.FindSlot | ClientInterface_direct/src/sd_direct_retained_store.cpp:381-411 | The scan with its early exit finds the key's slot, else the first free one, else the oldest |
| RetainedStore.DirectRetainedStore.Put | ClientInterface_direct/src/sd_direct_retained_store.cpp:369-456 | A put changes one slot, to what PutRecords says, and rewrites the file, as text, from the new table, if there is a file and it can be opened; the result says whether |
| RetainedStore.DirectRetainedStore.PersistLocked | ClientInterface_direct/src/sd_direct_retained_store.cpp:156-208 | The file, if there is one and it can be opened, holds one line per held slot, in slot order; else it is left alone |
| RetainedStore.DirectRetainedStore.LoadLocked | ClientInterface_direct/src/sd_direct_retained_store.cpp:210-274 | The table is filled from the front with the entries of the well-formed lines until it is full; where a conversion throws, the slot it was filling keeps what was converted before |
| RetainedStore.DirectRetainedStore.TryGet | ClientInterface_direct/src/sd_direct_retained_store.cpp:458-517 | The first held slot with the key and kind is read; none means not found |
| SessionRecorder.NothingLost | SmartDashboard/src/app/main_window.cpp:5547-5634 | In every interleaving the bytes of the file are always a prefix of the accepted lines as text, and when the writer has been joined exactly those, once each and in order; a file that did not open is left alone |
| SessionRecorder.NoWakeUpIsLost | SmartDashboard/src/app/main_window.cpp:5567-5572 | A writer asleep with a line or a stop to see has been notified or is about to be |
| SessionRecorder.OneNoticePerLine | SmartDashboard/src/app/main_window.cpp:5684-5709 | Every line accepted owes exactly one notification, a line refused none |
| SessionRecorder.SleepsUntilNotified | SmartDashboard/src/app/main_window.cpp:5567-5572 | The writer falls asleep with no notification left over, and only a new one or a spurious wake-up ends its sleep |
| SessionRecorder.LastDrainFindsNothing | SmartDashboard/src/app/main_window.cpp:5592-5605 | The drain after the loop never finds a line |
| SessionRecorder.TimesGoBackExactly | SmartDashboard/src/app/main_window.cpp:5684-5762 | In every run accepted timestamps decrease if and only if a connection event was accepted after a line that overtook it, or a line was stamped below a time that a connection event had overwritten with its own earlier one |
| SessionRecorder.VariableStampsNeverDecrease | SmartDashboard/src/app/main_window.cpp:5641-5709 | Over runs of variable events alone timestamps never decrease, from any number of threads |
| SessionRecorder.ConnectionEventGoesBack | SmartDashboard/src/app/main_window.cpp:5711-5766 | A connection event stamped before the lock can be written after a later variable event: times go back |
| SessionRecorder.VariableEventGoesBack | SmartDashboard/src/app/main_window.cpp:5718-5733 | The stamp a connection event stores outside the lock can make a variable event go back, without the connection event being accepted |
| SessionRecorder.StopAdvances | SmartDashboard/src/app/main_window.cpp:5612-5634 | During a stop no step of any thread moves it back and one that moves it forward is always enabled |
| SessionRecorder.StopFinishes | SmartDashboard/src/app/main_window.cpp:5612-5634 | From every moment of a stop a bounded number of steps ends it with the writer joined |
| SessionRecorder.StopWritesTheFile | SmartDashboard/src/app/main_window.cpp:5612-5634 | In every run a session under way can be stopped, and the stop leaves every line accepted in its file if the file opened |
| SessionRecorder.FileReadsBack | SmartDashboard/src/app/main_window.cpp:5557-5589 | Reading the file as text by lines gives the recorded lines back, whether or not the platform ends lines with carriage return and newline |
| SessionRecorder.SessionAcceptsBetweenStartAndStop | SmartDashboard/src/app/main_window.cpp:5540-5708 | A session accepts every event between its start and the request to stop, in order, each stamped with the time since the start or the stamp before it if that is later, and none after |
| SessionRecorder.NothingBetweenSessions | SmartDashboard/src/app/main_window.cpp:5630-5690 | After the clean-up nothing is accepted and nothing is left over until the next start |
| SessionRecorder.Recorder.RecordVariableEvent | SmartDashboard/src/app/main_window.cpp:5684-5708 | Refused unless recording; else stamped, never before the last stamp, and queued, with one notification due |
| SessionRecorder.Recorder.StampConnectionEvent | SmartDashboard/src/app/main_window.cpp:5718-5733 | The stamp is taken and remembered outside the lock |
| SessionRecorder.Recorder.PushConnectionEvent | SmartDashboard/src/app/main_window.cpp:5755-5765 | Refused unless recording, else queued with the stamp taken before |
| SessionRecorder.Recorder.CheckQueue | SmartDashboard/src/app/main_window.cpp:5567-5583 | Sleeps exactly with nothing to do, takes the oldest line if there is one, leaves exactly when stopped and empty |
| SessionRecorder.Recorder.DrainRest | SmartDashboard/src/app/main_window.cpp:5592-5605 | The final loop writes everything still queued, in order |
| SessionRecorder.Recorder.FinishWriting | SmartDashboard/src/app/main_window.cpp:5563-5606 | Once a stop is requested the loop and the final drain write exactly what is queued |

## Left out

- DirectRing.Ring.WriteUpsert: for rings of at most 2^32 - 65536 bytes; AdvanceExact says which capacities the 32-bit cursor sums support.
- DirectRing.Ring.ReadNextUpsert: for the same capacities, and its copies must stay inside the mapping (Readable), which every run of the protocol guarantees; debug output is left out. ReadsExactly says what happens to other contents.
- RingProtocol.FifoInEveryRun: one producer thread writes at a time and one consumer is attached at a time, with the same capacity on both ends. `PublishBool` in SmartDashboard/src/transport/dashboard_transport.cpp:201 also flushes while the auto-flush thread runs; overlapping flushes are not part of this model. The byte-level machine uses the exact circular step.
- DirectWire.FrameRoundTrip: integers are little-endian, the header's padding bytes are written as 0 (the reader ignores them), and doubles are opaque 8-byte payloads.
- TelemetryLink.LateJoinerIsComplete: a write dropped after the pass is outside the claim, since the transport does not retry. The heartbeat and the id that a pass reads are one step.
- DashboardPipeline.LateDashboardIsComplete: a dashboard starts with an empty store when it attaches, and runs are shorter than 2^64 steps so that sequence numbers do not wrap. The control values received past the queue are those of the start, before the first drain; any others, and clearing the widgets, are steps of UiUpdates only. The text conversion is any function on byte strings; what it does to invalid UTF-8 is not spelled out.
- UiUpdates.LastWriteWins: updates that the window handles before SmartDashboard/src/app/main_window.cpp:1803 (chooser keys) are left out.
- ReplayPipeline.SeekThenPlayDisplays: one seek on a fresh dashboard, and widgets are not cleared meanwhile; a seek over queued updates, in any reachable state, is UiUpdates.SeekOverQueue.
- ReplayTransport.ReplayDashboardTransport.PlaybackTick: 64-bit overflow of the cursor is not modelled.
- ReplayTransport.ReplayDashboardTransport.constructor: the events are given sorted; reading and sorting the session file and its markers are left out.
- RetainedStore.PersistLoadExactly: decimal text of doubles is assumed to read back (17 significant digits) and to contain no special byte.
- RetainedStore.RestartKeepsReads: the same assumption, for keys that fit and texts that a text file can carry; the other texts are settled by PersistLoadExactly.
- SessionRecorder.NothingLost: JSON text is an opaque byte string; session start, stop and connection events come from the UI thread, as in the source.
- SessionRecorder.FileReadsBack: for texts without raw line ends, as JSON text is, in which control characters are escaped.
- MjpegParser.HeadersNeededExactly: for parts whose data and headers do not contain the marker, as the format demands.
- MjpegParser.MjpegStreamSource.ParseBuffer: JPEG decoding, the frame rate and reading the boundary from the Content-Type header are left out. The comments describe a search for a line end before the marker (SmartDashboard/src/camera/mjpeg_stream_source.cpp:181-184) and a Content-Length path (SmartDashboard/src/camera/mjpeg_stream_source.h:32-36); the code has neither, and the model follows the code.
- DirectSubscriber.StaleExactly: the reader's clock never runs backwards.
- Shared memory mappings, named mutexes and events, file dialogs, settings and plug-in loading: input and output, or foreign calls.
- Value types outside the four of the wire format: they cannot arise, so the default branches are not modelled.
- Layout save and load, docks, tiles, plots and other painting: user interface.
- Camera discovery, subscription lists and timeline windows: easy bookkeeping.
- Auto-reconnect: it depends on callback order the sources do not fix.
