# Input-delivery pipeline: a verified model

This project models how android-hid-connect delivers input: from producer-side batching, through a
command channel and a dispatcher thread, a HID session and a coalescing writer, to the bytes on the
control socket; and, beside it, the lock-free gamepad ring, the device-to-host stream with its
latest-frame cache, the multi-touch handle, and the AI kernel's action bridge and chunk splitter.

Each part has three layers:

- a specification: functions on plain values (`Coalesce`, `Sessions`, `Dispatchers`, `Batchers`,
  `Rings`, `Device`, `LatestFrames`, `Multitouch`, `Bridge`, `ChunkPlanner`);
- objects with mutable fields, arrays and loops, shaped like the original's, whose methods are proved
  to do what the specification says (`CoalescingWriters`, `HidSessions`, `DispatcherLoops`,
  `BatcherObjects`, `GamepadRings`, `DeviceReaders`, `MultitouchHandles`, `ActionInjectors`);
- laws about all inputs, runs and interleavings (`CoalesceLaws`, `WriterLaws`, `Tapes`,
  `SessionLaws`, `InputLaws`, `SessionFaults`, `AfterClose`, `Lifecycle`, `DispatcherLaws`, `BatcherLaws`,
  `BatcherTraffic`, `WireGrowth`, `EndToEnd`, `RingConsumer`, `BridgeLaws`).

What the outside world decides is a parameter. `Coalesce.Env` answers every transport write, every
transport flush and every reading of the flush window; a lemma about "every transport" quantifies
over all of them, and one about a reliable transport assumes that no write or flush fails and
nothing about the clock. `net` answers a batcher's channel sends. `lerp` stands for interpolation in
single precision. The payload parsers of frame summaries and statistics are arbitrary functions.

Verify everything with `dafny verify dfyconfig.toml`.

## Where the code and its own words differ

The model follows the code; each difference is a lemma.

- A transport flush that fails after a successful buffered write makes the retry send the bytes
  again (`CoalesceLaws.RunConservesIffNeverTorn`, `OneReportSentTwice`).
- A coalesced push, and so a touch, can fail with its bytes still on their way
  (`Multitouch.TouchJoinsTheStreamUnlessLost`), so a retried down puts the finger down twice
  (`Multitouch.RetriedDownIsSentTwice`), and so can a torn flush without any failed touch
  (`TornFlushRepeatsADown`, exact condition in `DeviceDisciplineBreaksIff`); a gamepad batcher's
  failed push has usually taken its frame (`BatcherLaws.PushTakesUnlessRefused`).
- The ring consumer's comment promises delivery of a frame pushed right before a close; it can be
  lost (`RingConsumer.AcceptedBeforeCloseYetLost`, exact bound in `RingShutdown`).
- The chunk splitter's comment promises an observation at the end of every chunk; only the last is
  made to end in one (`ChunkPlanner.EveryChunkIsValidIff`).
- `key` and the mouse methods work on a closed session (`SessionFaults.InputBehindDestroyIff`), and
  after a failed close the gamepad can be sent reports behind its own destroy
  (`AfterClose.InputBehindDestroyOnAnyTransportIff`, `ReportBehindTheGamepadsDestroy`).
- `landed` is documented as flushed to the transport; in a chunk whose final flush is refused it is
  not (`BridgeLaws.LandedIsOnTheWireIff`, `LandedTapNotOnTheWire`).
- A failed open promises to destroy what it opened; a device whose create landed and failed to flush
  is never destroyed (src/session.rs:357-359; `SessionFaults.OpenRollsBackIff`,
  `CreatedKeyboardLeaks`).
- A close that failed and is tried again can repeat the keyboard's and mouse's destroys and omit the
  gamepad's (`SessionFaults.RetryIsExactlyOnceIff`, `KeyboardDestroyedTwice`,
  `GamepadNeverDestroyed`).

## Model

| member | source | states |
|---|---|---|
| EndToEnd.FlushWaitDelivers | src/client.rs:2678-2690 | For any number of producers, every interleaving and any buffering, on a reliable transport: once a producer has flushed its batcher and its flush_wait is answered, the wire begins with exactly the serialization of the commands dispatched up to its barrier, in channel order, and its own frames among them are exactly the ones it pushed, in push order, each once |
| EndToEnd.DeliveryHappens | src/client.rs:2992-3003 | On a reliable transport: such runs exist: a producer that takes one to 24 touches (the touch batcher's capacity), flushes and waits is answered Ok once its two commands are dispatched |
| EndToEnd.RunKeepsInv | src/client.rs:4538-4560 | Over every run of producers, channel and dispatcher: the dispatcher is where its processed prefix of the channel puts it, each producer's frames on the channel followed by its buffer are its accepted frames, and a waiting producer's barrier lies behind all its frames |
| EndToEnd.CallIsARun | src/client.rs:2760-2833 | Every batcher call under every channel answer is a run of the system's steps, so the theorem above covers every interleaving of such calls |
| EndToEnd.AnswersComeFromBarriers | src/client.rs:4973-4990 | On every transport an answered ticket, Ok or not, belongs to a processed barrier, and was answered when that barrier was dispatched |
| EndToEnd.WireOnlyGrows | src/client.rs:4538-4560 | On every transport dispatching more commands never takes bytes back from the wire or changes them |
| EndToEnd.StreamIsSerialized | src/client.rs:4570-4580 | On a reliable transport, after any dispatched commands, wire and buffer together are the serialized creates and command messages |
| EndToEnd.FlushCommandDelivers | src/client.rs:4992-4995 | On a reliable transport a flush command behind any commands but a Close leaves nothing buffered: the wire is exactly their serialization |
| CoalesceLaws.RunConservesIffNeverTorn | src/coalesce.rs:605-618 | Over every run on every transport, wire followed by buffer is exactly the accepted messages of each call, in call order and once each, if and only if no flush of the run had a non-empty buffer, its write taken and its transport flush refused; otherwise it is longer |
| CoalesceLaws.OneReportSentTwice | src/coalesce.rs:605-618 | A run that duplicates: the write lands, the transport flush fails, and the retried flush sends the same twenty bytes again |
| CoalesceLaws.ApplyConserves | src/coalesce.rs:554-618 | One call of any entry point, whatever the transport does: exactly the accepted prefix of its messages joins the stream, all of it on Ok, and bytes are sent with the buffer kept exactly at a torn flush |
| CoalesceLaws.ModeIndependence | src/coalesce.rs:662-669 | Any two writers (direct or coalescing, any window, limit and clock) given the same calls on reliable transports leave identical bytes: every requested message in order |
| CoalesceLaws.ReliableApply | src/coalesce.rs:263-292 | On a reliable transport a call fails exactly for a message that cannot be serialized, and the stream grows by exactly what was requested |
| CoalesceLaws.ReliableRun | src/coalesce.rs:334-504 | On a reliable transport: the same over runs, through single, packed-batch and field-batch entry points |
| CoalesceLaws.ReliableIntoInner | src/coalesce.rs:662-669 | On a reliable transport: recovering the transport hands over wire and buffer, in order |
| CoalesceLaws.ReasonIsTruthful | src/coalesce.rs:29-42 | On every transport a successful call reports Pending exactly when it put nothing on the wire |
| WriterLaws.CallIsOkIff | src/coalesce.rs:554-618 | Every entry point on every transport: a call is Ok if and only if its message can be serialized and every write and flush it made was taken; it stops at the first that is not and returns its error; an Ok call that made any transport call made a flush last; the flush counter counts the flushes taken, and after an Ok call the byte counter has grown as the wire has |
| WriterLaws.ReasonOfOkCall | src/coalesce.rs:29-42 | The reason of an Ok call, told from the state before it: Critical for a critical message; Full when the call brings the buffer to its limit, unless a batch leaves frames behind and the window has expired; Window for an expired window, an explicit flush or a direct write; Pending otherwise |
| WriterLaws.PushesAreCounted | src/coalesce.rs:554-561 | The push counter grows by the messages of the call, failed calls included |
| WriterLaws.OnlyDirectWritersLose | src/coalesce.rs:95-110 | A report whose write fails is lost exactly by a writer with a zero limit and a zero window, and kept for the next flush by any other |
| WriterLaws.DirectBatchCosts | src/coalesce.rs:371-405 | A direct batch on a reliable transport makes one write per 32 frames and a single flush |
| CoalesceLaws.FlushesNeverExceedPushes | src/coalesce.rs:605-618 | Over every run, failures included, flushes plus one for a non-empty buffer never exceed the messages pushed |
| CoalesceLaws.WrittenCountsTheWire | src/coalesce.rs:628-637 | On a reliable transport the byte counter is the length of the wire |
| CoalesceLaws.PendingBound | src/coalesce.rs:382-433 | After every successful call on any transport, for any limit and whatever was buffered before, at most the hard limit is buffered; with a limit it is met exactly by a batch that fits to the brim inside the window, or by a call that did nothing on a full buffer |
| CoalesceLaws.PendingBoundOverRuns | src/coalesce.rs:554-601 | Over every run on a reliable transport, for every limit and mode, the buffer never exceeds the limit after a call |
| CoalesceLaws.FlushNowGrows | src/coalesce.rs:605-618 | A flush delivers the buffer and empties it, or fails and keeps it |
| CoalesceLaws.DirectChunksGrow | src/coalesce.rs:382-405 | Direct batches: the 32-frame chunks written before a failure are a prefix of the batch |
| CoalesceLaws.BufferEachGrows | src/coalesce.rs:406-433 | Over-limit batches: a prefix of the frames joins the stream whatever flushes fail |
| CoalescingWriters.PushGamepadInputToBuf | src/coalesce.rs:134-139 | The growable-buffer encoder of packed frames appends the 20-byte message |
| CoalescingWriters.PushGamepadInputFieldsToBuf | src/coalesce.rs:166-191 | The growable-buffer encoder of raw fields appends the same 20 bytes as packing first |
| CoalescingWriters.EncodeGamepadInputSlice | src/coalesce.rs:153-163 | The fixed-slice encoder writes the 20-byte message and nothing else |
| CoalescingWriters.EncodeGamepadInputFieldsSlice | src/coalesce.rs:206-232 | The fixed-slice encoder of raw fields writes the same 20 bytes and nothing else |
| CoalescingWriters.PushUhidInputToBuf | src/coalesce.rs:119-131 | The growable-buffer encoder of any UHID input appends its serialization or refuses it |
| CoalescingWriters.EncodeUhidInputToArray | src/coalesce.rs:237-260 | The fixed-array encoder of any UHID input writes its serialization or refuses it |
| CoalescingWriters.CoalescingWriter.WithLimits | src/coalesce.rs:95-110 | Direct mode exactly for a zero limit and a zero window |
| CoalescingWriters.CoalescingWriter.FlushNow | src/coalesce.rs:605-618 | In-place flush is the specified flush |
| CoalescingWriters.CoalescingWriter.PushDirect | src/coalesce.rs:507-549 | In-place direct push is the specified push |
| CoalescingWriters.CoalescingWriter.Push | src/coalesce.rs:554-601 | In-place push is the specified push: critical messages drain the buffer first |
| CoalescingWriters.CoalescingWriter.PushUhidInput | src/coalesce.rs:301-331 | The UHID fast path is the general push of the same message |
| CoalescingWriters.CoalescingWriter.PushGamepadInput | src/coalesce.rs:334-363 | The packed fast path, direct or buffered |
| CoalescingWriters.CoalescingWriter.PushGamepadInputFields | src/coalesce.rs:263-292 | The raw-field fast path, direct or buffered |
| CoalescingWriters.CoalescingWriter.PushGamepadInputBatch | src/coalesce.rs:371-434 | The packed batch in its three branches, with the chunk loop and the frame loop |
| CoalescingWriters.CoalescingWriter.PushGamepadInputBatchFromFields | src/coalesce.rs:440-504 | The field batch in its three branches equals the packed batch of the packed frames |
| CoalescingWriters.CoalescingWriter.IntoInner | src/coalesce.rs:662-669 | Flush, then hand the transport over |
| Frames.DecodePack | src/session.rs:218-236 | A receiver reads a packed frame back as the frame with clamped triggers, low 16 button bits and one hat position |
| Frames.StreamRoundTrip | src/coalesce.rs:134-139 | A frame stream of any length decodes frame by frame to the normalized frames |
| Frames.SameReportIffSameMeaning | src/session.rs:218-236 | Two frames have the same report if and only if they mean the same |
| Frames.OffsetIsABijection | src/session.rs:218-236 | Stick offsetting is a bijection between i16 and u16 |
| Frames.HatPointsWhereTheDpadDoes | src/types.rs:737-743 | The hat table points where the pressed directions point and centres exactly when none is pressed or two are opposed |
| Frames.SlotPayloadIsPack | src/hid/gamepad.rs:688-700 | The driver's report for a frame is the frame's own packing |
| Frames.SuppressedOnlyIfUnchanged | src/hid/gamepad.rs:259-299 | Deduplication suppresses a frame only if it means what the slot already shows, and the slot always ends up meaning the frame |
| InputLaws.KeyReportShowsTheKeysDown | src/hid/keyboard.rs:86-160 | After any inputs of an opened session a key edge sends one report: its modifiers, a zero, then in increasing order exactly the ordinary keys whose last edge was a press, padded with zeros, or six roll-over codes if there are more than six |
| InputLaws.RefusedKeys | src/hid/keyboard.rs:86-104 | Scancodes that are neither ordinary nor modifiers, and keys without a keyboard, are refused and change nothing |
| InputLaws.HostReadsTheText | src/session.rs:425-449 | A host that reads the reports back gets exactly the text, lenient calls without the unsupported characters, strict ones up to the first of them and with an error; no key is left down |
| InputLaws.TapPressesAndReleases | src/client.rs:4596-4604 | A tap shows its key alone with the modifiers, then no key and no modifiers |
| InputLaws.MouseShowsMotionAndButtons | src/hid/mouse.rs:115-135 | A mouse report carries the five buttons and the motion as near as a signed byte can say it; clicks carry none; without a mouse both are refused |
| InputLaws.TouchCarriesTheScreenInForce | src/session.rs:1548-1617 | After any commands a touch and a scroll carry their own fields and the screen size last set, 1080 by 1920 if none was |
| InputLaws.PlainInputs | src/client.rs:4570-4600 | Android keys and control messages are sent as they are, whatever is open, and refused only if they cannot be serialized |
| InputLaws.GamepadReports | src/session.rs:658-731 | Unchecked frames are always sent and read back as the frame, packed and raw ones byte for byte; each refusal in its order |
| InputLaws.DedupedFrameIsSentIff | src/hid/gamepad.rs:259-299 | A deduplicated frame is suppressed exactly if the last one agreed with it in sticks, triggers, buttons and directions; else its report reads back as the frame |
| InputLaws.DedupedBatchCosts | src/session.rs:737-806 | On a reliable transport a deduplicated batch costs a direct writer one flush per 32 reports |
| Messages.Framing | src/control/message.rs:276-340 | Every serialized message of any kind announces its own length, whatever follows |
| Messages.SplitRecoversMessages | src/control/message.rs:276-340 | Cutting a stream of messages recovers exactly the messages |
| Messages.ParseSerialized | src/control/message.rs:276-340 | Every field comes back from the bytes, up to report padding and the cuts of injected and clipboard text |
| Messages.InputMessageIsSerialization | src/control/message.rs:397-408 | The fast paths' 20 bytes are the serialized UHID_INPUT |
| Messages.SerializesIff | src/control/message.rs:276-340 | A message is refused exactly for a name, descriptor or input that does not fit, with the error that says which |
| Typing.StrokeRoundTrip | src/types.rs:307-419 | Every supported character is the one its scancode and modifiers type |
| Typing.DistinctCharactersDistinctStrokes | src/types.rs:307-419 | No two characters share a stroke |
| Typing.SupportedIff | src/types.rs:307-419 | Exactly the printable ASCII characters have strokes, and newline, tab, backspace and escape |
| SessionLaws.PerformDoes | src/session.rs:452-459 | On a reliable transport a single-message call changes the devices and appends the message of the unbuffered ideal, with the same error |
| SessionLaws.RunScriptDoes | src/session.rs:425-449 | On a reliable transport: calls made of several inputs do exactly their inputs up to the first failure |
| SessionLaws.DedupeAppendsReports | src/session.rs:737-806 | On a reliable transport: staging 32 at a time changes nothing: the batch appends exactly the reports of one-at-a-time stepping and counts them |
| SessionLaws.FrameBatchIsOneAtATime | src/session.rs:633-657 | On a reliable transport: for every frame sequence the deduplicated batch and the frames set one by one end with the same devices, stream and error |
| SessionLaws.FrameBatchDoes | src/session.rs:737-806 | On a reliable transport: a deduplicated batch of any length is its frames; it returns the number of reports |
| SessionLaws.PackedBatchDoes | src/session.rs:842-856 | On a reliable transport: a packed batch of any length is its frames |
| SessionLaws.UncheckedBatchDoes | src/session.rs:813-834 | On a reliable transport: an unchecked batch of any length is its frames, and the packed batch of their packings |
| SessionLaws.GamepadPushIsPush | src/coalesce.rs:334-363 | On every transport the fixed-size gamepad push is the general push |
| SessionLaws.OpenDoes | src/session.rs:361-408 | On a reliable transport: opening sends one create per requested device |
| SessionLaws.CloseDoes | src/session.rs:1512-1541 | On a reliable transport: closing sends one destroy per open device |
| SessionLaws.DevicesDeclareThemselves | src/session.rs:382-407 | The creates are those of the requested devices, keyboard, mouse, gamepad, each with its own id and descriptor, the gamepad with its name and vendor |
| SessionLaws.OpenModes | src/session.rs:361-370 | A session coalesces exactly if asked to and given a window, with a limit of at least one byte |
| SessionLaws.DropDelivers | src/session.rs:1652-1667 | On a reliable transport dropping a session leaves nothing behind: the buffer and the owed destroys are on the wire |
| SessionFaults.InputBehindDestroyIff | src/session.rs:452-459 | On a reliable transport a device receives an input behind its own destroy if and only if the caller makes a key or mouse call on it after a close; the gamepad never does |
| AfterClose.InputBehindDestroyOnAnyTransportIff | src/session.rs:1512-1541 | On every transport: a device receives an input behind its own destroy if and only if an accepted call follows a close that landed the destroy, and is a key or mouse call of that device, or a gamepad report after a close that failed although the gamepad's destroy had landed; buffers sent again by torn flushes add no further case |
| AfterClose.CallsPlay | src/session.rs:1512-1541 | On every transport the calls, closes included, leave exactly their tape of messages and repeated buffers on the session's stream |
| AfterClose.ReportBehindTheGamepadsDestroy | src/session.rs:705-709 | A failed close whose gamepad destroy landed, and a report accepted behind it |
| AfterClose.RefusedCloseLandsNothing | src/session.rs:1512-1541 | A close whose drain or first write fails lands no destroy |
| SessionFaults.CallsReachTheStream | src/session.rs:928-937 | On a reliable transport the messages of the ideal are what the calls, closes included, append to the session's stream |
| SessionFaults.OpenRollsBackIff | src/session.rs:357-408 | On every transport: a failed open returns the error of the create that failed, and which creates and destroys it leaves on the wire; every created device is destroyed again if and only if the failing call is a create's write and all the owed destroys reach the wire |
| SessionFaults.CreatedKeyboardLeaks | src/session.rs:357-408 | A create lands, its flush fails, the open returns the error, and the device is never destroyed |
| SessionFaults.CloseThenRetry | src/session.rs:1512-1541 | On every transport and for every buffer: what two closes leave on the wire, the drained buffer and then the listed destroys, and when each of them succeeds |
| SessionFaults.RetryIsExactlyOnceIff | src/hid/gamepad.rs:673-685 | On every transport and for every buffer, two closes put each device's destroy on the wire exactly once if and only if one of them lands all the destroys and the other none |
| SessionFaults.SuccessfulRetryIsExactlyOnceIff | src/hid/gamepad.rs:673-685 | When the second close succeeds: exactly if the first did too, or the first destroy of the failed close reached the wire and the gamepad is the only device, or it did not and there is another device |
| SessionFaults.FailedRetryIsExactlyOnceIff | src/hid/gamepad.rs:673-685 | When the second close fails too: exactly if one of the two had all its writes taken, with only its last flush failing, and the other not even its first |
| SessionFaults.KeyboardDestroyedTwice | src/session.rs:1512-1541 | A close whose flush fails after the keyboard's destroy landed, and a retry that sends it again |
| SessionFaults.GamepadNeverDestroyed | src/hid/gamepad.rs:673-685 | A close whose gamepad destroy is not written, and a successful retry that does not send it |
| Lifecycle.DeviceLifecycle | src/session.rs:361-408 | Over every dispatcher-driven run on a reliable transport, the bytes on the wire read back as messages in which each opened device has one create, then all its inputs, then one destroy and nothing after; a device not opened never appears |
| Lifecycle.TraceShape | src/client.rs:4542-4579 | Every run, closed by command or by a vanished channel, sends creates, inputs, destroys |
| HidSessions.HidSession.Key | src/session.rs:452-459 | In-place key edge is the specified input |
| HidSessions.HidSession.Mouse | src/session.rs:928-937 | In-place mouse motion, without a look at the closed flag |
| HidSessions.HidSession.InjectTouchEvent | src/session.rs:1548-1558 | Touches carry the screen size in force |
| HidSessions.HidSession.InjectScrollEvent | src/session.rs:1599-1617 | Scrolls carry the screen size in force |
| HidSessions.HidSession.SetFrameRaw | src/session.rs:633-657 | One deduplicated frame |
| HidSessions.HidSession.SetFrameRawUnchecked | src/session.rs:666-690 | One frame from raw fields |
| HidSessions.HidSession.SetFrameRawPacked | src/session.rs:705-709 | One packed frame |
| HidSessions.HidSession.InjectRawReport | src/session.rs:717-731 | A raw report, with its length checks |
| HidSessions.HidSession.SetFrameRawBatch | src/session.rs:737-806 | The loop over the 32-slot staging array is the specified fold |
| HidSessions.HidSession.SetPackedBatch | src/session.rs:842-856 | The packed batch |
| HidSessions.HidSession.SetFrameRawBatchUnchecked | src/session.rs:813-834 | The unchecked batch |
| HidSessions.HidSession.TypeText | src/session.rs:425-449 | The character loop is the specified script, skipping or refusing unsupported characters |
| HidSessions.HidSession.TryCloseAll | src/session.rs:1512-1541 | Closing in place, with the slot freed before its destroy is sent |
| HidSessions.HidSession.OpenAll | src/session.rs:382-407 | Opening in place |
| HidSessions.HidSession.Drop | src/session.rs:1652-1667 | Dropping closes if need be and flushes |
| HidSessions.OpenSession | src/session.rs:361-408 | A failed open drops the session, which destroys what was created |
| DispatcherLaws.FixedBatchIsOneAtATime | src/client.rs:4605-4613 | On every transport a fixed key, mouse, Android-key, touch or scroll batch of any length leaves session and pending error exactly where its frames one by one would, failing frames included |
| DispatcherLaws.BatchOfOneIsSingle | src/client.rs:1241-1260 | On every transport a batch of one frame, of any kind, is the single-frame command: the senders' shortcut |
| DispatcherLaws.AnswersAreTheLedgers | src/client.rs:4973-4995 | For every run on every transport the barriers' answers are those of the error ledger, one per processed barrier, in order |
| DispatcherLaws.FirstErrorSincePreviousBarrier | src/client.rs:4562-4568 | A barrier answers with the previous barrier's kept flush error (if there was one), else the first fault after it or after the session started, else its own flush |
| DispatcherLaws.ErrorsAreReportedOnce | src/client.rs:4973-4990 | Later barriers report errors that happened later: none is reported twice |
| DispatcherLaws.BarrierOkIff | src/client.rs:4973-4990 | A barrier answers Ok if and only if no error was pending, every command since the previous barrier succeeded and its flush did; nothing is then buffered |
| DispatcherLaws.NothingRunsBehindClose | src/client.rs:4551-4552 | Commands and barriers queued behind a Close change nothing and are never answered |
| DispatcherLaws.FlushCommandRecordsIff | src/client.rs:4992-4995 | On every transport a flush command puts the buffer on the wire and records an error if and only if the buffer was not empty and its write or transport flush was refused |
| DispatcherLaws.BarrierFlushesAndAnswers | src/client.rs:4973-4990 | On every transport a barrier flushes in the same way and answers with the pending error, else its own refusal, else the bytes flushed; an error stays pending exactly if it had an older one to report |
| DispatcherLaws.JoinRecoversIff | src/session.rs:1054-1067 | The transport comes back exactly from a closed session whose last flush succeeds, with everything written or buffered |
| DispatcherLaws.ExecuteDoes | src/client.rs:4570-4600 | On a reliable transport every command does its ideal and records its errors |
| DispatcherLaws.DispatchAllDoes | src/client.rs:4538-4560 | On a reliable transport: commands in channel order up to the first Close do their ideals |
| DispatcherLaws.WholeRun | src/client.rs:4542-4560 | On a reliable transport: a whole session hands back a transport holding exactly creates, command messages and destroys |
| DispatcherLoops.DispatcherLoop.PerformBatch | src/client.rs:4605-4613 | The batch loop performs every frame and keeps the first error |
| DispatcherLoops.DispatcherLoop.DispatchOne | src/client.rs:4570-4600 | Dispatch in place, with the barrier's take, flush and answer |
| DispatcherLoops.DispatcherLoop.Run | src/client.rs:4538-4560 | The blocking receive and the draining inner loop process the queue in order, whatever has arrived when |
| DispatcherLoops.DispatcherLoop.Thread | src/client.rs:4538-4560 | The thread's result, on Close and on a vanished channel |
| BatcherLaws.RunConserves | src/client.rs:2760-2833 | For every run under arbitrary Full and Disconnected answers, sent frames followed by the buffer are what the calls accepted: a prefix of each, all of it on Ok |
| BatcherLaws.ApplyConserves | src/client.rs:3915-4189 | The same for one call: a failed slice push has accepted a prefix of its input |
| BatcherLaws.ApplyIsMicros | src/client.rs:2792-2833 | Every call is a series of taking frames and offering the whole buffer |
| BatcherLaws.FailedFlushRestores | src/client.rs:2992-3017 | A failed flush restores the buffer exactly; it fails exactly when a non-empty buffer is refused |
| BatcherLaws.PushTakesUnlessRefused | src/client.rs:3915-3939 | A push leaves its frame out exactly if it finds the batcher full and the channel refuses the flush; every other push has taken it, errors included; a lazy batcher's push fails exactly when it does not take its frame |
| BatcherLaws.RunBounded | src/client.rs:2760-2833 | Every command from a fixed array carries between one frame and a full array |
| BatcherTraffic.CallsSendFullBatches | src/client.rs:2760-2833 | Under every channel pushes send only full batches and leave an eager batcher with room; single frames go as single commands, except touches; a call fails exactly when a send is turned down, with that error, and makes none after it |
| BatcherTraffic.NewBatchers | src/client.rs:58-79 | Touch batchers hold 24, the other fixed ones 32, gamepad ones the size asked for, at least one, in an array up to 32 and in a vector beyond |
| BatcherObjects.FrameBatcher.Push | src/client.rs:2760-2767 | Lazy push into the array |
| BatcherObjects.FrameBatcher.PushManySlice | src/client.rs:2790-2806 | Lazy slice push: fill, flush when full |
| BatcherObjects.FrameBatcher.Flush | src/client.rs:2992-3003 | Flush of the array, blanked on success |
| BatcherObjects.GamepadBatcher.Push | src/client.rs:3915-3939 | Eager push, array and vector forms; the fixed form's second full check never fires |
| BatcherObjects.GamepadBatcher.PushManySlice | src/client.rs:3978-4017 | Eager slice push, both forms |
| BatcherObjects.GamepadBatcher.FlushFixed | src/client.rs:4074-4104 | The swapped-out array comes back if the channel refuses it |
| BatcherObjects.GamepadBatcher.FlushVector | src/client.rs:4106-4129 | The moved vector comes back if the channel refuses it |
| Rings.RingSafety | src/gamepad_ring.rs:153-204 | In every interleaving, with stale tails and wrapping counters: popped frames followed by the contents are the accepted frames, at most eight are held, a slot about to be read holds the next frame, and it is never the slot about to be written |
| Rings.RunKeepsInv | src/gamepad_ring.rs:153-204 | The ring's invariant holds over every run of single atomic steps |
| Rings.RejectedIffFull | src/gamepad_ring.rs:153-160 | A push is rejected exactly when the frames not known to be popped fill the ring |
| Rings.NeitherThreadIsStuck | src/gamepad_ring.rs:182-204 | Each thread always has the one next step its checks call for; a read never meets an unwritten slot |
| GamepadRings.PushAppends | src/gamepad_ring.rs:153-180 | Without interference a push succeeds exactly when there is room and appends its frame |
| GamepadRings.PopTakesTheOldest | src/gamepad_ring.rs:182-204 | Without interference a pop takes the oldest frame, or nothing exactly when the ring is empty |
| GamepadRings.GamepadFrameRing.Push | src/gamepad_ring.rs:153-180 | Push in place is the producer's steps back to back |
| GamepadRings.GamepadFrameRing.Pop | src/gamepad_ring.rs:182-204 | Pop in place is the consumer's steps back to back |
| RingConsumer.RingShutdown | src/client.rs:843-880 | On every exit of the consumer the delivered frames are a prefix of the accepted ones; a close-flag exit delivered exactly those published before the head load of its last empty pop, at most eight later ones being lost; the transport comes back only from a closed session |
| RingConsumer.RingDelivers | src/client.rs:843-880 | On a reliable transport there is no error exit and the wire holds exactly the creates, the reports of those frames and the destroys |
| RingConsumer.ClosedBeforeTheExit | src/client.rs:871-874 | A run that is done because of a close contains a close before the look at the flag |
| RingConsumer.NobodyClosesNobodyLeaves | src/client.rs:871-874 | As long as nobody closes, a consumer on a reliable transport never leaves its loop |
| RingConsumer.LookLeavesIff | src/client.rs:871-874 | A look at the flag on an empty ring leaves exactly if a client has closed by then, and otherwise polls on |
| RingConsumer.FlagsTell | src/client.rs:864-867 | The close flag is set exactly if a client closed, the error flag exactly if the loop left on an error |
| RingConsumer.LoopIsNeverStuck | src/client.rs:849-876 | In every reachable state the consumer has a next move, unless it is done |
| RingConsumer.AcceptedBeforeCloseYetLost | src/client.rs:850-873 | A run in which a frame accepted before the close is never delivered |
| Device.StreamRoundTrip | src/device.rs:854-862 | For every list of well-formed events followed by any bytes, reading that many events returns the list and leaves those bytes |
| Device.OnlyEncodingsAreAccepted | src/device.rs:921-988 | Whatever the parser accepts is the encoding of a well-formed event with the returned meaning |
| Device.ReadersAgreeOnNativeTags | src/device.rs:838-846 | Both readers agree on tags 0 to 2; above, the native one gives up and the other takes the envelope |
| Device.OversizedIsRefused | src/device.rs:960-968 | An oversized length is refused whatever follows it |
| Device.TruncatedIsEof | src/device.rs:921-988 | A well-formed event that breaks off anywhere is an end of stream, never another event |
| Device.BadPayloadsAreNamed | src/device.rs:921-988 | A complete payload that is not UTF-8, or that its parser rejects, is reported as such whatever follows it |
| Utf8.DecodeEncode | src/device.rs:921-935 | Every text comes back from its UTF-8 encoding |
| Utf8.EncodeDecode | src/device.rs:921-935 | Bytes accepted by the grammar of section 4 of RFC 3629 are the encoding of the text they decode to |
| DeviceReaders.Reader.ReadDeviceEvent | src/device.rs:854-862 | Reading in place returns the specified event and leaves the specified rest |
| DeviceReaders.Reader.ReadDeviceMessage | src/device.rs:838-846 | Likewise for native messages |
| DeviceReaders.Reader.ReadEnvelope | src/device.rs:960-984 | Likewise for envelopes |
| DeviceReaders.LatestFrameSummaryReceiver.StoreSummary | src/device.rs:577-583 | Storing bumps the saturating version and overwrites the snapshot |
| DeviceReaders.LatestFrameSummaryReceiver.Observe | src/device.rs:283-289 | The boundary is the saturating number of frames stored, and the snapshot the last of them under that number; none exactly if none was stored |
| DeviceReaders.LatestFrameSummaryReceiver.WaitMatching | src/device.rs:417-433 | The wait loop returns at the first look that a snapshot, an error or a deadline ends |
| DeviceReaders.LatestFrameSummaryReceiver.RunPump | src/device.rs:902-919 | The pump loop is the specified pump |
| LatestFrames.CacheIsThePumpsHistory | src/device.rs:577-589 | For every interleaving of the pump with any number of readers the version is the saturating number of frames and the latest snapshot the last of them |
| LatestFrames.ReadersSeeConsistentStates | src/device.rs:283-289 | At every moment observations are consistent, and a wait returns the last frame only if it matches, the terminal error only if there is one and no matching frame, a timeout only if neither |
| LatestFrames.WaitNextMovesOn | src/device.rs:360-362 | wait_next returns only newer versions, and feeding them back gives strictly later frames |
| LatestFrames.NewFrameIsNewerIff | src/device.rs:577-583 | A frame stored after a boundary is newer than it if and only if the counter had not saturated |
| LatestFrames.PumpCachesTheLastFrame | src/device.rs:902-919 | Pumping a stream up to the first bytes that are no event handles the events before the moment all readers are gone, and caches the last summary among them, their number, and, if the readers stayed, that error |
| Multitouch.RunKeepsDiscipline | src/multitouch.rs:41-119 | Over every run on every transport active[id] holds exactly when that pointer's contact is open, and the successful events never break the discipline |
| Multitouch.DisciplineSpellsStrokes | src/multitouch.rs:41-79 | A pointer's events spell (DOWN MOVE* (UP or CANCEL))* and at most one open contact |
| Multitouch.ReleaseClosesEveryContact | src/multitouch.rs:111-119 | An Ok release_all closes every open contact |
| Multitouch.CallInjectsWhatItMeans | src/multitouch.rs:41-119 | On every transport a call is refused without effect (bad id, not active, already down), or injects exactly the touches it stands for, in order, up to the first injection that fails, and logs those that succeeded |
| Multitouch.DeviceSeesDisciplinedContacts | src/session.rs:1548-1558 | On a reliable transport the stream grows by exactly the logged touches, so the device sees the discipline |
| Multitouch.TouchJoinsTheStreamUnlessLost | src/coalesce.rs:578-603 | On every transport an injected touch joins the stream, Ok or not, except exactly when a direct writer's write is about to fail |
| Multitouch.StreamIsTheTape | src/coalesce.rs:605-618 | Over every run on every transport the stream is where it began followed by the tape: each touch that was written or buffered, and each buffer that a torn flush sent again |
| Multitouch.DeviceDisciplineBreaksIff | src/multitouch.rs:41-79 | Over every run on every transport the touches on that stream break a pointer's discipline if and only if a down, up or cancel on it was reported as failed and another event of the pointer follows, or a torn flush repeated a buffer whose events of the pointer begin with a down and do not end with an up or cancel, or the other way round |
| Multitouch.TornFlushRepeatsADown | src/multitouch.rs:121-124 | A buffered down sent twice by a torn flush and its retry, though no touch was reported as failed |
| Multitouch.RetriedDownIsSentTwice | src/multitouch.rs:41-49 | A down that fails in the buffer and is tried again reaches the wire twice |
| MultitouchHandles.MultitouchHandle.Down | src/multitouch.rs:41-49 | Down in place |
| MultitouchHandles.MultitouchHandle.MoveTo | src/multitouch.rs:51-57 | Move in place |
| MultitouchHandles.MultitouchHandle.Lift | src/multitouch.rs:59-77 | Up and cancel in place |
| MultitouchHandles.MultitouchHandle.Pinch | src/multitouch.rs:81-109 | The two-pointer loop in place |
| MultitouchHandles.MultitouchHandle.ReleaseAll | src/multitouch.rs:111-119 | The release loop over the active array in place |
| MultitouchHandles.MultitouchHandle.FlushNow | src/multitouch.rs:121-124 | Flush in place |
| BridgeLaws.ChunkIsOneAtATime | ai-device-kernel/src/bridge.rs:294-326 | On a reliable transport a chunk has the outcomes, devices and exactly the wire bytes of its consumed prefix applied one action at a time and then flushed |
| BridgeLaws.ChunkOutcomes | ai-device-kernel/src/bridge.rs:294-326 | On every transport all outcomes are landed except possibly the last, first_failure names exactly that one, nothing is consumed after it, ids count up wrapping, and no failure means nothing is left buffered |
| BridgeLaws.LandedIsOnTheWireIff | ai-device-kernel/src/bridge.rs:74-76 | On every transport the bytes of an action reported as landed, and of those before it, are on the wire after the chunk if and only if the final flush finds nothing to write, or its write is taken, or they had already left the buffer; if that write is refused the chunk does report a failure, under another outcome |
| BridgeLaws.LandedTapNotOnTheWire | ai-device-kernel/src/bridge.rs:315-324 | A tap reported as landed whose bytes are not on the wire because the final flush is refused |
| BridgeLaws.LoopIsEach | ai-device-kernel/src/bridge.rs:304-311 | The staging loop is one-at-a-time execution of what it consumed |
| BridgeLaws.ActionIsCallsThenFlush | ai-device-kernel/src/bridge.rs:359-365 | On every transport an action is its session calls up to the first failure; outside a chunk a flush follows, it lands if and only if that flush is not refused too, and nothing is then buffered; inside a chunk there is no flush |
| BridgeLaws.ActionReachesTheWire | ai-device-kernel/src/bridge.rs:213-276 | On a reliable transport an action outside a chunk lands exactly if its ideal meets no error, and the wire is then the old stream followed by its messages |
| BridgeLaws.TapAndKeyArePairs | ai-device-kernel/src/bridge.rs:367-380 | A tap is a full-pressure down and an up of pointer 0 at its point, a key a press and a release |
| BridgeLaws.OtherActionsAreOneMessage | ai-device-kernel/src/bridge.rs:230-260 | Launch, clipboard, gamepad and raw actions are one message, with its refusals |
| BridgeLaws.SwipeIsOneDenseStroke | ai-device-kernel/src/bridge.rs:382-420 | A swipe is a down at its start, a move per step, the last exactly at its end, and an up there, with as many steps as whole 16 ms or whole 40 pixels, within 2 to 256 |
| BridgeLaws.UnservedActionsDoNothing | ai-device-kernel/src/bridge.rs:259-273 | Actions that the bridge does not serve touch nothing |
| BridgeLaws.CodesOfFailures | ai-device-kernel/src/bridge.rs:127-154 | Kernel errors are exactly the transport failures, permission errors exactly the inputs that will never do |
| BridgeLaws.NestedChunkDoesNotFlush | ai-device-kernel/src/bridge.rs:294-326 | A chunk inside a chunk makes no flush of its own and restores the depth |
| BridgeLaws.TextLandsIff | ai-device-kernel/src/bridge.rs:422-453 | On a reliable transport a text lands exactly if all its characters have strokes and, unless it is empty, the keyboard is open; otherwise it fails as PermissionDenied or, at a stroke without a keyboard, NotImplemented, with the earlier strokes already on the stream |
| ActionInjectors.ActionInjector.Apply | ai-device-kernel/src/bridge.rs:213-276 | One action in place |
| ActionInjectors.ActionInjector.SwipeAlong | ai-device-kernel/src/bridge.rs:382-420 | The swipe with its step density |
| ActionInjectors.ActionInjector.ApplyMany | ai-device-kernel/src/bridge.rs:294-326 | The chunk loop, depth counter and terminal flush in place |
| ActionInjectors.ActionInjector.MaybeFlush | ai-device-kernel/src/bridge.rs:359-365 | Flush unless inside a chunk |
| ChunkPlanner.SplittingConserves | ai-device-kernel/src/chunk_planner.rs:103-133 | For every plan the flattened chunks are the steps plus at most one appended observation; all chunks but the last have four steps, the last one to four and is valid; indices and totals are exact if and only if they fit in 32 bits |
| ChunkPlanner.SplittingIsIdempotent | ai-device-kernel/src/chunk_planner.rs:103-133 | Splitting the flattened result gives the same chunks |
| ChunkPlanner.EveryChunkIsValidIff | ai-device-kernel/src/chunk_planner.rs:96-98 | Every chunk ends in an observation if and only if the plan itself observes at every fourth step before its last chunk |
| ChunkPlanner.FourTapsAreSplitUnobserved | ai-device-kernel/src/chunk_planner.rs:96-98 | A plan whose first chunk does not end in an observation |
| ChunkPlanner.SizesConserve | ai-device-kernel/src/chunk_planner.rs:57-69 | The sizes add up, all four but the last |
| ChunkPlanner.ValidChunkIff | ai-device-kernel/src/chunk_planner.rs:72-90 | A chunk is valid exactly with one to four steps of which the last observes; the error says which rule failed |
| ChunkPlanner.PlanChunkSize | ai-device-kernel/src/chunk_planner.rs:57-69 | The loop computes the sizes |
| ChunkPlanner.SplitIntoChunks | ai-device-kernel/src/chunk_planner.rs:103-133 | The loop computes the chunks |

## Left out

- Weak memory: the ring's threads step one atomic operation at a time, with an explicitly stale tail read by the producer; the C11 soundness of its Relaxed and Release orderings is not claimed.
- Ring-mode spill to the channel (src/client.rs:2035-2047, 2099-2125): batchers and senders are modelled without a gamepad ring.
- The ring consumer's loop is a step machine only (`RingConsumer`), because its interleaving with the producer is the point; there is no sequential method for it.
- The wait and notify of a flush slot: a barrier's answer becomes visible to its waiter in one step; poisoned mutexes, and a waiter left behind a Close, are liveness questions outside the model.
- Panics, unwinding guards (`KbdChordGuard`, `TouchGuard`), `ptr::read` and `mem::forget`: handing over a value is a move. `into_inner` on an unclosed session is the outcome `Panicked`.
- Partial gamepad updates (`set_button`, `set_stick` and their raw forms), `mouse_scroll`, `mouse_frame_batch`, chords, long presses and multi-finger gestures of the session: more members of the same kind as those modelled.
- Messages.ParseSerialized: injected and clipboard text is bytes cut at the limit; where the limit falls inside a character the original panics, which the model does not show.
- Multitouch.DeviceDisciplineBreaksIff: counts the handle's own touches; touches that were buffered before the handle began are opaque bytes to it.
- The dispatcher commands that send one fixed control message each are covered by the general `Control` input.
- Floating point: pressure, scroll amounts and interpolated coordinates are given as their wire values; time, sleeps and real deadlines are oracles.
- Device names and HID descriptors are parameters of `OpenRequest` within the serializer's limits.
- The statistics counters do not wrap at 64 bits.
- FrameSummary::parse and AiStats::parse, the scrcpy prefix, the device-message channels (src/device.rs:864-900) and src/async_device.rs.
- After a failed read the reader's position is unspecified.
- Action deadlines, error texts and elapsed times of the bridge; `ActionInjectors.ActionInjector.SwipeAlong` subtracts coordinates with wrap-around, as a release build does.
- BatcherLaws.RunBounded: gives no bound for the vector form, which grows past its batch size when flushes keep failing.
- DeviceReaders.LatestFrameSummaryReceiver.WaitMatching: the pump's updates while the reader sleeps are a parameter, so it states what each look returns and not that an update will come.
