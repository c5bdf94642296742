# A model of the gamepad bridge

The bridge reads a gamepad, a network client or a Unix socket, and presents a USB HID controller to a
console. This project models its logic in Dafny and proves what its documentation promises about it:
the newest state wins, nothing is held after a device is lost, a capture is faithful, a datagram under
the right key is the one that was sent, and a mapping captured in the browser binds as captured.

How the parts fit together:

- **Hashing and tags.** `HashSpec` is SHA-256 as sections 5.1.1, 5.2.1, 5.3.3, 6.2.2 of FIPS 180-4 define
  it, and HMAC as section 2 of RFC 2104 does, truncated as in its section 5. `Wire` is the streaming hash
  with its 64-byte buffer, word arithmetic and byte-at-a-time padding, proved to compute exactly that.
  Words are natural numbers below 2^32 (`Bits`), and every wrap-around is written out. `HashStandard` proves that the
  tables are the roots of primes and the functions the functions of bits that the standard defines.
- **The control protocol.** `UdpSession` is the session state machine, `Udp` the datagram loop and the
  sending client. A network that loses, repeats and reorders is an arbitrary list of arrivals, each
  paired with the sender's unbounded counter.
- **The capture ring.** `Recorder` is a step system of a producer, a writer thread and a stopping thread
  that interleave at every load, slot copy, `fwrite` and store.
- **The bridge.** `NsHid` is the report encoding and the one-slot sink, `Bridge` the event loop with every
  write outcome, clock reading and source reading chosen by the environment, `Replay` a recorded run fed
  back through the socket source.
- **The pad.** `Scaling`, `Evdev` and `Transform` take raw events to a shaped state.
- **Text.** `Capabilities` is the capabilities document and its substring-searching reader, `JsonDocument` the same
  document read whole, as RFC 8259 has it; `EvdevNames`,
  `Config` and the `Mapping...` modules are the ini printer, the loader and the binding of what was loaded.
- **The wizard.** `Discover` and `CaptureCommand` capture one control; `Wizard` and `WizardRuns` are the
  page under every interleaving of replies, failures, skips and cancels; `WizardMappings` joins them to
  the configuration that the bridge then binds, `PadToState` goes from a bound name to the state and the report, and
  `WizardDirections` closes the circle: what was pushed during the capture moves what was asked for.

Each class has a function `View()` that gives its state as a value. A method's contract ties the new view
to a function of the old one, and the lemmas state what that function guarantees over whole runs.

## What turned out not to hold

- **An accepted record can be lost on stop.** The writer loads `head_` before `running_`
  (src/recorder.cpp:42-45), so a record published between the two is never written, although its
  `record()` returned before `stop()` was called: `Recorder.StopCanLoseAnAcceptedRecord`. It is lost exactly
  when it was published after the writer's last load of `head_`: `Recorder.WriterExitIsExact`.
- **Half the sequence space ahead is stale.** A counter exactly 2^31 ahead is taken for an old one:
  `UdpSession.HalfAheadLooksStale`; anything closer is ordered correctly: `UdpSession.WrappedComparisonIsTrueOrder`.
- **`coalesced` does not count every dropped report.** It is documented as the reports overwritten while one
  waited (include/gpb/bridge.hpp:56), but a waiting report overtaken by a submit that succeeds is not counted.
  Over every run it falls short by exactly those, so it agrees if and only if there were none:
  `Bridge.CoalescedFollowsSubmits`, `Bridge.CoalescedAgreesExactly`.
- **A flushed link still reports failures.** The failure count is documented as reset by any success
  (include/gpb/bridge.hpp:62), but a successful `flush` does not touch it. Over every run it is the number of
  submits since the last one whose own write succeeded: `Bridge.HealthFollowsSubmits`. It agrees with the
  documentation if and only if no flush has written a report since that submit: `Bridge.FailuresAgreeExactly`.
  The time of the last good write (include/gpb/bridge.hpp:61) leaves flushes out in the same way.
- **The error path lets a state through unshaped.** When epoll reports an error, the state that `read` leaves
  behind is neither counted, recorded, shaped nor submitted, and the next heartbeat sends it. Over every run the held
  state is what the last write of it left, shaped unless that write was on the error path:
  `Bridge.HeldStateIsLastWritten`. A report is the one meant if and only if the last write was not on the error
  path or shaping would not have changed its report: `Bridge.ReportIsShapedExactly`. The socket and UDP
  sources are canonical, so shaping leaves their states alone and their reports are always the ones meant; for
  them what fails is that the state is not counted, recorded or submitted: `Bridge.UpdatesCountNormalReads`.
- **A packet cut short leaks.** A drain that ends inside a packet returns a state that mixes both:
  `Evdev.UnfinishedPacketLeaks`, whose input breaks the assumption that drains end with whole packets. Under that
  assumption a whole stream of reads is coherent: `Evdev.StreamIsCoherent`. Without it, and with keys bound to
  single buttons (as the configuration only ever binds them: `MappingRoundTrip.KeysBindSingleButtons`), a read
  is coherent if and only if, in the unfinished tail, the last event for each axis target gives the value
  already held and the last event for each button outside the d-pad agrees with its bit:
  `Evdev.CoherentExactlyWhenTailSaysNothingNew`.
- **Keys bound to the d-pad never show.** The hat values overwrite them: `Evdev.DpadComesFromHatsOnly`.
- **A trigger deadzone above the sink's threshold decides.** Between 40 and the deadzone the shaped path and
  the canonical path disagree, unless the button itself is held: `Transform.SinkNeedsNoShadow`.
- **An inverted trigger reads backwards.** A capture reports an inversion for a trigger that falls when pushed, and
  the configuration keeps it, but trigger scaling ignores it. The trigger reads higher when pushed if and only
  if its raw value rises: `WizardDirections.TriggerIgnoresInversion`.
- **A comment mark cuts a line anywhere.** A comment in src/config.cpp:29-30 says it must start a token; the code cuts
  at the first mark wherever it stands: `Config.AssignmentReadsBack`, `Config.LinesAreJudged`.
- **A target without steps takes a stale reply.** Beginning with no step to ask for does not advance the
  generation: `WizardRuns.EmptyTargetTakesStaleReply`. Beginning supersedes a capture if and only if there is a
  step to ask for or the capture already belonged to an earlier generation: `WizardRuns.BeginSupersedesExactly`.
  Once superseded a capture stays so: `WizardRuns.SupersededChangesNothing`.

## Model

| member | source | states |
|---|---|---|
| `Bits.MaskIsMod` | src/recorder.cpp:12-15 | indexing with the mask of a power-of-two ring is the index modulo its size |
| `Bits.ShiftsRotate` | src/wire.cpp:18 | two shifts joined by OR rotate a 32-bit word, with no bit lost |
| `HashSpec.PaddingIsMinimal` | src/wire.cpp:65-73 | the zero filler is the shortest that leaves room for the length field, for every message length |
| `HashSpec.LengthFieldIsExact` | src/wire.cpp:66-73 | for every message below 2^61 bytes the last eight padding bytes spell its bit length |
| `HashSpec.PadIsWholeBlocks` | src/wire.cpp:65-73 | padding ends on a block boundary |
| `HashStandard.PrimesAreTheFirst` | src/wire.cpp:21-31 | the primes the constants are taken from are the first sixty-four: the list starts at two and skips none |
| `HashStandard.ConstantsAreCubeRoots` | src/wire.cpp:21-31 | every round constant is the first 32 bits of the fractional part of the cube root of its prime |
| `HashStandard.InitialHashIsSquareRoots` | src/wire.cpp:12-13 | every word of the initial hash is the first 32 bits of the fractional part of the square root of its prime |
| `HashStandard.ChoiceChooses` | src/wire.cpp:44 | each bit of the first word chooses between the bits of the other two |
| `HashStandard.MajorityIsMajority` | src/wire.cpp:47 | each bit is that of at least two of the three words |
| `HashStandard.SigmaBits` | src/wire.cpp:43-46 | each bit of the two functions of a round is the parity of the three bits section 4.1.2 names |
| `HashStandard.SmallSigmaBits` | src/wire.cpp:37-38 | the same for the two functions of the schedule, with shifted-out bits lost |
| `HashStandard.WordIsBigEndian` | src/wire.cpp:33-35 | block words are read most significant byte first |
| `Wire.RoundOnce` | src/wire.cpp:42-50 | one round on wrapped 32-bit words is one round of section 6.2.2 |
| `Wire.Schedule` | src/wire.cpp:32-40 | the filled array is the message schedule of the block |
| `Wire.MixRounds` | src/wire.cpp:41-50 | sixty-four rounds over the array are the compression of the standard |
| `Wire.Sha256State.constructor` | src/wire.cpp:11-16 | a fresh state has absorbed the empty message |
| `Wire.Sha256State.CompressBlock` | src/wire.cpp:20-53 | the chaining value moves on by exactly the block given |
| `Wire.Sha256State.Update` | src/wire.cpp:55-63 | however bytes are chunked and buffered, the state has absorbed the old message followed by them |
| `Wire.Sha256State.Finish` | src/wire.cpp:65-80 | the digest written is SHA-256 of everything absorbed; the padding loop terminates |
| `Wire.DigestChunks` | src/wire.cpp:55-87 | for every list of chunks the result is SHA-256 of their concatenation |
| `Wire.StoreWords` | src/wire.cpp:74-79 | the eight words come out most significant byte first |
| `Wire.LengthBytes` | src/wire.cpp:71-72 | the shifting loop writes the big-endian bytes of the bit count |
| `Wire.PrepareKey` | src/wire.cpp:92-97 | a long key is hashed, a short one zero-filled, to one block |
| `Wire.ComputeTag` | src/wire.cpp:91-115 | for every key and message the tag is the first sixteen bytes of HMAC-SHA256 |
| `Wire.TagEquals` | src/wire.cpp:117-121 | the OR-accumulating loop answers true exactly when all bytes are equal |
| `Wire.AuthenticIffSigned` | src/sources/udp_source.cpp:100-113 | a datagram passes the length and tag checks if and only if it is what a holder of the key would send for its body |
| `Gamepad.PackRoundTrip` | include/gpb/gamepad_state.hpp:39-70 | every state is recovered exactly from its 48 bytes, and those bytes carry the right magic and version |
| `Gamepad.WellFormedIffHeader` | src/sources/udp_source.cpp:115-120 | a frame is taken for a state exactly when it starts with the six bytes of magic number and version |
| `UdpSession.OneCounterPerDatagram` | src/sources/udp_source.cpp:61-158 | each datagram moves exactly one of the six classifying counters, by one |
| `UdpSession.CountersAccountForAll` | src/sources/udp_source.cpp:61-158 | over every run the six counters add up to the datagrams read |
| `UdpSession.SessionsCounted` | src/sources/udp_source.cpp:133-138 | in every run `sessions` is one less than the number of sessions begun |
| `UdpSession.RemembersLastAccepted` | src/sources/udp_source.cpp:139-157 | the receiver's memory is exactly the datagram it accepted last |
| `UdpSession.RejectedExactlyWithinSession` | src/sources/udp_source.cpp:122-150 | with a positive, nondecreasing clock a valid datagram is turned away exactly when the last accepted one came from the same sender, within the gap, and was not behind it |
| `UdpSession.NewerIffAheadByLessThanHalf` | src/sources/udp_source.cpp:145-147 | the wrapped difference is positive exactly when the sequence number is ahead by less than half the space |
| `UdpSession.WrappedComparisonIsTrueOrder` | src/sources/udp_source.cpp:145-147 | for true counters less than 2^31 apart the wrapped comparison is the true order, across wraps |
| `UdpSession.HalfAheadLooksStale` | src/sources/udp_source.cpp:147-150 | a counter exactly 2^31 ahead is taken for stale |
| `UdpSession.SessionFollowsTrueCounters` | src/sources/udp_source.cpp:142-157 | under loss, repetition and reordering a datagram of a session under way is accepted if and only if its true counter exceeds all accepted before it |
| `UdpSession.HeldStateIsNewest` | src/sources/udp_source.cpp:142-157 | the state held after any such run is the one sent under the greatest counter delivered |
| `UdpSession.NewSessionFollowsTrueCounters` | src/sources/udp_source.cpp:130-157 | the same from a datagram that begins a session, at startup or after a client restart: it is accepted, and the later ones if and only if their true counter exceeds all before |
| `UdpSession.NewSessionHoldsNewest` | src/sources/udp_source.cpp:130-157 | and the state held after it is the one sent under the greatest counter delivered |
| `Udp.UdpSource.Check` | src/sources/udp_source.cpp:77-120 | the stateless checks, in order, with the tag computed and compared |
| `Udp.UdpSource.Order` | src/sources/udp_source.cpp:130-157 | the session logic on a valid datagram: acceptance, memory and counters |
| `Udp.UdpSource.Apply` | src/sources/udp_source.cpp:77-157 | one datagram's whole effect; a reply is sent exactly for a query when there is one to send |
| `Udp.UdpSource.Drain` | src/sources/udp_source.cpp:65-158 | after the loop the state is the run over all arrivals and the result is the newest accepted one |
| `Udp.UdpSource.Read` | src/sources/udp_source.cpp:61-166 | what is handed out is the newest accepted state with local time stamps |
| `Udp.ControlClient.Send` | clients/cpp/src/client.cpp:115-127 | the n-th datagram is the signed state numbered n modulo 2^32 |
| `Udp.ClientDatagramIsValid` | clients/cpp/src/client.cpp:115-127 | what a client sends under the receiver's key always passes, and reads back as the state sent |
| `Udp.OnlySignedBodiesAreRead` | src/sources/udp_source.cpp:100-113 | under a key every body read is one the key signs, and an unsigned one is counted as a bad frame |
| `Udp.VerdictsMean` | src/sources/udp_source.cpp:77-120 | what each verdict means in bytes: foreign peer, the query text, the signed form of a body with the right header, a full-length datagram that is not the signed form of its body, and everything else |
| `Udp.VerdictsAreCounted` | src/sources/udp_source.cpp:77-120 | queries, wrong tags and wrong lengths each move their own counter by one and nothing else |
| `Udp.ForeignIsIgnored` | src/sources/udp_source.cpp:77-84 | with a peer configured a datagram from anyone else is counted and otherwise ignored |
| `Udp.ForeignArrivalsChangeNothing` | src/sources/udp_source.cpp:65-158 | in every run, leaving the foreign datagrams out changes neither the state held nor anything but their own count, which rises by exactly their number |
| `Udp.NewestSentStateIsRead` | src/sources/udp_source.cpp:61-166 | end to end: of the signed states arriving in a session under way, in any order, the one numbered highest is handed out unchanged |
| `Udp.NewSessionIsRead` | src/sources/udp_source.cpp:61-166 | the same for a read in which the session begins, at startup or after a client restart |
| `RingArithmetic.WrapKeepsSlot` | src/recorder.cpp:36 | a 64-bit index wrapping around keeps its slot |
| `RingArithmetic.DistinctSlots` | src/recorder.cpp:30-36 | counters less than a ring apart use different slots |
| `RingArithmetic.RoundUp` | src/recorder.cpp:11-15 | the ring size is the least power of two not below the request |
| `Recorder.CaptureIsFaithful` | src/recorder.cpp:27-59 | under every interleaving the outstanding count fits the ring, fwrite is handed a prefix of the accepted records in order and once each, offered equals accepted plus dropped when no call is in progress, and `written` counts the successful writes |
| `Recorder.ProducerNeverOverwrites` | src/recorder.cpp:27-38 | no producer step changes the slot of a record not yet released |
| `Recorder.DropOnlyWhenFull` | src/recorder.cpp:28-35 | a record is dropped exactly when the ring was full at the load of `tail_` |
| `Recorder.AcceptedAreTheUndropped` | src/recorder.cpp:27-38 | in every interleaving the accepted records are, in order and once each, those of the calls not dropped; only dropped calls and the one in progress are missing |
| `Recorder.FileIsCapture` | src/recorder.cpp:27-68 | in every interleaving and for every outcome of fwrite the file holds some of the records offered, in order and once each, as many as `written` says; all of them if none was dropped, every fwrite succeeded and the returned writer saw the last one |
| `Recorder.WriterExitIsExact` | src/recorder.cpp:40-68 | a returned writer has consumed exactly what was accepted up to its last load of `head_`; all of it if and only if nothing was published later |
| `Recorder.StopCanLoseAnAcceptedRecord` | src/recorder.cpp:42-47 | a concrete interleaving in which a record accepted before the stop is never written |
| `Recorder.CaptureRecorder.constructor` | src/recorder.cpp:10-25 | the ring holds at least the request and less than twice it, and the invariant holds |
| `Recorder.CaptureRecorder.BeginRecord` | src/recorder.cpp:27 | a call begins, and is counted as offered |
| `Recorder.CaptureRecorder.StepProducer` | src/recorder.cpp:28-37 | each load, slot copy and store of `record` is one step of the model |
| `Recorder.CaptureRecorder.StepWriter` | src/recorder.cpp:40-59 | each load, write and store of the writer is one step, and says which record the write was handed |
| `Recorder.CaptureRecorder.BeginStop` | src/recorder.cpp:61-62 | the exchange decides the one caller that joins |
| `Recorder.CaptureRecorder.FinishStop` | src/recorder.cpp:63-68 | the join completes only after the writer has returned |
| `NsHid.HatIsTheSumOfDirections` | src/sinks/ns_hid_sink.cpp:27-40 | the hat is the vector sum of the directions: opposites cancel and nothing else is lost |
| `NsHid.HatMeansDpad` | src/sinks/ns_hid_sink.cpp:144-145 | the hat of a report is the sum of the d-pad directions the state holds |
| `NsHid.SticksMeanCoordinates` | src/sinks/ns_hid_sink.cpp:147-151 | each stick byte of a report holds the coordinate of its name, in 256 equal steps |
| `NsHid.FaceBitsMeanButtons` | src/sinks/ns_hid_sink.cpp:109-124 | in both modes each face bit is set exactly for the button that mode maps to it |
| `NsHid.ShoulderBitsMeanButtons` | src/sinks/ns_hid_sink.cpp:126-135 | a trigger bit is set exactly when the trigger is pressed in either representation |
| `NsHid.RightByteMeansButtons` | src/sinks/ns_hid_sink.cpp:137-142 | each bit of the right byte is set exactly for its button, and the spare bits never |
| `NsHid.EncodeIgnoresStamps` | src/sinks/ns_hid_sink.cpp:106-154 | states equal in what a sink transmits have the same report |
| `NsHid.NeutralEncodesToReleased` | src/sinks/ns_hid_sink.cpp:204-207 | the neutral state encodes to the bytes shutdown writes, in both face modes |
| `NsHid.NsHidSink.DoWrite` | src/sinks/ns_hid_sink.cpp:156-168 | a full write puts the report on the wire; any other outcome only sets the errno |
| `NsHid.NsHidSink.DoSubmit` | src/sinks/ns_hid_sink.cpp:170-182 | a failed submit leaves this report, and only this one, pending |
| `NsHid.NsHidSink.DoFlush` | src/sinks/ns_hid_sink.cpp:184-191 | a flush writes the pending report or keeps it, and answers whether nothing is pending |
| `NsHid.NsHidSink.Shutdown` | src/sinks/ns_hid_sink.cpp:193-211 | an open device is written the released report and closed |
| `Bridge.NewestStateWins` | src/bridge.cpp:84-105 | over every run and every write outcome reports reach the wire in strictly increasing submit order, at most once each; what waits is the newest submit, with none waiting it was written last, and EPOLLOUT is armed exactly while one waits |
| `Bridge.SubmitsAreAccountedFor` | src/bridge.cpp:84-105 | submits are updates plus heartbeats plus disconnects, and also written plus coalesced plus overtaken plus pending |
| `Bridge.ConnectionIsTracked` | src/bridge.cpp:170-203 | over every run the loop takes the device for present exactly when it was at the start or at the last reconnect due, with no loss seen since |
| `Bridge.LossesMatchReconnects` | src/bridge.cpp:177-203 | over every run losses and reconnects balance, so a loss after a reconnect is noticed like the first |
| `Bridge.LostDeviceReleasesEverything` | src/bridge.cpp:177-203 | when a device present at the start or reconnected is lost, after any run, the loop notices, and until the source next writes a state the held state is neutral and everything pending or written is the released report |
| `Bridge.HeldStateIsLastWritten` | src/bridge.cpp:177-258 | over every run the held state is what its last write left: neutral from the start or a lost device, the shaped state from a normal read, the raw one from a read on the error path |
| `Bridge.ReportIsShapedExactly` | src/bridge.cpp:236-258 | every report submitted in a run encodes the held state, and it is the report of the shaped state if and only if the last write was not on the error path or shaping would not have changed that report; from a canonical source it always is |
| `Bridge.UpdatesCountNormalReads` | src/bridge.cpp:236-250 | over every run updates and recorded states are exactly the normal reads, so all states read are counted if and only if none was read on the error path |
| `Bridge.ErrorPathStateIsSentUnshaped` | src/bridge.cpp:237-241 | a concrete instance: a state read on the error path is sent raw by the next heartbeat, without an update |
| `Bridge.HealthFollowsSubmits` | src/bridge.cpp:91-104 | over every run the failure count is the number of submits since the last one whose own write succeeded, and the time of the last good write is that submit's |
| `Bridge.FailuresAgreeExactly` | include/gpb/bridge.hpp:62 | the failure count is never below the failures since any report was last written, and equal if and only if no flush has written one since the last good submit |
| `Bridge.CoalescedFollowsSubmits` | src/bridge.cpp:85-88 | over every run `coalesced` plus the waiting reports overtaken by a successful submit is the number of submits made while one waited |
| `Bridge.CoalescedAgreesExactly` | include/gpb/bridge.hpp:56 | so it counts every report overwritten if and only if none was overtaken |
| `Bridge.RetryWaits` | src/bridge.cpp:192-202 | after a failed reconnect the loop top changes nothing until the retry interval is over |
| `Bridge.EventLoop.constructor` | src/bridge.cpp:157-172 | a new loop satisfies the invariant, whether or not the source starts connected |
| `Bridge.EventLoop.DoSubmitCurrent` | src/bridge.cpp:84-105 | one submit: sink, counters, arming and time of the last good write |
| `Bridge.EventLoop.CheckConnection` | src/bridge.cpp:177-203 | the connection check: release on loss, then a reconnect attempt when one is due |
| `Bridge.EventLoop.OnSource` | src/bridge.cpp:236-250 | a source event, on both the error path and the normal one |
| `Bridge.EventLoop.OnTimer` | src/bridge.cpp:252-258 | a heartbeat repeats the held state |
| `Bridge.EventLoop.OnSinkWritable` | src/bridge.cpp:260-267 | a writable sink is flushed, and disarmed once empty |
| `Replay.SocketSource.Read` | src/sources/socket_source.cpp:72-116 | the newest well-formed frame of a backlog is handed out, numbered and stamped; malformed ones are skipped |
| `Replay.NewestFramedIsRead` | src/sources/socket_source.cpp:80-108 | whatever else arrives, the frame read is the newest with the length and header of a state |
| `Replay.ReadsLastOfGroup` | src/sources/socket_source.cpp:80-116 | a backlog of recorded states reads back as its last one, in all a sink transmits |
| `Replay.GroupReadsItsLast` | src/sources/socket_source.cpp:72-116 | a read of a nonempty group of packed states hands out a state, whatever the stamps, equal to the last of the group in all a sink transmits |
| `Replay.UpdatesFollowSource` | src/bridge.cpp:242-250 | in every run the update reports encode the shaped states in order, and the recorder is offered exactly those states |
| `Replay.ReplayedReportsMatch` | src/bridge.cpp:242-250 | with the socket source reading arbitrary groups of frames, each replayed report is byte for byte the recorded run's report for any offered state its group ends with |
| `Replay.ReplayedCaptureMatches` | src/bridge.cpp:242-250 | replaying a whole capture, whatever the recorder dropped from it and however frames are grouped, reproduces for each group the report recorded for its last frame |
| `Replay.RecordedFileReplays` | src/recorder.cpp:27-59 | from one bridge through the ring and the file to another: under every interleaving, drop and failed write, each report replayed from the file is one first reported, for the last record of its group, and they come in the order they were first reported in |
| `Replay.ReplayIsExact` | src/bridge.cpp:242-250 | with nothing dropped and one frame per read of the socket source the whole sequence of update reports is reproduced |
| `Scaling.AxisIsMonotone` | src/sources/evdev_source.cpp:265-273 | a larger raw value never gives a smaller axis value, and never a larger one when inverted |
| `Scaling.InversionNegates` | src/sources/evdev_source.cpp:265-273 | inverting negates the scaled value exactly |
| `Scaling.AxisEndpoints` | src/sources/evdev_source.cpp:265-273 | the ends of the range scale to full deflection both ways |
| `Scaling.AxisToReportByte` | src/sinks/ns_hid_sink.cpp:23-25 | raw value to report byte is monotone, minimum to 0 and maximum to 255, saturating outside |
| `Scaling.AxisIsExactUpToTruncation` | src/sources/evdev_source.cpp:265-273 | inside the range the result is the exact rational cut towards zero |
| `Scaling.TriggerIsMonotone` | src/sources/evdev_source.cpp:310-321 | trigger scaling is monotone |
| `Scaling.TriggerEndpoints` | src/sources/evdev_source.cpp:310-321 | the ends of the range scale to 0 and 255 |
| `Scaling.TriggerIsExactUpToTruncation` | src/sources/evdev_source.cpp:310-321 | inside the range the result is the exact share of 255 cut downwards |
| `Scaling.TriggerProductFits` | src/sources/evdev_source.cpp:311-313 | the 32-bit product cannot overflow exactly while the raw value is this close to the minimum |
| `Evdev.EvdevSource.Take` | src/sources/evdev_source.cpp:299-353 | one event's effect on the accumulator |
| `Evdev.EvdevSource.Drain` | src/sources/evdev_source.cpp:279-355 | however the events are cut into reads, the accumulator is their fold, up to a lost device |
| `Evdev.EvdevSource.Read` | src/sources/evdev_source.cpp:275-369 | the outcome depends only on the events; each returned update is numbered one higher |
| `Evdev.EvdevSource.Reconnect` | src/sources/evdev_source.cpp:223-231 | a reconnect clears the accumulator and keeps the numbering |
| `Evdev.DrainEqualsReference` | src/sources/evdev_source.cpp:275-369 | read agrees with an event-at-a-time reference on whether a state is published, and on which whenever the drain ends with a closed packet |
| `Evdev.StreamIsCoherent` | src/sources/evdev_source.cpp:275-369 | over any list of drains since construction or the last reconnect: a read returns a state exactly when its drain closes a packet, that state is the fold of every event so far with the hats folded in, numbered by the drains that closed one, and when the drain ends with a whole packet it is the last state an event-at-a-time reader of the whole stream publishes |
| `Evdev.UnfinishedPacketLeaks` | src/sources/evdev_source.cpp:337-344 | a concrete drain whose unfinished packet shows in the result |
| `Evdev.CoherentExactlyWhenTailSaysNothingNew` | src/sources/evdev_source.cpp:337-344 | with keys bound to single buttons the result is the last closed packet's state if and only if, among the events after it, the last one for each axis target scales to the value held (for a hat, has its sign) and the last one for each button outside the d-pad agrees with its bit |
| `MappingRoundTrip.KeysBindSingleButtons` | src/sources/evdev_source.cpp:150-157 | whatever the configuration says, a key is only ever bound to a single button |
| `Evdev.SticksFollowTheirAxes` | src/sources/evdev_source.cpp:301-328 | each stick coordinate is the scaled value of the last event of an axis bound to it; no other event moves it |
| `Evdev.TriggersAndHatsFollowTheirAxes` | src/sources/evdev_source.cpp:301-328 | the same for triggers, and for hat values unscaled |
| `Evdev.ButtonsFollowTheirKeys` | src/sources/evdev_source.cpp:329-336 | a button is held exactly when the last event of a key bound to it was not a release |
| `Evdev.UnboundEventsAreInvisible` | src/sources/evdev_source.cpp:301-336 | removing every unbound event changes nothing |
| `Evdev.QuietPadStaysQuiet` | src/sources/evdev_source.cpp:337-344 | reports without a bound event never cause an update |
| `Evdev.DirtyExactly` | src/sources/evdev_source.cpp:329-345 | a change is pending exactly when a bound control moved since the last report |
| `Evdev.StampIsOfLastClosed` | src/sources/evdev_source.cpp:337-344 | a drain is complete exactly when a report closed a changed packet, and the state carries the time of the last one that did |
| `Evdev.StampReadsBack` | src/sources/evdev_source.cpp:341-342 | the stamp is that time in nanoseconds |
| `Evdev.DpadComesFromHatsOnly` | src/sources/evdev_source.cpp:359-363 | the d-pad bits of a returned state are exactly the signs of the hat values |
| `Evdev.OtherButtonsPassThrough` | src/sources/evdev_source.cpp:359-363 | folding the hat in leaves every other button alone |
| `Transform.ShapeStick` | src/transform.cpp:12-35 | the statements compute the shaped value of both coordinates, in every branch |
| `Transform.RadiusLaw` | src/transform.cpp:19-34 | the output radius never shrinks as the input grows, stays within full deflection, is zero exactly in the closed deadzone disc and full exactly from deadzone plus ramp on |
| `Transform.FullExactlyFromSaturation` | src/transform.cpp:22-30 | with a saturation above the deadzone, full deflection is reached exactly from saturation on |
| `Transform.ShapingIsRadial` | src/transform.cpp:28-34 | the shaped point is the input times one nonnegative factor, has that radius, and the final clamp never binds |
| `Transform.ZeroExactlyInDeadzone` | src/transform.cpp:23-26 | the shaped point is the origin if and only if the input lies in the closed disc |
| `Transform.ShapedIsPointTruncated` | src/transform.cpp:32-34 | the integers written back are the exact point moved towards the axes by less than one |
| `Transform.InvertingNegates` | src/transform.cpp:13-14 | inverting an axis negates what its coordinate is shaped to, for every value; the one without a negation counts as the opposite extreme |
| `Transform.CurveSetsRadius` | src/transform.cpp:29-30 | a share of the way from the deadzone to the end of the ramp gives the curve's value at that share |
| `Transform.ShadowTriggers` | src/transform.cpp:42-53 | small trigger values are cut and larger ones pressed on the digital bits |
| `Transform.Apply` | src/transform.cpp:39-54 | a whole application: both sticks shaped, triggers cut and shadowed, stamps kept |
| `Transform.ShadowOnlyAdds` | src/transform.cpp:45-53 | shadowing presses a trigger bit exactly when it was pressed or the value is past the threshold, and moves no other button |
| `Transform.SinkNeedsNoShadow` | src/sinks/ns_hid_sink.cpp:126-135 | the sink's trigger buttons agree with and without shadowing, except exactly when the deadzone cuts a value the sink would take for a press |
| `Capabilities.QuoteText` | src/capabilities.cpp:6-13 | the loop escapes exactly quotes and backslashes |
| `Capabilities.ArrayText` | src/capabilities.cpp:15-22 | the loop joins the quoted elements with commas in brackets |
| `Capabilities.FindText` | clients/cpp/src/client.cpp:32-34 | the search finds the first occurrence, or none |
| `Capabilities.ScanText` | clients/cpp/src/client.cpp:35-42 | the scan undoes escapes up to the closing quote |
| `Capabilities.JsonStringText` | clients/cpp/src/client.cpp:31-43 | search and scan together compute the reading function |
| `Capabilities.ScanUndoesEscape` | clients/cpp/src/client.cpp:36-42 | scanning an escaped value gives back the value, whatever it holds and whatever follows |
| `Capabilities.NeverMatchesValue` | clients/cpp/src/client.cpp:32-34 | no key is ever found inside a value, however the value is written |
| `Capabilities.CapabilitiesRoundTrip` | src/capabilities.cpp:26-30 | for arbitrary field strings reading a key from the printed document returns exactly that field, and nothing for any other plain key |
| `JsonDocument.DocumentReads` | src/capabilities.cpp:26-30 | for arbitrary fields the whole document, read as JSON, is one object with exactly its six members, each array under its own name, item by item |
| `EvdevNames.SearchNames` | src/sources/evdev_source.cpp:85-90 | the first entry with the name decides |
| `EvdevNames.SearchCodes` | src/sources/evdev_source.cpp:110-120 | the first entry with the code decides |
| `EvdevNames.ValueOfDecimal` | src/sources/evdev_source.cpp:97-103 | a printed number reads back as itself |
| `EvdevNames.AbsNameReadsBack` | src/sources/evdev_source.cpp:85-114 | the name printed for an axis code reads back as that code if and only if the code is at most KEY_MAX, decimal fallback included |
| `EvdevNames.KeyNameReadsBack` | src/sources/evdev_source.cpp:85-120 | the same for key codes, aliases included |
| `EvdevNames.PrefixTellsAxes` | tools/discover.cpp:526-528 | the prefix of a printed name tells an axis from a key |
| `Config.ConfigFile.Take` | src/config.cpp:28-52 | one line's effect: comment, section, entry or error |
| `Config.ConfigFile.Load` | src/config.cpp:19-54 | the loop is the fold over the lines; the first bad line stops it and is reported by number, and entries before it stay |
| `Config.AssignmentReadsBack` | src/config.cpp:30-51 | a line written as key, equals sign, value reads back as both trimmed, the value up to any comment mark |
| `Config.LinesOfJoined` | src/config.cpp:27 | lines joined by newlines read back as themselves, except that an empty last line only ends the one before it |
| `Config.StopsAtError` | src/config.cpp:35-48 | nothing after the first bad line is read |
| `Config.FirstBadLineIsReported` | src/config.cpp:25-48 | loading fails exactly when a line is bad, and the report carries the number of the first such line and what is wrong with it |
| `Config.LinesAreJudged` | src/config.cpp:28-47 | what is left of a line without comment and white space decides whether it is blank, a malformed header or no assignment |
| `Config.TrimIsExact` | src/config.cpp:10-15 | trimming removes all white space at both ends and nothing else |
| `MappingIni.EvdevBindings.BindFromConfig` | src/sources/evdev_source.cpp:130-158 | the walk over the entries computes the bindings, dropping unknown codes and targets |
| `MappingIni.CollectLines` | web/gpb_web.py:479-491 | the loop writes a line for exactly the mappings with a code and a valid target |
| `MappingIni.Dedupe` | web/gpb_web.py:495-503 | the loop keeps exactly the lines whose key no earlier line has |
| `MappingIni.RenderConfig` | web/gpb_web.py:505-548 | the text is the lines of the source, in its order, joined by newlines with none after the last |
| `MappingValues.DedupedLoads` | web/gpb_web.py:493-503 | loading deduplicated lines gives every key the value of its first line |
| `MappingValues.LoadedBindings` | web/gpb_web.py:505-548 | the loaded configuration holds, for every name, exactly the first written mapping |
| `MappingLines.HeadBindsNothing` | web/gpb_web.py:505-522 | nothing above the bindings binds, whatever the texts are |
| `MappingLines.TailBindsNothing` | web/gpb_web.py:524-547 | nothing below them does either |
| `MappingRoundTrip.AxisBound` | src/sources/evdev_source.cpp:133-149 | in whatever order entries are walked a code is bound by the entry under its printed name |
| `MappingRoundTrip.ButtonBound` | src/sources/evdev_source.cpp:150-157 | the same for buttons |
| `MappingRoundTrip.RenderedTextLoads` | web/gpb_web.py:548 | loading the printed text, whose last line is empty, gives the entries and the outcome of loading its lines |
| `MappingRoundTrip.WizardMappingsBind` | web/gpb_web.py:468-548 | rendering, loading and binding gives every code exactly its first captured target and inversion, and binds nothing else |
| `PadToState.AxisNameMovesItsValue` | src/sources/evdev_source.cpp:65-75 | an event on an axis bound to a target name moves the value of that name, to its scaled value, and nothing else |
| `PadToState.KeyNameShowsInReport` | src/sources/evdev_source.cpp:52-81 | an event of a key bound to a button name shows in the report as that button, held unless it is a release, and as no other |
| `PadToState.HatNameShowsInReport` | src/sources/evdev_source.cpp:323-324 | an event on a hat axis points the report's hat the same way along it, and leaves the other direction alone |
| `Discover.LookForBlocker` | tools/discover.cpp:216-234 | a look is at rest exactly when no key is held and every checked axis is within an eighth of its span of neutral |
| `Discover.WaitForRest` | tools/discover.cpp:209-240 | the wait ends at the first look at rest, or when the time is up with what blocked it |
| `Discover.TakeAxis` | tools/discover.cpp:299-317 | with running extremes one axis event has the effect it has by itself |
| `Discover.Take` | tools/discover.cpp:280-306 | one event: presses, hat pushes, blocked controls and axes |
| `Discover.TakeAll` | tools/discover.cpp:279-318 | one readable slice, up to the first answer |
| `Discover.CaptureControl` | tools/discover.cpp:262-321 | the capture with running extremes and timed slices returns the first event that answers by itself, with the last blocked control before it, and the axes heard from |
| `Discover.JudgeIsFirstAnswer` | tools/discover.cpp:279-318 | the result is the answer of the first event that is an accepted press, a hat push or a far axis, and none exactly when there is no such event |
| `Discover.CaptureAnswersExactly` | tools/discover.cpp:279-318 | a capture answers exactly when the pad sends a press, a hat push or a motion past a third of the span, of a control accepted and not yet bound, and with the first of them |
| `Discover.AnswerIsNotExcluded` | tools/discover.cpp:280-306 | a bound control is never captured again, except through the hat's own events |
| `Discover.ReleaseCannotAnswer` | tools/discover.cpp:186-240 | after a successful wait a checked axis that only approaches neutral cannot answer |
| `CaptureCommand.ParseExclude` | tools/discover.cpp:514-534 | the loop visits exactly the items of the list and sorts their codes into axes and keys |
| `CaptureCommand.ExclusionReadsBack` | web/gpb_web.py:447-448 | printing the names of bound controls and parsing them excludes exactly those controls |
| `CaptureCommand.OverrideOne` | tools/discover.cpp:544-554 | one resting value replaces the sampled one and is trusted |
| `CaptureCommand.ParseNeutral` | tools/discover.cpp:540-558 | the loop applies exactly the items of the list in order |
| `CaptureCommand.AtoiReadsBack` | tools/discover.cpp:551 | a printed resting value reads back as itself, negative ones included |
| `CaptureCommand.BaselineReadsBack` | web/gpb_web.py:449-451 | a baseline printed and parsed back gives each axis its printed resting value and adds no axis |
| `Wizard.BuildSteps` | web/static/wizard.js:68-78 | the step list is the controls' steps, in order |
| `Wizard.WizardPage.NextStep` | web/static/wizard.js:140-168 | up to the await: what is asked, under which generation, excluding what is bound |
| `Wizard.WizardPage.Receive` | web/static/wizard.js:175-205 | the continuation on a reply |
| `Wizard.WizardPage.Fail` | web/static/wizard.js:169-174 | the continuation on a failed or aborted request |
| `Wizard.WizardPage.Abort` | web/static/wizard.js:207-210 | the generation moves on and the request is dropped |
| `Wizard.WizardPage.SkipStep` | web/static/wizard.js:212-217 | a skip supersedes the capture, passes the step and asks the next |
| `Wizard.WizardPage.Finish` | web/static/wizard.js:230-232 | finishing stops the run and supersedes the capture |
| `Wizard.WizardPage.Begin` | web/static/wizard.js:263-269 | a run starts at the first step with nothing mapped |
| `WizardRuns.OneCurrentCapture` | web/static/wizard.js:140-175 | in every run at most one capture in flight is current, and it asks for the current step |
| `WizardRuns.MovingOnSupersedes` | web/static/wizard.js:175-269 | opening, skipping, cancelling, beginning a target with steps, the current reply (the last step's too) and a failure of the current request supersede every other capture in flight |
| `WizardRuns.SupersededChangesNothing` | web/static/wizard.js:169-175 | a superseded capture, behind in generation or because the page stopped, changes nothing, whatever it brings and however much later it arrives |
| `WizardRuns.EachStepPassedOnce` | web/static/wizard.js:175-217 | each step index is passed exactly once, in order, with at most one mapping, which says what that step asked for |
| `WizardRuns.OneStepAtATime` | web/static/wizard.js:175-217 | no action passes more than one step, and only a step's own reply or a skip passes it |
| `WizardRuns.NeverStuck` | web/static/wizard.js:140-217 | in every run, while the page runs, a capture whose reply will be taken is in flight, or no step is left and the page is saving |
| `WizardRuns.CurrentReplyMoves` | web/static/wizard.js:177-205 | a current reply passes its step unless the control was bound already or an axis answered a step with no axis to take it, and maps the control at most once |
| `WizardRuns.BeginSupersedesExactly` | web/static/wizard.js:263-269 | beginning a target supersedes a capture in flight if and only if the target has a step or the capture was already behind |
| `WizardRuns.EmptyTargetTakesStaleReply` | web/static/wizard.js:141-146 | a concrete run in which a target without steps takes the reply of the run before |
| `WizardMappings.CaptureIsPlausible` | tools/discover.cpp:499-583 | a capture run with the printed exclusions never replies with a bound code, unless it is the hat |
| `WizardMappings.CapturedIsHonest` | web/static/wizard.js:151-168 | a reply to a request in flight, captured with the exclusions the page printed, is never a bound code unless it is the hat |
| `WizardMappings.MappedCodesAreDistinct` | web/static/wizard.js:151-153 | in every run whose replies come from captures all mapped codes are distinct except the hat's axes, whose repeats print the same line |
| `WizardMappings.ResolvedIsBindable` | web/static/mapping.js:17-42 | a resolved target is one the bridge can bind for the captured kind |
| `WizardMappings.EveryCaptureBinds` | web/static/wizard.js:140-217 | from the pad to the bridge: after any run whose replies are captures of arbitrary events, the saved configuration, loaded and bound, binds every captured control to the target and direction it was captured for |
| `WizardDirections.PushReadsPositiveExactly` | src/sources/evdev_source.cpp:265-273 | with the inversion a capture reports, a push reads positive if and only if it passes the middle of the range on its own side |
| `WizardDirections.TriggerIgnoresInversion` | src/sources/evdev_source.cpp:310-321 | a trigger reads higher for the push that answered if and only if the push was upwards, whether or not its binding is inverted |
| `WizardDirections.EveryCaptureActs` | web/static/mapping.js:17-42 | from the pad and back: after any run whose replies are captures, every mapping was made by an event that answered one of the steps, and that event, at a bridge bound by the saved configuration, holds the button, gives the hat value, or pushes the stick or trigger asked for the right way |

## Left out

- Sockets, epoll registration, ioctl, opening and closing devices and files: only their results are inputs.
- The status file, the publisher, rumble feedback, logging, real-time setup, command lines and the HTTP server.
- Wire.Sha256State: the eight chaining words are a value sequence in one field instead of an array updated in place; the 64-byte buffer is an array.
- Floating-point rounding: axis scaling is over exact rationals, stick shaping over reals with the length and the expo curve as parameters; a curve that is not strictly increasing on the unit interval (an expo of zero or below) is not covered.
- Scaling.ScaleAxis: 32-bit overflow of the range subtractions is not modelled; Scaling.TriggerProductFits gives the exact bound for the trigger product.
- Discover.CaptureControl: differences of raw values are unbounded integers, and the stream is a finite list of slices, idle once it ends; on an endlessly noisy stream the original does not time out.
- Recorder: memory weaker than sequentially consistent steps over the release and acquire operations on `head_` and `tail_`, and starting a stopped recorder again.
- Counters of datagrams, submits and records are unbounded; sequence numbers, ring indices and clocks wrap as in the source.
- The textual form of a sender's address is an input beside the address itself.
- Evdev.EvdevSource.Read: the ranges re-read from the device on reopening, and SYN_DROPPED, which only logs.
- The client's receive buffer cuts a capabilities reply after 2047 bytes; Capabilities.CapabilitiesRoundTrip is about the whole document.
- Capabilities.CapabilitiesRoundTrip: keys that contain a quote or a backslash or start with punctuation of the document; the client reads four fixed keys.
- EvdevNames.CodeFromName: strtoul saturates where the model's numbers grow, both far above KEY_MAX.
- MappingIni.RenderConfig: the settings around the bindings are the lines of the source; that they bind nothing is proved, their values reading back is not stated.
- Bridge.ConnectionIsTracked: a source that reports itself connected again without a reconnect; the evdev source, the only one that reports a loss, does not.
- MappingIni.Dedupe: Python strips more kinds of white space than the four the loader knows; keys the printer writes end in none of them.
- CaptureCommand.Atoi: values outside 32 bits, where the original is undefined.
- The typed getters of the configuration, the capture panel's readings, latency measurement and the terminal wizard's own loop, which drives the same capture.
- WizardRuns: what the page shows, and the server calls that stop and restart the bridge; every interleaving of the remaining actions is allowed, including ones the page's buttons prevent.
