# A verified model of the gunk relay

gunk relays live video: it takes RTP datagrams from a broadcaster, rebuilds H.264 packets, keeps
time, hands the packets to viewers and keeps the channel's state in order while broadcasters come
and go. This project models the stateful pieces of it in Dafny and proves what they guarantee over
whole runs.

| file | what it holds |
|---|---|
| `Wrappers.dfy`, `Bytes.dfy`, `Arithmetic.dfy` | optional values; bytes, bit fields, big-endian integers; floor division and gcd |
| `H264Util.dfy` | the AVCC and Annex B writers, and readers for both formats |
| `Depacketizer.dfy` | `H264Parser.ParseFrame` as a state machine on values and as an object |
| `Packetizer.dfy` | a sender using any mix of single, STAP-A and FU-A packets, undone by the parser |
| `ParameterSets.dfy` | what becomes of the stored parameter sets, fragmented ones included |
| `PacketLoss.dfy` | what comes out when any packets of such a sender are lost |
| `ParserRecursion.dfy` | the parser's recursion into its own fragment buffer, over any memory: when it returns |
| `BufferMemory.dfy` | that memory: the arrays behind the fragment buffer, and slices of them |
| `StoredSlices.dfy` | the stored parameter sets as slices, and what they read as |
| `MediaClock.dfy` | `ToTS`, `FromTS`, timestamp unwrapping and `framer.delta` in machine arithmetic |
| `ReaderQueue.dfy`, `RtpReader.dfy` | `rtpReader` as a FIFO over any deframers, and over the real ones |
| `EndToEnd.dfy` | sender to viewer: what is packetised is what is decoded after probing, on the sender's clock |
| `Broadcast.dfy` | the websocket listeners and their bounded queues, step by step |
| `PublishChannel.dfy` | publishers taking over a channel, and the life of its HLS output |
| `Routing.dfy` | receiver keys, the shared receiver table, and the datagram lookup |
| `FtlConn.dfy` | an FTL control connection, command by command |
| `Grabber.dfy` | thumbnail assembly and the B-frame window |

The pattern is the same throughout. An object whose methods update fields is a class whose methods
are proved against a function on its state; protocols that interleave are step functions; and the
promises are lemmas over every run, stated against a reference that does not mention the code: a
packetiser, a reader of the format, the history of events, the numbers on the sender's clock.

Inputs that come from outside (random bytes, CheckUser's verdict, clock readings, whether a write
succeeds, whether a slice is a B slice) are parameters of the step they belong to. A panic of the
128-by-64-bit division, and a recursion that does not end, are results, not preconditions.

Two things the code does differently from what its types suggest are part of the model. A
parameter set that arrives in fragments is stored as a slice of the array behind the fragment
buffer. The next fragmented unit overwrites it, until a write that does not fit moves the buffer to
a new array. In the state machine on values, whether a write moves the buffer is an input (`moves`)
and `over` lists what was written over the first byte; `BufferMemory` has the arrays and the slices
themselves, with only the room to spare in a new array as an input, and `StoredSlices` proves that
the state machine says the truth about them. And ParseFrame does not look at the type an FU header
announces, so reassembly can send it back into its own buffer, where it reads the array it writes
to; `BufferMemory.ReturnsIff` decides for every packet and every memory whether that ends. The
deciding notion is a trap: a buffer that, read from its beginning, comes to a fragment with its end
bit set and its start bit clear before any start fragment or error.

## Model

| member | source | states |
|---|---|---|
| Bytes.MaskLow5 | ingest/ftl/deframing.go:62 | the NAL unit type mask over all byte values is the remainder the model uses |
| Bytes.MaskBit7 | ingest/ftl/deframing.go:120 | the start-bit test over all byte values |
| Bytes.MaskBit6 | ingest/ftl/deframing.go:126 | the end-bit test over all byte values |
| Bytes.MaskSplice | ingest/ftl/deframing.go:122 | the rebuilt first byte of a fragmented unit, over all pairs of byte values |
| Bytes.NetworkOrder | ingest/ftl/handler.go:193-198 | four bytes in network order, most significant first, read and written |
| H264Util.NaluToAvcc | h264util/h264.go:30-35 | a fresh array holding the 32-bit big-endian length and the unit |
| H264Util.AvccRoundTrip | h264util/h264.go:30-35 | a stream of AVCC units splits back into the units exactly when each is shorter than 2^32 bytes |
| H264Util.AvccDecodesOnlyEncodings | h264util/h264.go:30-35 | whatever splits is the encoding of what it splits into |
| H264Util.WriteAnnexB | h264util/h264.go:12-17 | appends the start-code-framed units behind what the buffer holds |
| H264Util.AnnexBRoundTrip | h264util/h264.go:12-17 | an Annex B stream splits back into the units exactly when no unit contains a start code or ends in a zero byte |
| H264Util.SplitUnitsAreClean | h264util/h264.go:12-17 | a byte-stream reader only ever returns such units, whatever the bytes |
| H264Util.RepackedUnitsAre | h264util/h264.go:21-27 | a packet of AVCC units is repacked as those units and any other as one unit, with SPS and then PPS in front of a keyframe |
| H264Util.WriteAnnexBPacket | h264util/h264.go:21-27 | appends the packet's units, a keyframe's behind its SPS and PPS |
| Depacketizer.H264Parser.ParseFrame | ingest/ftl/deframing.go:58-181 | one call changes sps, pps and fbuf, and returns packets or an error, as the state machine does, for every behaviour of the allocator |
| Depacketizer.H264Parser.ParseStap | ingest/ftl/deframing.go:157-171 | the aggregation loop threads the state through the units and ignores an incomplete last one |
| Packetizer.Depacketise | ingest/ftl/deframing.go:58-181 | from any state, any valid mix of packets carrying a list of units yields, in order, exactly the AVCC packets of those that are no parameter sets, keyframes exactly on type 5, and leaves the last parameter sets stored |
| Packetizer.StreamArrives | ingest/ftl/deframing.go:58-181 | packets in any order, with any missing or repeated, do to the parser exactly what their deliveries say: an independent account of the buffer, the units joined and the sets kept |
| Packetizer.StrayFragments | ingest/ftl/deframing.go:124-132 | fragments without their start, on an empty buffer, produce nothing and change nothing |
| Packetizer.AggregateIsSequence | ingest/ftl/deframing.go:157-171 | a STAP-A packet of any units does what the units do one by one, errors included |
| ParameterSets.PackingShowsIff | ingest/ftl/deframing.go:58-181 | however units are packed, the packets returned are those of the units sent one by one; a stored set reads as it would then if and only if the last one of its type came on its own or no fragmented unit has begun since |
| ParameterSets.FragmentsEqualWhole | ingest/ftl/deframing.go:119-132 | from any buffer contents, a complete fragment run with any split and any units in between returns what the whole units return and empties the buffer; it leaves the stored sets as the whole units do, except exactly a set that is not replaced and lies in the buffer's array |
| ParameterSets.LastSetIsKept | ingest/ftl/deframing.go:64-69 | the parameter set kept is the last one delivered; one that came unfragmented is kept byte for byte whatever comes after it and however the buffer moves |
| ParameterSets.FragmentedSetReadsBack | ingest/ftl/deframing.go:119-128 | for every plan and every choice of moves, a set that came in fragments still reads as its type, and has nothing written over it, if and only if no fragmented unit has begun since |
| PacketLoss.LossArrives | ingest/ftl/deframing.go:58-181 | whichever packets of a plan are lost, the parser returns the packets of the surviving units in order and holds what the last broken run left; a stored set reads as that of the surviving units if and only if nothing was written over it, which from an empty buffer is the same condition as without loss |
| PacketLoss.CompleteItemsSurvive | ingest/ftl/deframing.go:119-132 | every unit all of whose packets arrived comes out whole and in its place, whatever is lost around it |
| PacketLoss.DamagedIff | ingest/ftl/deframing.go:119-128 | a run whose first and last fragments arrived yields the unit that was sent if and only if no byte of it was lost in between |
| PacketLoss.NoRuntsIff | ingest/ftl/deframing.go:58-61 | the parser refuses something if and only if a broken run was put together to a single byte |
| PacketLoss.SaneLossInventsNothing | ingest/ftl/deframing.go:119-132 | when every run that begins also ends without losing a byte, exactly the units that were sent and arrived come out, in order |
| ParserRecursion.EvalIsParse | ingest/ftl/deframing.go:58-181 | following the source's recursion on slices gives the state machine's result and buffer, at a depth linear in the packet, unless a reassembled unit is itself an aggregate or a fragment |
| ParserRecursion.ConformingReturns | ingest/ftl/deframing.go:119-171 | on input whose FU headers never announce type 24 or 28 every call returns, and the next one will |
| ParserRecursion.ReturnsIffNotCaught | ingest/ftl/deframing.go:119-171 | over any lawful memory, a call returns if and only if it does not come to reparse a trap within a number of levels linear in the packet and the buffer |
| BufferMemory.SourceIsLawful | ingest/ftl/deframing.go:119-128 | the buffer's arrays and slices, overlapping writes and moves included, are such a memory |
| BufferMemory.ReturnsIff | ingest/ftl/deframing.go:119-171 | for every packet, every stored set, every contents of the buffer and of the array behind it, and every allocator, ParseFrame returns if and only if it does not come to reparse a trap; its result is then the same at every depth it returns at |
| BufferMemory.CompletedTrapSpins | ingest/ftl/deframing.go:126-128 | a fragment that completes a trap never returns |
| BufferMemory.SelfContainedFragmentSpins | ingest/ftl/deframing.go:126-128 | one four-byte packet for which the call never returns |
| BufferMemory.FragmentedAggregateSpins | ingest/ftl/deframing.go:126-164 | one six-byte packet, completing an aggregate of a single fragment, for which it never returns |
| BufferMemory.OverwritingAggregateSpins | ingest/ftl/deframing.go:119-169 | one 26-byte packet that never returns because the aggregate it completes is overwritten while it is read |
| StoredSlices.EvalKeepsSets | ingest/ftl/deframing.go:64-69 | no call that returns, however deep it recursed, makes the parser lose a stored parameter set |
| StoredSlices.PlayedMirrors | ingest/ftl/deframing.go:58-181 | over any stream without errors the stored slices read as the state machine says, with the moves the buffer made |
| StoredSlices.FragmentedSliceReadsBack | ingest/ftl/deframing.go:64-128 | after any plan, the slice of a set that came in fragments reads as it was sent, byte for byte, if and only if no fragmented unit has begun since |
| StoredSlices.LoneSliceReadsBack | ingest/ftl/deframing.go:64-69 | the slice of a set that came on its own always does |
| MediaClock.ToTSDefined | internal/math.go:9-13 | for rates up to 10^9 the division is defined for every 64-bit duration, and the result is the floor of the exact quotient |
| MediaClock.FromTSDefinedIff | internal/math.go:16-20 | defined exactly when the rate is positive and the quotient fits 64 bits; the value then |
| MediaClock.ToTSMonotone | internal/math.go:9-13 | later durations have later ticks |
| MediaClock.FromTSMonotone | internal/math.go:16-20 | later ticks have later durations, below the sign bit |
| MediaClock.DurationRoundTrip | internal/math.go:9-20 | duration to ticks and back loses between nothing and ceil(10^9/rate) nanoseconds |
| MediaClock.TickRoundTrip | internal/math.go:9-20 | ticks to duration and back is exact when the rate divides ts * 10^9, and one less otherwise, wherever FromTS is defined |
| MediaClock.LossAtMediaRates | ingest/ftl/handler.go:140-156 | exact at 90 kHz exactly on multiples of 9, at 48 kHz exactly on multiples of 3 |
| MediaClock.LossIff | internal/math.go:9-20 | exact exactly on multiples of rate / gcd(rate, 10^9) |
| MediaClock.TripsSettle | internal/math.go:9-20 | repeated trips lose one tick each until the largest such multiple not above ts, in exactly ts mod that number of trips, and nothing after |
| MediaClock.UnwrapExactIff | ingest/ftl/deframing.go:38-42 | for in-order ticks less than 2^32 apart, unwrapping is exact up to the first packet's period if and only if every step into a new 32-bit period lands in its lower half |
| MediaClock.HalfPeriodSteps | ingest/ftl/deframing.go:38-40 | steps of at most 2^31 always do |
| MediaClock.LongerStepMissed | ingest/ftl/deframing.go:38-40 | a step of 2^31 + 1 that is not followed |
| MediaClock.PacketTimesNeverDecrease | ingest/ftl/deframing.go:38-47 | over a whole run of such steps, in range, packet times never go back |
| MediaClock.Framer.Delta | sinks/rtsp/framing.go:23-32 | the sample count of a packet and the new framer state, from the old one |
| MediaClock.SamplesAre | sinks/rtsp/framing.go:23-32 | each sample count is below 2^32 and congruent to the tick difference: that difference where it is 0 to 2^32 - 1, and 2^32 less where the packet lies back |
| MediaClock.Framer.Repack | sinks/rtsp/framing.go:34-43 | H.264 packets become Annex B whatever the buffer held, others pass unchanged |
| MediaClock.DeltasNeverDrift | sinks/rtsp/framing.go:23-32 | the sum of all samples, modulo 2^32, is the distance of the end timestamps plus the exact difference of the two ticks lost |
| MediaClock.NoDrift | sinks/rtsp/framing.go:23-32 | for any sequence of RTP timestamps, reordered ones included, that sum is off by at most one tick |
| ReaderQueue.LosslessFifo | ingest/ftl/rtp.go:96-140 | in every error-free run, what was handed out followed by what is saved is what was saved followed by what the consumed datagrams yielded |
| ReaderQueue.ReadsIff | ingest/ftl/rtp.go:96-140 | n reads succeed if and only if what is saved and what some first arrivals yield without an error are at least n packets |
| ReaderQueue.ReadErrorIff | ingest/ftl/rtp.go:96-124 | a read returns an error exactly when nothing is saved and the first arrival that yields a packet or an error is that error, or there is none and the input has ended |
| ReaderQueue.OnlyProbesAreLost | ingest/ftl/rtp.go:142-187 | ReadPacket yields that sequence without the packets Streams read, at least one, and misses nothing else |
| ReaderQueue.ReadyMeansKnown | ingest/ftl/rtp.go:149-175 | when probing succeeds the codec data of every stream is known |
| ReaderQueue.ReadyIff | ingest/ftl/rtp.go:149-177 | probing succeeds if and only if at least one and at most `patience` reads succeed that show a packet of every stream at a moment when that stream is known |
| ReaderQueue.ProbingStopsFirst | ingest/ftl/rtp.go:164-174 | and stops at the first such moment |
| ReaderQueue.UnreadyWhy | ingest/ftl/rtp.go:150-177 | otherwise its time was up after that many reads, or a read failed, with that error |
| ReaderQueue.ReadIndexes | ingest/ftl/rtp.go:125-136 | every packet handed out or saved carries the index of a deframer |
| RtpReader.Deframer.DeframePacket | ingest/ftl/deframing.go:31-50 | clock and parser move on, and every packet is stamped with the unwrapped time |
| RtpReader.Deframer.CodecKnown | ingest/ftl/deframing.go:183-188 | codec data is there exactly when both parameter sets are |
| RtpReader.Reader.ReadNext | ingest/ftl/rtp.go:96-140 | the queue, the input and the deframers after one readPacket |
| RtpReader.Reader.Receive | ingest/ftl/rtp.go:105-139 | one arrival: a packet, an error, or wait on |
| RtpReader.Reader.Dispatch | ingest/ftl/rtp.go:117-136 | only the first matching deframer sees a datagram, and its packets get its index |
| RtpReader.Reader.Streams | ingest/ftl/rtp.go:142-177 | the probing loop, its result and when the streams are remembered |
| RtpReader.Reader.ReadPacket | ingest/ftl/rtp.go:179-187 | the first call probes, later ones only read |
| RtpReader.ConsumeTagged | ingest/ftl/rtp.go:117-127 | with at most 128 deframers every packet carries the index of the first deframer with its datagram's SSRC and payload type |
| RtpReader.StreamsKnowsAll | ingest/ftl/rtp.go:142-177 | when Streams succeeds every H.264 stream has had an SPS and a PPS |
| RtpReader.StreamsReadyIff | ingest/ftl/rtp.go:142-177 | Streams succeeds if and only if, within its patience, every stream has a packet read when its parser is not H.264 or has both parameter sets |
| EndToEnd.ReaderKeepsPackets | ingest/ftl/rtp.go:96-140 | the reader adds time and index to what the parser yields, and changes nothing else |
| EndToEnd.ReaderKeepsTime | ingest/ftl/deframing.go:38-47 | every packet has the time of the datagram that completed it |
| EndToEnd.ClockReachesViewer | sinks/rtsp/framing.go:23-32 | over everything the reader yields the outgoing samples add up to the sender's RTP time, within one tick |
| EndToEnd.ClockAfterProbing | sinks/rtsp/framing.go:23-32 | so they do over the packets handed out after probing, from the source of the first of them to that of the last |
| EndToEnd.SentIsDecoded | h264util/h264.go:12-35 | from any parser state and for any parameter sets it is announced with, the Annex B stream of the packets the datagrams yield decodes to exactly the sender's units in order, with the sets in front of every IDR slice |
| EndToEnd.AnnouncedAsSent | ingest/ftl/rtp.go:142-177 | when probing succeeds, the stored SPS and PPS are the last ones sent in the datagrams it consumed, byte for byte, if sets are sent unfragmented; the packets it threw away are all that came of those datagrams but the saved ones |
| EndToEnd.PlanMakesReady | ingest/ftl/rtp.go:142-177 | probing succeeds on every plan that sends an SPS, a PPS and then a unit that is neither, if its patience covers the packets of the plan |
| EndToEnd.WatchedAsSent | ingest/ftl/rtp.go:142-187 | what ReadPacket hands out after probing, repacked with those sets, decodes to the sender's units in order without those of the packets thrown away |
| EndToEnd.LossEndsStreamIff | ingest/ftl/rtp.go:117-139 | the reader gets through what arrived of a plan if and only if no broken run was put together to a single byte, and then yields the packets of the surviving units |
| Broadcast.Hub.Register | web/ws.go:83-89 | a new empty channel enters the map |
| Broadcast.Hub.Unregister | web/ws.go:90-94 | a listener leaves the map, its channel stays as it is |
| Broadcast.Hub.Receive | web/ws.go:100-113 | the oldest message, or the close of a drained channel |
| Broadcast.Hub.Broadcast | web/ws.go:56-68 | in any map order, a listener with fewer than ten messages waiting gets the message, and one with ten is closed and removed, its messages left in place |
| Broadcast.StepKeeps | web/ws.go:56-115 | every step of every goroutine keeps the protocol's invariant |
| Broadcast.EveryRunGapFree | web/ws.go:56-115 | in every interleaving, received then buffered messages are the contiguous run of broadcasts from registration to now or to removal |
| Broadcast.CloseSeenAfterDraining | web/ws.go:104-108 | a listener that sees the close has received its whole run, at least ten messages, up to the one that overflowed |
| Broadcast.RemovedIsClosed | web/ws.go:62-64 | in every interleaving, a listener out of the map whose loop still runs has a closed channel |
| Broadcast.CanDrain | web/ws.go:100-113 | a running loop can always take everything that is waiting for it |
| Broadcast.CloseIsReached | web/ws.go:100-113 | and one that was removed comes to the close that way, having received its whole run |
| Broadcast.ClosedIffOverflowed | web/ws.go:58-65 | in every interleaving, a channel is closed exactly when a broadcast found ten messages waiting in it |
| Broadcast.InMapIff | web/ws.go:56-115 | in every interleaving, the map holds exactly the listeners registered and neither unregistered nor so dropped |
| Broadcast.ComesAndGoes | web/ws.go:83-94 | between broadcasts a listener can enter the map and leave it, its channel open |
| Broadcast.NeverSendsOnClosed | web/ws.go:58-65 | no send and no second close on a closed channel |
| Broadcast.RemovalIsFinal | web/ws.go:63-64 | once out of the map a listener's run never changes |
| Broadcast.AnyOrder | web/ws.go:58-66 | an undisturbed broadcast has the same effect in every order of the listeners |
| Broadcast.BroadcastAsHub | web/ws.go:56-68 | taken step by step, in any order, it leaves the channels and the map as `Hub.Broadcast` does |
| PublishChannel.Channel.SetStream | ingest/publish.go:96-114 | closes the previous ingest, takes its place with its two queues for viewers, starts or marks the HLS output |
| PublishChannel.Channel.Queue | ingest/manager.go:54-70 | the queue a viewer is given, with converted audio or without |
| PublishChannel.Channel.StopStream | ingest/publish.go:116-127 | takes the channel off the air if the queue is still the ingest |
| PublishChannel.Channel.CleanupStream | ingest/publish.go:144-151 | closes the HLS output if it has expired |
| PublishChannel.IngestIsCurrent | ingest/publish.go:96-127 | after any interleaving the ingest is the queue set last, unless its own publisher has stopped it since |
| PublishChannel.LiveIffCurrent | ingest/manager.go:72-77 | the channel is live exactly when there is such a queue |
| PublishChannel.ServedIff | ingest/manager.go:54-70 | after any interleaving a viewer is given exactly the queue of its kind that came with the current one, and nothing when there is none |
| PublishChannel.StopOnlyOwn | ingest/publish.go:116-127 | a superseded publisher's stop changes nothing; a current one's takes the channel off the air |
| PublishChannel.ClosedIffTakenOver | ingest/publish.go:99-101 | exactly the queues that were taken over while current are closed by setStream |
| PublishChannel.EveryQueueAccounted | ingest/publish.go:96-127 | every queue ever set is the ingest, was closed by its successor or was stopped by its owner |
| PublishChannel.HlsLifetime | ingest/publish.go:105-151 | while live there is an open HLS publisher and no stop time; each publisher is closed at most once |
| PublishChannel.StoppedAtIffOffAir | ingest/publish.go:111-126 | the stop time is that of the last effective stop with no stream set since |
| PublishChannel.ClosedExactlyWhenExpired | ingest/publish.go:144-151 | a publisher is closed by exactly the cleanups that find it more than 60 seconds off the air with no restart |
| PublishChannel.DiscontinuityPerRestart | ingest/publish.go:105-110 | a publisher's discontinuities are one less than the streams set on it |
| Routing.HashKeys | ingest/ftl/handler.go:188-200 | the ping key and the two stream keys of a connection, filled into one buffer |
| Routing.NormalIffSameHost | ingest/ftl/handler.go:189-191 | two addresses have the same normal form if and only if they are the same or one is the IPv4-mapped form of the other, and the form then has four bytes |
| Routing.StreamKeyInjective | ingest/ftl/handler.go:193-198 | equal stream keys mean equal SSRC and the same host |
| Routing.StreamKeyIsNoPingKey | ingest/ftl/handler.go:192-198 | for 4- and 16-byte addresses a stream key is never a ping key |
| Routing.Server.AddReceiver | ingest/ftl/rtp.go:67-76 | all keys lead to the receiver |
| Routing.Server.DelReceiver | ingest/ftl/rtp.go:78-86 | its keys that still lead to the receiver are gone |
| Routing.Server.HandleDatagram | ingest/ftl/rtp.go:25-63 | pings are answered for known addresses, media goes to the routed queue unless that is full, all else is dropped |
| Routing.TableAgreesWithHistory | ingest/ftl/rtp.go:67-86 | after any run a key leads to a receiver exactly when that one was added under it last and has not been deleted |
| Routing.EmptyOnceAllDeleted | ingest/ftl/rtp.go:78-86 | the table is empty once every receiver has been deleted with its keys |
| Routing.StaleDeleteIsHarmless | ingest/ftl/rtp.go:81-83 | a late delete never removes a newer route |
| Routing.DeliveryIsFaithful | ingest/ftl/rtp.go:29-63 | after any history of connections a datagram is routed to a connection if and only if it is media and that connection's declaration of its SSRC, from the same host in either form of its address, is the latest and still open |
| Routing.PingAnsweredIff | ingest/ftl/rtp.go:34-43 | a ping is answered exactly when the connection opened last from its host is still open |
| Routing.OlderConnectionUnanswered | ingest/ftl/rtp.go:34-43 | so an earlier connection from that address, still open, gets no answers once a later one has closed |
| FtlConn.Conn.HandleHMAC | ingest/ftl/handler.go:18-33 | a challenge is issued once and repeated until authentication |
| FtlConn.Conn.HandleCONNECT | ingest/ftl/handler.go:35-55 | CheckUser is asked about the channel, the nonce and the decoded digest, and decides |
| FtlConn.Conn.HandleEnable | ingest/ftl/handler.go:57-70 | the video or audio flag, only in the configuration state and only by "true" |
| FtlConn.Conn.HandleCodec | ingest/ftl/handler.go:72-85 | the codec named by the line |
| FtlConn.Conn.HandlePT | ingest/ftl/handler.go:87-104 | an 8-bit payload type |
| FtlConn.Conn.HandleSSRC | ingest/ftl/handler.go:106-123 | a 32-bit SSRC |
| FtlConn.Conn.HandleDot | ingest/ftl/handler.go:125-186 | Publish is called exactly when all settings are there and the codecs are supported |
| FtlConn.Conn.HandleLine | ingest/ftl/ftl.go:132-174 | the command switch and the flush of the reply |
| FtlConn.Conn.Serve | ingest/ftl/ftl.go:111-176 | lines are read in turn until one ends the connection |
| FtlConn.NeverGoesBack | ingest/ftl/ftl.go:79-86 | over any conversation the state never decreases and an issued nonce never changes |
| FtlConn.PublishesOnce | ingest/ftl/handler.go:125-129 | Publish starts at most once per connection |
| FtlConn.PublishIsJustified | ingest/ftl/handler.go:18-178 | Publish starts only after an answered HMAC, then a CONNECT accepted for that nonce, then lines supplying all eight settings before the dot, with that CONNECT's auth and those lines' values |
| FtlConn.GoodClientPublishes | ingest/ftl/ftl.go:133-162 | a client that does all this, in any order of settings, does go live, exactly when the last values it gave are complete and supported |
| FtlConn.HexRoundTrip | ingest/ftl/handler.go:41-48 | a digest written in hexadecimal, with or without a dollar sign, is read back |
| FtlConn.UintRoundTrip | ingest/ftl/handler.go:94-97 | a decimal number is read back exactly when it is below the limit |
| FtlConn.ParseUintIff | ingest/ftl/handler.go:94-97 | exactly the decimal spellings of numbers below the limit are read, leading zeros allowed |
| FtlConn.DigestIff | ingest/ftl/handler.go:41-48 | exactly the hexadecimal spellings of a digest, in either case and with or without the dollar sign, are read |
| FtlConn.SwitchAndCodecLines | ingest/ftl/handler.go:57-85 | the lines Video:, Audio:, VideoCodec: and AudioCodec: and the field each sets |
| FtlConn.NumberLines | ingest/ftl/handler.go:87-123 | the four number lines, the field each sets and the numbers each takes |
| FtlConn.BadSettingLines | ingest/ftl/handler.go:57-123 | setting lines out of place, without exactly one value or without a number where one is due are refused |
| FtlConn.DotLine | ingest/ftl/handler.go:125-186 | the dot publishes exactly when all eight settings are there and the codecs are H264 and OPUS |
| FtlConn.HmacLine | ingest/ftl/handler.go:18-33 | when HMAC is answered and with which nonce |
| FtlConn.ConnectLine | ingest/ftl/handler.go:35-55 | when CONNECT asks CheckUser, about what, and what comes of the answer |
| FtlConn.OtherLines | ingest/ftl/ftl.go:129-151 | the commands that change nothing, and what each answers |
| FtlConn.UnknownLines | ingest/ftl/ftl.go:164-167 | any other word is refused |
| FtlConn.PublishedAsSaid | ingest/ftl/handler.go:57-178 | what is published was said in the eight lines, word for word, after the accepted CONNECT |
| FtlConn.ConversationPublishes | ingest/ftl/ftl.go:133-162 | a client that says HMAC, CONNECT and the eight settings in FTL's words goes live with exactly those values |
| Grabber.FrameGrabber.LookAt | sinks/grabber/grabber.go:63-96 | one video packet: the buffer, the clocks and the call of makeFrame, if any |
| Grabber.FrameGrabber.Grab | sinks/grabber/grabber.go:48-98 | the loop sees the chosen stream only, and calls makeFrame as the packets of that stream say |
| Grabber.VideoIsFilter | sinks/grabber/grabber.go:48-62 | the packets it looks at are those of the chosen stream, as often as they came and in order |
| Grabber.ShotIsOneRun | sinks/grabber/grabber.go:63-81 | makeFrame is called exactly when a maximal run of keyframe packets of one time has ended and the last call, if any, ended at least ten seconds ago, with the Annex B encoding of exactly that run |
| Grabber.ShotsApart | sinks/grabber/grabber.go:64-68 | any two calls are at least ten seconds apart |
| Grabber.BframeFlagIsRecent | sinks/grabber/grabber.go:82-96 | for positive times that do not go back, the B-frame memory is set exactly while the latest B slice is at most 30 seconds before the latest packet that is no keyframe |
| Grabber.ShotFlag | sinks/grabber/grabber.go:70-73 | the flag announced with a frame says exactly that |

## Left out

- Depacketizer.H264Parser.ParseFrame: stops with its own outcome where a reassembled unit is itself of type 24 or 28; `ParserRecursion.Eval` goes on there.
- StoredSlices.PlayedMirrors: speaks of streams without errors and without units of type 24 or 28 in fragments; `ParserRecursion.Eval` stores slices from such units too, and nothing is proved of what those read as later.
- RtpReader.Deframer.CodecKnown: codec data is there once both parameter sets are; errors of the SPS and PPS decoder are not part of this model.
- MediaClock.PacketTimesNeverDecrease: speaks of times below 2^63 nanoseconds, where a duration does not turn negative.
- RtpReader.Reader.Streams: takes codec data to be decodable once both parameter sets are there; the SPS and PPS decoders are not part of this model.
- H264Util.WriteAnnexBPacket: the library's splitter is modelled on AVCC data, where it returns the units, and as one raw unit otherwise; its recognition of Annex B input is not part of this model.
- Broadcast.Hub.Receive: the wait on an empty open channel is not a result; the protocol steps say when a receiver can go on.
- The deframers set up for a published connection (ingest/ftl/handler.go:136-170): they are what the reader is given.
- Sockets, deadlines, logging and goroutine start-up: a datagram, a line, a clock reading or a lock section is the input of a step.
- An FTL line of blanks only, which the source indexes out of range on: a line without words stands for the empty line.
- The RTP parser and packetiser, pubsub queues, the HLS publisher, CheckUser and the slice-header parser: abstract values or inputs.
- Events sent on publish and stop: a superseded publisher still announces that the channel is not live, so they do not mirror the live flag.
- The choice of the video stream in Grab, makeFrame, the drop of a result nobody has taken, and viewer counts: simple searches, an external process and counters.
- The RTSP and WebRTC sessions, Opus transcoding, the web interface and the database.
