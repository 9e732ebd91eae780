# Verified model of the Nabto Edge WebRTC device library

Dafny models of the stateful cores of the library, and proofs about whole runs of them. Verify with
`dafny verify dfyconfig.toml`.

Code that changes state in place is a class or a loop, proved equal to a specification function; what
the code promises is then proved about that function, as lemmas over every input or every run.

| files | core |
|---|---|
| `Rtp`, `NalUnit`, `H264Packetizer` | Annex B splitter, FU-A fragmenter, RTP numbering |
| `Depacketizer` | reference receiver after RFC 6184 (sections 5.6 and 5.8) |
| `AnnexB`, `EndToEnd` | chunk independence; from a byte stream to what the receiver delivers |
| `LeadingZeros` | byte streams with zero octets before the first start code |
| `Framing`, `SignalingSpec`, `SignalingStream` | the signaling stream, an object driven by completions |
| `SignalingControl`, `SignalingQueue`, `SignalingRuns`, `SignalingReading` | its invariants; start, write queue, shutdown; framing round trip |
| `SignalingAccount`, `SignalingLog` | what the events of a run account for: operations, the close, messages, tracks |
| `MetaTracks`, `Negotiation`, `WebrtcConnection` | track metadata and the impolite side of perfect negotiation |
| `Glare` | that side against the polite peer of WebRTC 1.0, section 10.7, over two FIFO channels |
| `EventQueue` | the monitor with one runner, every interleaving |
| `Hex`, `Credentials` | hexadecimal text; RTSP URLs with credentials |
| `CodecSelection`, `Pcmu`, `RtspPorts` | H.264 codec choice, PCMU blocks, port blocks |

## What the code does differently from what one would expect

- A NAL unit of 1200 octets or more whose size is 1 modulo 1200 is sent without an E bit
  (h264_packetizer.cpp:60), so a receiver never completes it. `EndToEnd.StreamRecovered` says exactly
  which units arrive, `EndToEnd.StreamRecoveredWholeIff` when that is all that were sent, and
  `EndToEnd.UnitLost` has a stream that loses one. A unit of exactly 1200 octets is one fragment with S and
  E both set, which section 5.8 of RFC 6184 forbids (`Nal.FuAShape`); the reference receiver takes it.
- When an access unit starts without an AUD, the packets of the unit before it are returned twice
  (lines 140 and 152), and the AUD built at 141-144 is overwritten at 154, although the comment at 126 says
  that it is inserted. The receiver drops the repeats by their sequence number, which works as long as such
  a unit has fewer than 65536 packets.
- Annex B allows zero octets before the first start code. The packetizer passes over the first three or
  four octets of its buffer without looking at them, so the first unit then comes out with the end of its
  start code in front, or the code is undefined (`LeadingZeros.LeadingZerosSplit`);
  `LeadingZeros.SplitAsMeantIff` has the exact condition. The other results about whole streams are about streams
  that begin with a start code.
- The size of a signaling message is converted to 32 bits (signaling_stream.cpp:150), so that of one of 2^32
  octets or more only the first octets, as many as the remainder, are framed (`Framing.ClipIff`).
- The error of a media track that the metadata does not list yet is added to the list, but the status
  becomes FAILED only with the next call (`MetaTracks.FirstCallStatus`, `MetaTracks.SecondCall`, and
  `MetaTracks.FirstCallMissesError` for one track).
- `url_encode` pads a single hexadecimal digit with a space, so that characters below 0x10 are lost:
  `Credentials.CredentialRoundTrip` has the exact condition, `Credentials.CharacterLost` a user name.
- `fromHex` clears one octet for each two digits, so that the last of an odd number of digits is added to
  what the buffer held (`Hex.OddDigitAdded`), although the comment at util.cpp:151 allows for such a length.
- In a URL with a user but no password and a port after the host, the colon before the port is taken for the
  one before the password: `Credentials.UserWithoutPassword` says what the client then uses.
- For exactly one allocation in 16384, 5828 the first, the sockets for the last two ports of a block wrap
  around from 65535 to 0 and 1 (`RtspPorts.BlockWrapsIff`, `RtspPorts.BlockWraps`), while rtsp_client.cpp:276
  adds in `int` and asks the server for the ports 65536 and 65537.

## Assumptions

- Handlers of the signaling stream run one at a time on the event queue, each completion together with
  the posted handler for it.
- Making a local description and sending it is one step: webrtc_connection.cpp:212 and :181 read the
  local description when the posted state change or the end of gathering is handled.
- Session descriptions are labels; the peer connection follows section 3.2 of RFC 8829, and what it
  decides (answers, whether negotiation is needed) is an arbitrary input.
- `H264.Splittable`: every unit cut from the buffer has a nonzero octet. Where it does not hold, the loop
  at h264_packetizer.cpp:114 reads before the start of an empty vector. Buffers shorter than four octets,
  where the search at :103 starts past the end, count as holding no separator.
- The size of a message modulo 2^32 is at most 2^32 - 5 (`Framing.Sendable`); above that the buffer size
  at signaling_stream.cpp:151, computed in 32 bits, is smaller than the frame, and the code is undefined.
- `calloc` succeeds, and the device is little-endian, as the clients assume.

## Model

The first rows are the main results, the middle ones what they rest on, the last ones, from
`Rtp.RtpSession.Outgoing` on, say that the methods and loops do what their specification functions say.

| member | source | states |
|---|---|---|
| EndToEnd.StreamRecovered | src/modules/rtp-packetizer/h264_packetizer.cpp:25-166 | for every conforming stream and every chunking, an RFC 6184 receiver delivers, in order, exactly the units before the last two whose last packet closes them; the last unit waits in the buffer, the one before it is held back. Units below 1200 octets have a type of 1 to 23, longer ones any; a unit sent twice has fewer than 65536 packets |
| EndToEnd.StreamRecoveredWholeIff | src/modules/rtp-packetizer/h264_packetizer.cpp:44-72 | the receiver delivers every unit that was sent iff none of at least 1200 octets has a size of 1 modulo 1200 |
| EndToEnd.UnitLost | src/modules/rtp-packetizer/h264_packetizer.cpp:60 | a stream, sent in any chunks, whose first unit of 1201 octets is sent and never delivered |
| EndToEnd.StreamTransmission | src/modules/rtp-packetizer/h264_packetizer.cpp:90-166 | for any conforming stream, the empty one included, and any chunking, exactly the packets of the reference by unit index; last unit in the buffer, the one before held back |
| EndToEnd.MarkerAndMultiplicity | src/modules/rtp-packetizer/h264_packetizer.cpp:119-154 | marker on the last packet iff the next unit has a long separator and the type of this one, by its header octet, is none of 7, 8 and 9; sent twice iff moreover the next one is no 9; numbers go on from unit to unit, and the tick goes up after each marked one |
| AnnexB.AnyChunking | src/modules/rtp-packetizer/h264_packetizer.cpp:90-166 | every chunking of the same octets has the same effect |
| LeadingZeros.SplitAsMeantIff | src/modules/rtp-packetizer/h264_packetizer.cpp:95-117 | with zero octets before the first start code the first unit comes out as meant iff there are none, or one and the start code is short |
| Nal.FuAShape | src/modules/rtp-packetizer/h264_packetizer.cpp:44-72 | ceil((n-1)/1200) fragments of type 28 with the octets in pieces of 1200, NRI and type kept; S on the first only; E on the last only and iff (n-1) mod 1200 is not 0; both on one iff n is 1200 |
| Depacketizer.ReceivedIff | src/modules/rtp-packetizer/h264_packetizer.cpp:25-88 | to a receiver that is assembling at most a unit of 1200 octets or more, a unit sent once is delivered iff its type can be carried at its size and its last packet closes it |
| Glare.GlareSafety | src/library/webrtc-connection/webrtc_connection.cpp:407-458 | in every run no message is rejected, the device ignores exactly the offers the peer rolls back, and empty channels mean both stable after the same exchanges |
| Glare.Convergence | src/library/webrtc-connection/webrtc_connection.cpp:407-458 | without new offers the messages run out within a bound, with both sides agreed |
| Negotiation.MessageHandled | src/library/webrtc-connection/webrtc_connection.cpp:407-458 | for every description in every state: ignored, rejected with its metadata taken, answered with metadata brought up to date and perhaps followed by an offer, or settled; what is sent, and every part of the state after it |
| Negotiation.TracksOffered | src/library/webrtc-connection/webrtc_connection.cpp:324-351 | tracks created on a stable connection follow the media tracks, and the one message sent is an offer whose list names each with its mid and identifier after the entries that it had |
| Negotiation.TracksNotOffered | src/library/webrtc-connection/webrtc_connection.cpp:324-351 | in any other state the list and the media tracks grow alike and nothing is sent; after an unanswered offer of the device nothing else changes, after an offer of the client the exchange completes |
| SignalingRuns.Rendezvous | src/library/signaling-stream/signaling_stream.cpp:27-122 | in either order exactly one read loop starts, the shared future never clashes, tracks are created once and in order |
| SignalingLog.RunDecides | src/library/signaling-stream/signaling_stream.cpp:45-297 | in every run the octets written are the frames of the first messages that the events have sent, replies included, the queue holds the others, the objects delivered are those read whole, and the tracks created and deferred are those added |
| SignalingAccount.OperationsAccounted | src/library/signaling-stream/signaling_stream.cpp:132-408 | in every run the operations issued of each kind are those completed and the one under way, and a read under way is the one issued last, of a length or of the object length expected |
| SignalingAccount.ClosedByOneClose | src/library/signaling-stream/signaling_stream.cpp:373-391 | in every run an event that calls for the close of an open stream issues the one close there is |
| SignalingRuns.Shutdown | src/library/signaling-stream/signaling_stream.cpp:373-420 | once closed the connection has been stopped, nothing is issued, delivered, created or stopped any more, completions count down at most three operations, one close at most, and with none left the object is released |
| SignalingReading.FramesDelivered | src/library/signaling-stream/signaling_stream.cpp:171-297 | served the frames of any messages, the read loop delivers in order what was framed of each, skips empty frames, sends the replies in order and listens again |
| SignalingReading.TruncatedDelivered | src/library/signaling-stream/signaling_stream.cpp:211-266 | input ending inside a frame: the whole frames before are delivered, the part is not, and the stream reads on |
| SignalingReading.WriterToReader | src/library/signaling-stream/signaling_stream.cpp:124-297 | what any reachable stream has written, another one delivers |
| EventQueue.NoLostWakeup | src/modules/event-queue/event_queue_impl.cpp:21-71 | in every interleaving executed and queued events are those that the calls posted, in order; a sleeping runner has an empty queue and more additions of work than removals; left alone a runner executes everything posted, then sleeps iff there are more additions, else stops |
| EventQueue.StopsExactlyWhenDone | src/modules/event-queue/event_queue_impl.cpp:44-58 | in every run the runner stops exactly by a step of pop when all that was posted is executed and the removals have caught up with the additions |
| EventQueue.SettleDrains | src/modules/event-queue/event_queue_impl.cpp:41-71 | the runner left alone executes all that is queued, then sleeps iff work is left, else stops |
| MetaTracks.UpdateEffect | src/library/webrtc-connection/webrtc_connection.cpp:353-391 | on any list, even with entries that lack a mid: prior entries keep place, mid and identifier, one entry follows for each mid not listed, in the order of the tracks, and exactly the first entry of each mid that can be found tells the last error of its tracks |
| MetaTracks.FirstCallStatus | src/library/webrtc-connection/webrtc_connection.cpp:353-394 | the list is updated as above; the status is FAILED iff a track in error was found in the list or shares its mid with an earlier track, OK without a list; nothing else changes |
| MetaTracks.SecondCall | src/library/webrtc-connection/webrtc_connection.cpp:353-394 | a second call leaves the list unchanged, and its status is FAILED iff some track in error can be found: any, if no entry lacks a mid |
| MetaTracks.FirstCallMissesError | src/library/webrtc-connection/webrtc_connection.cpp:361-405 | one track in error, not listed before: the list tells the text of its error, the first call says OK, the second FAILED |
| Credentials.CredentialRoundTrip | src/modules/rtsp-client/rtsp_client.cpp:98-118 | user, password and host come back from the URL printed by the server, iff no character of the credentials is below 0x10 |
| Credentials.CharacterLost | src/modules/util/util.cpp:183-203 | a user name of one character 0x01 comes back empty |
| Credentials.DecodesByParts | src/modules/util/util.cpp:183-203 | decoding any text, from its first escape on: two digits of either case give their octet, two other characters are dropped, a text that ends inside an escape gives nothing |
| Credentials.UserWithoutPassword | src/modules/rtsp-client/rtsp_client.cpp:104-116 | a user without password before a host with port: the user name ends with the host, and the port and the path become the password |
| CodecSelection.Track.Match | src/modules/track-negotiators/h264.cpp:6-90 | one payload type remains and is returned, the only one that is the last full match or else the first candidate; with no candidate 0 and nothing changed |
| CodecSelection.ChoiceUnique | src/modules/track-negotiators/h264.cpp:28-58 | no two types can both be the last full match or else the first candidate |
| Pcmu.Conservation | src/modules/rtp-packetizer/pcmu_packetizer.cpp:12-31 | over all calls payloads and buffer are the input, in blocks of 1024, packet k numbered first + k modulo 2^16 and stamped start + 1024 (k + 1) modulo 2^32, whatever the chunks |
| RtspPorts.CallsDecide | src/modules/rtsp-client/rtsp_stream.cpp:63-112 | over every run the connections are those added and not removed since, with the tracks added since then, and the port 42222 + 4 n modulo 2^16 for n connections created before |
| RtspPorts.LiveBlocksDisjoint | src/modules/rtsp-client/rtsp_stream.cpp:63-112 | in every run a live connection has the port of its allocation number, and two have disjoint blocks iff their numbers differ modulo 16384 |
| AnnexB.ChunkIndependence | src/modules/rtp-packetizer/h264_packetizer.cpp:90-166 | a + b at once is a, then b: packets, numbers, ticks, buffer and unit held back, for every split |
| AnnexB.SplitInTwo | src/modules/rtp-packetizer/h264_packetizer.cpp:101-117 | splitting a prefix first, then its rest with more octets, gives the same units and rest |
| AnnexB.CutStays | src/modules/rtp-packetizer/h264_packetizer.cpp:103-111 | octets that arrive later move neither the first cut nor the kind of its separator |
| AnnexB.SplitStream | src/modules/rtp-packetizer/h264_packetizer.cpp:101-117 | a conforming stream of any number of units, with padding and both start codes, falls apart into its units; the last stays |
| LeadingZeros.LeadingZerosSplit | src/modules/rtp-packetizer/h264_packetizer.cpp:95-117 | before a long start code one or two zeros put the end of the start code in front of the first unit and leave the rest right; three or more leave the code undefined |
| EndToEnd.ReceiveTransmission | src/modules/rtp-packetizer/h264_packetizer.cpp:119-154 | a receiver reading the transmission from any unit on, repeats included, delivers the closed units |
| EndToEnd.NothingLostIff | src/modules/rtp-packetizer/h264_packetizer.cpp:60 | the units that close are all of them iff none of at least 1200 octets has a size of 1 modulo 1200 |
| Depacketizer.ReceiveFragments | src/modules/rtp-packetizer/h264_packetizer.cpp:44-72 | reassembly inverts fragmentation from any fragment on; without an E bit the unit stays open |
| Depacketizer.ReceiveUnit | src/modules/rtp-packetizer/h264_packetizer.cpp:25-88 | a receiver in any state gets back a unit of a type of 1 to 23, or of any type from 1200 octets on, marked or not; without an E bit it stays open |
| Depacketizer.ReceiveRepeat | src/modules/rtp-packetizer/h264_packetizer.cpp:140-152 | packets inserted a second time change nothing at the receiver |
| Nal.FuHeaderBits | src/modules/rtp-packetizer/h264_packetizer.hpp:32-33 | S and E are set or cleared and no other bit changes; the FU indicator has type 28 and the NRI, and with the FU header it gives back the NAL header |
| Nal.AudPayload | src/modules/rtp-packetizer/h264_packetizer.cpp:186-197 | the delimiter payload is 0x10 before units of type 5, 7 and 8, 0x30 otherwise |
| H264.FindSeparatorIsFirst | src/modules/rtp-packetizer/h264_packetizer.cpp:103 | no separator starts between the start of the search and the result |
| H264.SeparatorKindKept | src/modules/rtp-packetizer/h264_packetizer.cpp:95-111 | `isShort` computed anew by a call agrees with the `nextShort` of the last cut |
| Glare.NextKeeps | src/library/webrtc-connection/webrtc_connection.cpp:407-458 | every move of either side keeps the joint invariant over states, channels, agreements and lost offers |
| Glare.DeviceRemembers | src/library/webrtc-connection/webrtc_connection.cpp:324-430 | in every run the device trickles unless it has taken a description with noTrickle, and its media tracks are those created, in order |
| SignalingControl.StepKeepsControl | src/library/signaling-stream/signaling_stream.cpp:45-420 | every event keeps: one user of the shared future, one read loop, at most one close, the connection stopped once or twice by the time the stream is closed, closed and idle implies released, released while open iff accepting failed |
| SignalingQueue.StepKeepsQueue | src/library/signaling-stream/signaling_stream.cpp:124-168 | every event keeps: octets written are the frames of a prefix of the messages sent, the rest is the queue, one write at most |
| SignalingRuns.StepKeepsTracks | src/library/signaling-stream/signaling_stream.cpp:109-122 | every event keeps: tracks created and deferred are the tracks added, in order, none created before the connection exists |
| SignalingRuns.QueueRefinesFifo | src/library/signaling-stream/signaling_stream.cpp:124-168 | in every reachable state the write queue is one FIFO of frames; a nonempty queue of an open stream means a write is outstanding |
| SignalingAccount.StepCloses | src/library/signaling-stream/signaling_stream.cpp:184-420 | exactly the end of the connection, the end of the input, an object that ends the connection and a failed read close an open stream; all but the last issue the close, and nothing else does |
| SignalingAccount.StepStops | src/library/signaling-stream/signaling_stream.cpp:45-64 | the connection is stopped once by the step that closes the stream, and by a failed accept if it exists |
| SignalingAccount.StepReleases | src/library/signaling-stream/signaling_stream.cpp:45-420 | the object lets go of itself by exactly these steps: a failed accept or read, a read that brings octets to a closed stream or has them close it, and the last operation to end on a closed stream |
| SignalingLog.StepLogged | src/library/signaling-stream/signaling_stream.cpp:124-297 | each event sends and delivers exactly its own messages and its own object, if it was read whole and there is a connection |
| SignalingLog.StepTracks | src/library/signaling-stream/signaling_stream.cpp:109-122 | each event adds its own tracks, and creating tracks fails exactly when the connection throws |
| Framing.Le32RoundTrip | src/library/signaling-stream/signaling_stream.cpp:150-153 | the length prefix is read back as written, the least significant octet first |
| Framing.ClipIff | src/library/signaling-stream/signaling_stream.cpp:150 | a message is framed whole iff it is shorter than 2^32 octets |
| EventQueue.StopsOnlyWhenIdle | src/modules/event-queue/event_queue_impl.cpp:44-58 | the null event exactly at an instant with an empty queue and no work; falling asleep exactly on entering pop with an empty queue and work left |
| EventQueue.RunCounts | src/modules/event-queue/event_queue_impl.cpp:21-39 | the work count is the additions less the removals, and the events posted are those of the calls |
| Hex.HexRoundTrip | src/modules/util/util.cpp:149-181 | parsing printed text restores the octets whatever the buffer held, and touches no others |
| Hex.HexTextIs | src/modules/rtsp-client/rtsp_client.cpp:44-52 | each octet is printed as the lower-case digits of its halves |
| Hex.DigitIff | src/modules/util/util.cpp:162-171 | the digits of both cases, and nothing else, have a value, and it is theirs |
| Hex.OddDigitAdded | src/modules/util/util.cpp:149-177 | the last of an odd number of digits is added to what the buffer held |
| Credentials.DecodeEncoded | src/modules/util/util.cpp:183-203 | decoding an encoded text loses exactly the characters below 0x10 |
| Credentials.PrintableIff | src/modules/util/util.cpp:183-203 | nothing is lost iff there is no character below 0x10 |
| Credentials.EncodedIsClean | test-apps/rtsp-server/src/gst-rtsp-launch.cpp:204-215 | no ':' and no '@' in an encoded text |
| Credentials.EncodedUnchangedIff | test-apps/rtsp-server/src/gst-rtsp-launch.cpp:204-215 | a text stays as it is iff it has only letters, digits and the marks - _ . ~ |
| Credentials.EncodedEscape | test-apps/rtsp-server/src/gst-rtsp-launch.cpp:204-215 | any other character from 0x10 on becomes a percent sign and two upper-case digits |
| Credentials.ParsePrinted | src/modules/rtsp-client/rtsp_client.cpp:98-118 | the constructor finds user, password and host between the separators, for any host |
| Credentials.ParseUrlCases | src/modules/rtsp-client/rtsp_client.cpp:98-118 | without @ or without two colons the URL is taken as it is, without credentials; the constructor throws iff a URL with both is shorter than seven characters |
| CodecSelection.ChosenStep | src/modules/track-negotiators/h264.cpp:28-58 | the choice among the types seen so far, after one more: replaced by a full match, or by a first candidate |
| CodecSelection.ContainsIff | src/modules/track-negotiators/h264.cpp:40-43 | a search succeeds iff the text is something, then what is searched, then something |
| CodecSelection.UsualChoice | src/modules/track-negotiators/h264.cpp:26-58 | in an offer of five types the one that names profile 42e01f, mode 1 and level asymmetry is chosen, and the first at 90000 if its line lacks one of them |
| Pcmu.AnyChunking | src/modules/rtp-packetizer/pcmu_packetizer.cpp:12-31 | every chunking of the same input has the same effect |
| RtspPorts.TracksShareBlock | src/modules/rtsp-client/rtsp_stream.cpp:63-99 | until it is removed a connection keeps number and port whatever is added, and has audio or video exactly as added to it |
| RtspPorts.BlocksDisjointIff | src/modules/rtsp-client/rtsp_stream.cpp:69 | two blocks, wrapping included, are disjoint iff their numbers differ modulo 16384 |
| RtspPorts.BlockWrapsIff | src/modules/rtsp-client/rtsp_stream.cpp:69 | a block wraps around exactly for allocations congruent to 5828 modulo 16384 |
| RtspPorts.BlockWraps | src/modules/rtsp-client/rtsp_stream.cpp:69 | the block of allocation 5828 starts at 65534 and wraps to the ports 0 and 1 |
| Rtp.RtpSession.Outgoing | src/modules/rtp-packetizer/h264_packetizer.cpp:74-75 | headers get consecutive numbers, shared by all units of a packetizer |
| Rtp.RtpSession.UpdateTimestamp | src/modules/rtp-packetizer/h264_packetizer.cpp:168-179 | the clock ticks; packets after it carry the new tick |
| Nal.MakeFragment | src/modules/rtp-packetizer/h264_packetizer.cpp:47-71 | one pass: FU indicator, FU header, at most 1200 octets |
| Nal.FragmentUnit | src/modules/rtp-packetizer/h264_packetizer.cpp:44-72 | the loop yields the specified fragments |
| Nal.Packetize | src/modules/rtp-packetizer/h264_packetizer.cpp:25-88 | nothing for an empty unit, one packet below 1200 octets, fragments otherwise; marker on the last |
| H264.H264Packetizer.PopZeros | src/modules/rtp-packetizer/h264_packetizer.cpp:114 | trailing zeros removed, the rest kept |
| H264.H264Packetizer.SendLast | src/modules/rtp-packetizer/h264_packetizer.cpp:118-154 | what is sent, marked, repeated and ticked when the next unit is known; the AUD built is never sent |
| H264.H264Packetizer.CutUnit | src/modules/rtp-packetizer/h264_packetizer.cpp:105-158 | one pass: a unit cut, the one before it sent, the buffer shortened |
| H264.H264Packetizer.Incoming | src/modules/rtp-packetizer/h264_packetizer.cpp:90-166 | the loop splits the buffer completely and sends all cut units but the last |
| Signaling.SignalingStream.constructor | src/library/signaling-stream/signaling_stream.cpp:27-43 | state after `start`: accepting on the shared future, ICE servers requested |
| Signaling.SignalingStream.StreamAccepted | src/library/signaling-stream/signaling_stream.cpp:45-64 | on failure released, and an existing connection stopped; else accepted, reading if the connection exists |
| Signaling.SignalingStream.IceServersResolved | src/library/signaling-stream/signaling_stream.cpp:66-84 | connection created, reading if accepted |
| Signaling.SignalingStream.CreateWebrtcConnection | src/library/signaling-stream/signaling_stream.cpp:109-122 | deferred tracks created and cleared |
| Signaling.SignalingStream.CreateTracks | src/library/signaling-stream/signaling_stream.hpp:50-64 | created, or deferred while there is no connection; false iff creating them throws |
| Signaling.SignalingStream.SendSignalingObject | src/library/signaling-stream/signaling_stream.cpp:124-130 | queued, then written if possible |
| Signaling.SignalingStream.TryWriteStream | src/library/signaling-stream/signaling_stream.cpp:132-157 | the frame of the oldest message, its size converted to 32 bits, if open and nothing is being written |
| Signaling.SignalingStream.StreamWriteCallback | src/library/signaling-stream/signaling_stream.cpp:159-168 | write done, next one tried |
| Signaling.SignalingStream.ReadObjLength | src/library/signaling-stream/signaling_stream.cpp:171-182 | reads a length, or cleans up if closed |
| Signaling.SignalingStream.HasReadObjLen | src/library/signaling-stream/signaling_stream.cpp:184-218 | end of stream closes, error cleans up, short or zero length reads again |
| Signaling.SignalingStream.ReadObject | src/library/signaling-stream/signaling_stream.cpp:220-232 | reads an object, or cleans up if closed |
| Signaling.SignalingStream.HasReadObject | src/library/signaling-stream/signaling_stream.cpp:234-297 | a whole object is handled, with any replies or the end of the connection, then the next length is read |
| Signaling.SignalingStream.CloseStream | src/library/signaling-stream/signaling_stream.cpp:373-391 | stops the connection and issues the close once; when closed, releases the object if nothing is outstanding |
| Signaling.SignalingStream.StreamClosed | src/library/signaling-stream/signaling_stream.cpp:393-408 | close done; releases if neither reading nor writing |
| Signaling.SignalingStream.Cleanup | src/library/signaling-stream/signaling_stream.cpp:410-420 | closed, the connection stopped and let go of, released |
| Webrtc.WebrtcConnection.SetMetadata | src/library/webrtc-connection/webrtc_connection.hpp:51-64 | metadata replaced; noTrickle only ever turns trickling off |
| Webrtc.WebrtcConnection.UpdateEntry | src/library/webrtc-connection/webrtc_connection.cpp:361-389 | the search loop for one media track, with its exception at an entry without mid |
| Webrtc.WebrtcConnection.UpdateMetaTracks | src/library/webrtc-connection/webrtc_connection.cpp:353-394 | the loop over all media tracks, and the status |
| Webrtc.WebrtcConnection.HandleSignalingMessage | src/library/webrtc-connection/webrtc_connection.cpp:407-430 | ignore, reject or apply a description, and answer an offer |
| Webrtc.WebrtcConnection.SendLocal | src/library/webrtc-connection/webrtc_connection.cpp:432-447 | metadata brought up to date, then sent with the description |
| Webrtc.WebrtcConnection.SendDescription | src/library/webrtc-connection/webrtc_connection.cpp:432-458 | sends with updated metadata; a new offer after an answer if negotiation is needed |
| Webrtc.WebrtcConnection.ListTracks | src/library/webrtc-connection/webrtc_connection.cpp:329-340 | the loop: one entry and one media track for each, in order |
| Webrtc.WebrtcConnection.CreateTracks | src/library/webrtc-connection/webrtc_connection.cpp:324-351 | entries and media tracks appended in order, then the local description; while an offer of the device is not answered, an exception that leaves the tracks listed |
| EventQueue.EventQueueImpl.Post | src/modules/event-queue/event_queue_impl.cpp:21-26 | queued at the end, a waiting runner notified |
| EventQueue.EventQueueImpl.AddWork | src/modules/event-queue/event_queue_impl.cpp:28-32 | count up, nobody notified |
| EventQueue.EventQueueImpl.RemoveWork | src/modules/event-queue/event_queue_impl.cpp:34-39 | count down, a waiting runner notified |
| EventQueue.EventQueueImpl.EnterPop | src/modules/event-queue/event_queue_impl.cpp:44-58 | waits iff the queue is empty and work is left |
| EventQueue.EventQueueImpl.ResumePop | src/modules/event-queue/event_queue_impl.cpp:47-58 | after the wait: the first event, the null event, or another round |
| Hex.ToHex | src/modules/rtsp-client/rtsp_client.cpp:44-52 | two lower-case digits for each octet |
| Hex.FromHex | src/modules/util/util.cpp:149-181 | true iff all digits are valid; the buffer after clearing and adding up the digits before the first bad one |
| Credentials.UrlEncode | test-apps/rtsp-server/src/gst-rtsp-launch.cpp:204-215 | the loop encodes character by character, padding with a space |
| Credentials.UrlDecode | src/modules/util/util.cpp:183-203 | the loop decodes escapes, drops bad ones, and gives up on a truncated one |
| CodecSelection.Track.HasParameters | src/modules/track-negotiators/h264.cpp:34-43 | the search for the three parameters finds them iff they occur in the first line |
| CodecSelection.Track.LookAt | src/modules/track-negotiators/h264.cpp:17-77 | one pass keeps the best choice so far and removes the others |
| Pcmu.PcmuPacketizer.Incoming | src/modules/rtp-packetizer/pcmu_packetizer.cpp:12-31 | the loop cuts off all whole blocks |
| RtspPorts.RtspStream.AddConnection | src/modules/rtsp-client/rtsp_stream.cpp:63-99 | a new connection takes the next number and its port; a second track joins it |
| RtspPorts.RtspStream.RemoveConnection | src/modules/rtsp-client/rtsp_stream.cpp:101-112 | removed, and a second removal does nothing |

## Left out

- Rtp.RtpSession.Outgoing: the header octets themselves are written by libdatachannel; a packet keeps number, tick, payload and the marker as far as this code sets it.
- Rtp.RtpSession.UpdateTimestamp: a packet carries the number of timestamp updates before it, not the clock value of the last one; wall-clock time is not modelled.
- Signaling.SignalingStream.HasReadObject: JSON is not parsed; an object is handled with arbitrary replies or the end of the connection, or without any, as after a parse error. Ill-typed envelopes, whose exception nothing catches, are not modelled.
- Signaling.SignalingStream.Cleanup: memory is not modelled; `self` says that the object has let go of itself, which a read that fails, or that ends on a closed stream, makes it do even while a write or the close is outstanding (`SignalingAccount.StepReleases`).
- Webrtc.WebrtcConnection.HandleSignalingMessage: the answer leaves in the same step, where the code waits for the posted state change; the track events that a remote description causes are not modelled.
- Webrtc.WebrtcConnection.CreateTracks: the track objects of the peer connection and `onTrack` are not modelled.
- ICE candidates, data channels, connection state changes: short handlers around calls into libdatachannel.
- MetaTracks.UpdateEffect: keys of an entry other than mid, trackId and error, and a `tracks` value that is no array, are not modelled.
- EventQueue.EventQueueImpl.EnterPop: one runner; `workCount_` is unbounded.
- CodecSelection.Track.Match: the feedback lines removed from the chosen type and the SSRC added are edits inside libdatachannel's description.
- Opus, PCMU and VP8 negotiators, describe headers, control attributes, CoAP and stream channels: short handlers around library calls.
- TURN server lists, OAuth, digest authentication, IAM, sockets, curl and FIFO files: calls into other libraries.
