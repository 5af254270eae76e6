# A Dafny model of go-streaming

I2P streaming gives applications an ordered byte stream over a network that loses, repeats
and reorders messages. This project models the reliable-stream engine (`stream.go`), the wire
codec (`packet.go`) with the two views of the signed bytes (`crypto.go`), the connection
limiter (`limits.go`) and the control-block cache (`tcb_cache.go`), and proves what they are
for: that the bytes read are the bytes written, in order and each once, and what exactly stands
between the code and that promise.

## How it is built

Every handler exists twice. `Stream.StreamConn` has the connection's own maps and counters and
methods with the source's branches and loops that update them in place; `Codec`, `Signing`,
`Limits.ConnectionLimiter` and `Congestion.TcbCache` do the same for their files. Each method
is proved equal to a function on values (`Receiver`, `Sender`, `Connection`, `Timing`,
`Congestion`, `Limits`), and those functions are what the theorems are about.

| file | contents |
|---|---|
| Serial | 32-bit sequence numbers, the serial comparisons, the indices they stand for |
| Packet, Codec, CodecProofs, Format, Signing | packets, bytes, the round trips, the layout byte by byte, the signed bytes |
| Receiver, Choke | reordering, NACK list, receive buffer, choke signals |
| Timing, Congestion | RTT, timeout and backoff; windows and the cache between connections |
| Sender | tracking, acknowledgement, fast retransmission, timeouts |
| Connection, StreamConn | one connection as a value and as an object |
| Protocol, ProtocolSteps | two connections and a network; the invariant every step keeps |
| Delivery, Requests, Comparisons, Refinement, Wire | what follows from the invariant, in every reachable state |
| Runs | building runs of the protocol |
| Boundaries, Transfer, Overflow, Acknowledging | what gets through and where the guarantees end, exactly, and runs that get there |
| Handshake | SYN, SYN-ACK and final ACK; it ends in a starting state of the protocol |
| Teardown | CLOSE and RESET, and the whole dispatch |
| Limits, LimitProofs, OpenStreams | the limiter, the limiter that forgets nothing, the streams really open |

In `Protocol`, a packet once sent stays deliverable for ever: never delivering it is loss,
delivering it again is duplication, any order is allowed. Ghost fields carry the unbounded
index of each packet, the log of everything sent, the bytes ever written to the receive buffer
and the bytes returned by `Read`. A step is one handler under the connection's lock, one chunk
of `Write` after a wait for window space, one timer tick, one `Read` or one keep-alive ACK.
Times are arbitrary integers. The network may not deliver a packet whose numbers are 2^31 or
more behind the next expected number or behind the end of the send window.

## What the proofs brought to light

* **The next chunk is not always taken.** Its arrival delivers it if and only if the side is
  established and the wire number is not 0 (`Boundaries.NextIsDeliveredExactly`). There are two
  ways to fail:
  * *Number 0.* A data packet whose number is 0 is dispatched as a plain ACK
    (`stream.go:2171-2176`) and never delivered (`Boundaries.LostAtZero` is a run). So no direction
    of any connection gets past the first wrap-around (`Boundaries.StreamEndsAtZero`). Up to there
    everything can get through: between established sides a stream can be sent and read to its
    last byte if and only if none of its chunks gets the number 0 (`Transfer.TransfersExactly`).
  * *A late final ACK.* A listener that still waits for it takes any packet without SYN, CLOSE and
    RESET for it and drops the payload (`stream.go:2164`, `stream.go:2224-2243`). If that packet is the first
    chunk, the chunk is lost until it is sent again (`Boundaries.SwallowedAsFinalAck` is a run).
* **An ACK on a data packet can leave packets tracked.** It advances `ackThrough` but cleans
  nothing (`stream.go:2720-2722`), and a plain ACK that says the same is then not new
  (`stream.go:2664`). Over every run, more gets cleaned if and only if a plain ACK arrives that is
  ahead of everything acknowledged before (`Acknowledging.CleanedOverRuns`). If the ACK on data
  covered everything sent, no such ACK can come before something new is written
  (`Acknowledging.StaysTracked`), and timeouts go on to the last retry
  (`Sending.TimeoutsTerminate`); `Acknowledging.AckedButTracked` is a run into that state, and
  `Acknowledging.ArrivalOrderDecides` shows that the order of two arrivals makes the difference.
* **Not every delivered data packet is acknowledged.** It is answered if and only if it is early, or
  next and not taken in silence: a choked receiver with nothing missing takes the next packet
  without a word (`Acknowledging.AnsweredExactly`; `Acknowledging.UnansweredIsReached` is a run from
  every start whose window fills more than 8/10 of the buffer). Duplicates are dropped in silence
  (`Acknowledging.DuplicateGetsNoAnswer`), so a lost ACK is not repeated for a retransmission. So
  while a choked receiver that misses nothing is neither read nor sends a keep-alive, whatever
  arrives in order leaves its peer without an answer: the peer cleans nothing beyond what earlier
  answers say, though everything may have arrived (`Acknowledging.HushedOverRuns`), and its timeouts
  go on to the last retry.
  Apart from answers to data, what carries an acknowledgement during the transfer is own data, the
  unchoke signal of `Read` and the keep-alive.
* **The receive buffer drops its oldest bytes when it overflows.** What `Read` returned and can still
  return is everything that arrived if and only if that never happened (`Delivery.EndToEnd`); it
  happens exactly when a packet is taken whose bytes, with those it makes deliverable, do not fit
  beside the unread ones (`Overflow.OverflowsExactly`). A run gets there from every start with both
  sides established whose window, cached say, lets one side send more than the other's buffer
  holds before it comes to number 0 (`Overflow.OverflowIsReached`).
* **MTU agreement needs `uint16(mtu) != 0`** (`Handshake.HandshakeAgreement`, an if and only if). A
  listener with an MTU of 65536 advertises 0; the client then assumes 1730 and the listener
  computes 0. The loop of `Write` comes to an end if and only if the negotiated MTU is not 0 or
  there is nothing to do (`Connections.WriteStopsExactly`), so no `Write` of that listener ever
  does: it sends empty packets for ever (`Handshake.ListenerSpins`, a handshake that gets there).
* **Not choking does not mean at most 80 % full**: a check is skipped if the usage equals that of
  the last check (`Choking.ShortcutMissesExactly`, reached in `Choking.ShortcutIsReached`).
* **The cache does not check its dampening factors.** Started from nothing, every history keeps
  2 <= cwnd <= 128 if and only if the cache is off or its window factor is below 129/128
  (`Congestion.BoundsHoldExactly`). `Put` averages with an expired entry if no
  lookup or clean-up came first (`Congestion.CleanupVisibleToPutExactly`).
* `Unmarshal` panics exactly on inputs that announce n > 0 NACKs and have a length of at least 22
  and 17 + 4n but less than 22 + 4n (`packet.go:630-638`, `Codec.PanicsExactly`); 22 bytes with one
  NACK are the shortest (`Codec.ShortInputPanics`).
* **`MaxConcurrentStreams` bounds a counter, not the open streams.** It is documented as a limit on
  incoming and outgoing streams together (`limits.go:29-31`). An incoming attempt is counted when
  it passes the limiter, before its signature is checked, the connection made, the SYN-ACK sent
  and the queue found to have room (`stream.go:1271-1286`), and no failure there uncounts it;
  dialled connections are not counted, but closing one decrements the counter
  (`stream.go:3322-3328`); and a stream that its peer closes is never uncounted
  (`stream.go:2275-2282`, `stream.go:3285-3287`). `OpenStreams.OpenStreamsAre` gives the difference
  over every run. Too many: streams come to outnumber the counter exactly when a dialled connection closes while the counter
  has none to spare (`OpenStreams.OutnumberedExactly`); the limit on open streams is kept if and
  only if no attempt passes the limiter while they are at it (`OpenStreams.OpenWithinLimitExactly`,
  so always if no dialled connection is closed), and `OpenStreams.OverAdmitted` is a run that
  breaks it. Too few: a counter at the limit stays there until a close is reported
  (`OpenStreams.NeverFreed`), and, with the total rate limits off, as many failed attempts as the
  limit allows fill it and lock everyone out without a stream ever open
  (`OpenStreams.FailuresLockOut`).
* **Retransmissions are measured.** The RTT sample of an ACK is the time since the last transmission
  of the packet it names, also when that was a retransmission
  (`Sending.SampleIsOfLastTransmission`), which section 3 of RFC 6298 forbids (Karn's algorithm).
* **`SignPacket` signs what its receiver cannot read.** It checks `FromDestination` and the SIGNED
  flag (`crypto.go:47-55`). The receiver can parse the signed packet if and only if FROM is flagged,
  the options fit their 16-bit size and the transient key type is known, and then it verifies it
  on exactly the bytes that were signed (`Signing.VerifiableExactly`).

## Model

| member | source | states |
|---|---|---|
| Serial.SerialIsExact | stream.go:96-118 | the signed-difference comparisons answer as comparing the unbounded indices, in every epoch, while these are less than 2^31 apart |
| Serial.DiffIsExact | stream.go:123-125 | the forward distance is the difference of the indices within one epoch |
| Serial.AntisymmetricExactlyOffAntipode | stream.go:96-112 | two numbers are less than each other exactly at distance 2^31; elsewhere the comparison is that of section 3.2 of RFC 1982 |
| Packets.DestinationRoundTrip | packet.go:507-530 | parsing a serialised destination followed by anything gives it back |
| Packets.ParsedDestinationIsPrefix | packet.go:507-530 | a parsed destination's serialisation is exactly the prefix it was parsed from |
| Codec.MarshalNacks | packet.go:207-221 | count byte and big-endian words, in order |
| Codec.CalculateFromSize | packet.go:148-160 | size of FROM, or the missing-destination error |
| Codec.CalculateSignatureSize | packet.go:164-173 | size of the signature, or the error for an unknown length |
| Codec.CalculateOfflineSize | packet.go:177-187 | size of the offline signature, or the error if there is none |
| Codec.CalculateOptionSize | packet.go:317-340 | the first size error in source order, else the option size cut to 16 bits |
| Codec.CalculateTotalOptionSize | packet.go:343-353 | the sum of the present options' sizes modulo 2^16 |
| Codec.MarshalHeader | packet.go:191-232 | the required fields at their places |
| Codec.MarshalSimpleOptions | packet.go:236-263 | delay, FROM and maximum size, in that order, each only if flagged |
| Codec.MarshalOffline | packet.go:284-313 | the offline signature's bytes, or the length error of its key or signature |
| Codec.MarshalSignature | packet.go:267-280 | the signature, zeros for an unsigned packet, or the length error |
| Codec.Marshal | packet.go:390-418 | the whole encoding or the first error, equal to the reference encoder |
| Codec.UnmarshalNacks | packet.go:458-477 | the words that follow the count, in order |
| Codec.UnmarshalHeader | packet.go:622-645 | the required fields, the offset of the option area and its size, or a panic |
| Codec.UnmarshalDelay | packet.go:481-490 | the field if flagged, or too short; the offset moves past it |
| Codec.UnmarshalFrom | packet.go:507-530 | the destination if flagged, or its errors; the offset moves past what was parsed |
| Codec.UnmarshalMaxSize | packet.go:494-503 | the field if flagged, or too short; the offset moves past it |
| Codec.UnmarshalOffline | packet.go:553-617 | expiry, transient key and destination signature with their lengths, or their errors |
| Codec.UnmarshalSignature | packet.go:534-549 | as many bytes as the sender's destination calls for, or the error |
| Codec.UnmarshalOptions | packet.go:654-673 | the five option fields in their fixed order within the option area |
| Codec.Unmarshal | packet.go:676-707 | for every input: the packet or the first error, equal to the reference decoder, or a panic |
| Codec.PanicsExactly | packet.go:622-645 | a read behind the NACKs is out of range if and only if the input is not readable, and which inputs these are |
| Codec.ShortInputPanics | packet.go:630-638 | one of them |
| Codec.OptionSizeIsLength | packet.go:317-353 | the separately added-up option size is the number of option bytes marshalled |
| CodecProofs.UnmarshalUndoesMarshal | packet.go:390-418 | unmarshalling a marshalled canonical packet restores every field |
| CodecProofs.ParsedIsCanonical | packet.go:676-707 | what Unmarshal returns is canonical, and the input is its header, options, unclaimed option bytes and payload |
| CodecProofs.MarshalUndoesUnmarshal | packet.go:676-707 | re-marshalling a parsed packet restores the input if and only if the fields fill the option area exactly |
| CodecProofs.CanonicalExactly | packet.go:676-707 | the canonical packets are exactly what Unmarshal can return |
| CodecProofs.DecodeExactly | packet.go:676-707 | an input is parsed to p if and only if it is p's header, options, any unclaimed option bytes and payload, and p is canonical |
| CodecProofs.EncodeExactly | packet.go:390-418 | which packets marshal, in terms of flags, fields and lengths, and which error is the first otherwise |
| CodecProofs.RoundTripExactly | packet.go:390-418 | a packet that marshals survives the wire if and only if it is canonical |
| Format.NumbersAreBigEndian | packet.go:191-232 | numbers are written and read most significant byte first |
| Format.FlagsAreBits | packet.go:14-70 | each flag is the bit at its place |
| Format.HeaderLayout | packet.go:191-232 | every required field of an encoded packet by its offset, then the options, then the payload |
| Format.OptionLayout | packet.go:236-313 | every optional field by its offset, in the order delay, FROM, maximum size, offline signature, signature |
| Format.DestinationLayout | packet.go:507-530 | keys, certificate type, length and data of a destination by their offsets |
| Format.RefusedExactly | packet.go:622-645 | which of the three length errors an input gets before any option is read |
| Format.SignatureSizeExactly | packet.go:801-839 | the signature length of every destination: 40 without a certificate, by the type in the first two bytes of a KEY certificate, 64 otherwise |
| Format.KeySizeExactly | packet.go:852-876 | the length of a public key of each of the nine types, 0 for all others |
| Format.UnmarshalTakes | packet.go:534-617 | the signature, offline signature and transient key that Unmarshal takes have these lengths |
| Format.Ed25519HandshakeSurvives | packet.go:834-839 | the handshake between Ed25519 destinations survives the wire with signatures of 64 bytes |
| Format.Ed25519CloseSurvives | stream.go:3353-3379 | so does a CLOSE, and any other length of signature is refused |
| Format.HandshakeFields | stream.go:682-698 | SYN, SYN-ACK and final ACK field by field and flag by flag |
| Signing.FindSignatureOffset | crypto.go:320-364 | the added-up offset is header, NACKs and the option bytes in front of the signature |
| Signing.ZeroRange | crypto.go:59-76 | zeroes exactly a range of the array in place |
| Signing.PrepareDataForSigning | crypto.go:59-76 | the encoding with the signature range zeroed, or the error |
| Signing.MarshalWithZeroedSignature | crypto.go:140-164 | the encoding of the packet with a blank signature, zeroed again at the offset |
| Signing.SignPacket | crypto.go:27-44 | only the signature changes, to what the key answers on the signing bytes; it fails in exactly the listed cases |
| Signing.OffsetIsWhereMarshalPutIt | crypto.go:320-364 | the independently computed offset lands where Marshal put the signature, for every flag combination |
| Signing.VerifiedOnBlankSignature | crypto.go:140-164 | the second zeroing changes nothing: a packet is verified on its encoding with a blank signature |
| Signing.VerifiableExactly | crypto.go:47-55 | of the packets that can be signed the receiver parses exactly those with FROM flagged, options within 16 bits and a known transient key type, and verifies them on the bytes the sender signed |
| Signing.SignatureCoversEveryField | crypto.go:106-122 | two packets verified on the same bytes differ at most in the signature |
| Receiving.OnDataValid | stream.go:2792-2815 | after any data packet: buffered keys are their packets' numbers, ahead by less than 2^31; NACKed numbers are not buffered and 0 to 254 ahead; the expected packet is never left buffered |
| Receiving.OnReadValid | stream.go:1848-1864 | Read keeps all that, and its delivery attempt finds nothing to deliver |
| Receiving.NackListBounded | stream.go:2949-2967 | at most 255 numbers, and a full list holds its whole window |
| Receiving.FullListHasAll | stream.go:2895-2915 | the capacity break never drops a missing number |
| Receiving.AcceptExact | stream.go:2772-2787 | while packets lie within 255, the NACK list stays precisely the missing numbers below the highest buffered one |
| Receiving.AcceptTracks | stream.go:2703-2734 | one arrival at any distance below 2^31 appends exactly the chunks that became deliverable, in order |
| Receiving.AnyArrivalOrder | stream.go:2792-2851 | for any arrival order with loss, duplicates and gaps the buffer receives the stream from the first chunk to the expected one, each once and in order |
| Choking.EventSignals | stream.go:2738-2768 | at most one signal per event, exactly when the state changes, with its threshold |
| Choking.ArrivalExactly | stream.go:2703-2815 | what every arrival sends, in order, and when it chokes or unchokes, in terms of the usage before and after |
| Choking.ReadExactly | stream.go:1830-1864 | Read returns the first bytes, as many as there are and fit, leaves the others, and unchokes exactly below 3/10 |
| Choking.SignalsAlternate | stream.go:2738-2768 | over every run choke and unchoke signals alternate |
| Choking.UnchokesNeedReads | stream.go:1848-1864 | k unchokes mean that more than k times half the buffer size was read |
| Choking.ShortcutMissesExactly | stream.go:2738-2748 | "not choking implies at most 80 % full" fails after the check exactly when the shortcut is taken above the threshold |
| Choking.ShortcutIsReached | stream.go:2738-2748 | for every buffer and every chunk of more than 8/10 of it, a run of three events that ends in that case |
| Timing.EstimatorStable | stream.go:2321-2369 | over any mix of samples in [lo, hi] and backoffs: SRTT in [lo, hi], RTTVAR at most max(hi/2, hi-lo), RTO in [100 ms, 45 s] |
| Timing.SampledMoves | stream.go:2321-2353 | the first sample is taken over with half of it as variance; later ones weigh 1/8 in SRTT and their distance to the old SRTT 1/4 in RTTVAR |
| Timing.SrttConverges | stream.go:2321-2353 | k equal samples leave at most (7/8)^k of the distance between SRTT and sample, and 8 ns |
| Timing.RtoExactly | stream.go:2358-2369 | SRTT + 4 RTTVAR, but no less than 100 ms and no more than 45 s |
| Timing.FreshIsBounded | stream.go:494-532 | a connection without cached data starts within these bounds |
| Timing.CacheRtoWithinGranularity | tcb_cache.go:308-327 | the cache's RTO exceeds the connection's by at most 1 ms, and when exactly it does |
| Timing.BackoffDoubles | stream.go:1971-1983 | k backoffs give min(45 s, 2^k times the RTO), rule 5.5 of section 5 of RFC 6298 |
| Congestion.SlowStartDoubles | stream.go:2404-2426 | slow start in closed form: 2^k times the window, meeting the threshold exactly |
| Congestion.AvoidanceAddsOne | stream.go:2404-2426 | congestion avoidance in closed form: plus k, up to 128 |
| Congestion.LossThenLinear | stream.go:2486-2500 | a loss halves the window to no less than 2, and growth after it is linear |
| Congestion.TcbCache.Get | tcb_cache.go:100-145 | the dampened entry or a miss; an expired entry is dropped |
| Congestion.TcbCache.Put | tcb_cache.go:149-195 | a fresh entry, or the average with the old one |
| Congestion.StoredExactly | tcb_cache.go:149-195 | RTT, variance and window each become the average with the stored one, cut; a new entry holds them as they are; other entries stay |
| Congestion.FoundExactly | tcb_cache.go:99-146 | found if and only if not older than the time to live, and then each value times its own factor, cut, the window at least 1 |
| Congestion.AppliedExactly | tcb_cache.go:261-300 | a larger window, a positive RTT and a positive variance are taken over, with the threshold and the timeout that follow |
| Congestion.TcbCache.CleanupExpired | tcb_cache.go:214-235 | exactly the expired entries go, and their number is returned |
| Congestion.WindowsBoundedAcrossConnections | tcb_cache.go:261-289 | while the window factor is below 129/128, 2 <= cwnd <= 128 and 2 <= ssthresh <= 128 in every history of acknowledgements, losses, closes into the cache and openings from it |
| Congestion.BoundsHoldExactly | tcb_cache.go:127-135 | over all histories from nothing, those bounds hold if and only if the cache is off or the unchecked factor is below 129/128 |
| Congestion.WindowSizeLagsExactly | tcb_cache.go:281-289 | windowSize differs from cwnd after opening exactly when the cache raised cwnd, until the next acknowledgement or loss |
| Congestion.CleanupInvisibleToGet | tcb_cache.go:214-235 | clean-up changes no later lookup |
| Congestion.CleanupVisibleToPutExactly | tcb_cache.go:167-186 | it changes what Put stores exactly when there was an expired entry to blend with |
| Sending.BatchInPairs | stream.go:2433-2481 | a batch in closed form: per number, every two NACKs fire once and the odd one is stored; no stored count reaches the threshold |
| Sending.BatchEffects | stream.go:2433-2481 | a batch halves the window once if anything fires and never otherwise; each firing adds one retry; stored packets stay as sent |
| Sending.FastRetransmitAccounting | stream.go:2433-2481 | over any run of whole packets, ticks and writes: NACKs received and stored at the start are used up in pairs, one retransmission each, are still stored, or were overtaken by a new acknowledgement of the number that does not NACK it |
| Sending.DiscardsExactly | stream.go:2997-3008 | a new acknowledgement drops a count if and only if it covers the number and does not NACK it itself |
| Sending.TwoNacksResendOnce | stream.go:2433-2481 | two plain acknowledgements that both NACK a number make it be resent exactly once, also if both are new |
| Sending.AckDoes | stream.go:2660-2678 | everything that a plain acknowledgement does to the sending half: ackThrough, tracked packets, timer, window |
| Sending.SampleIsOfLastTransmission | stream.go:2391-2400 | the sample is the time since the last transmission of the named packet, also of a retransmission |
| Sending.TickExactly | stream.go:2020-2036 | what a tick resends, when it gives up, and when what it resent is overdue again |
| Sending.TimeoutsTerminate | stream.go:1955-2036 | the sum of remaining retries falls at every overdue tick; RTO is the k-fold backoff |
| Sending.TimeoutAfterTicks | stream.go:1971-1983 | after k overdue ticks RTO is min(45 s, 2^k times the starting one) |
| Sending.GivesUpInTime | stream.go:1988-2015 | with n packets in flight the connection gives up within 8 n overdue ticks |
| Connections.OnPacketValid | stream.go:2159-2183 | receiver, NACK-count and window invariants survive every packet |
| Connections.ChunksArePrefix | stream.go:1725-1743 | the chunks of Write are nonempty, fit the MTU and join to a prefix of the data |
| Connections.ChunksAreCut | stream.go:1725-1743 | chunk i is bytes i * MTU to min((i + 1) * MTU, length) of the data |
| Connections.NegotiatedIsSmaller | stream.go:926-937 | the negotiated MTU is the smaller one of both, or the own one if the peer's is not known |
| Connections.DataPacketsAre | stream.go:1649-1667 | the packets of the chunks, field by field, numbered one after the other |
| Connections.ResentExactly | stream.go:3029-3055 | each firing puts the stored packet on the wire if it is tracked still, and nothing else |
| Stream.StreamConn.Dial | stream.go:494-532 | the fields of a new outgoing connection |
| Stream.StreamConn.Accept | stream.go:1179-1236 | the fields of a connection made for a SYN |
| Stream.StreamConn.ApplyCachedData | tcb_cache.go:261-304 | window and timer from the cache |
| Stream.StreamConn.SendSyn | stream.go:642-698 | the SYN sent asks for no ACK to be read, and any listener that opens a connection for it expects exactly the number sent next, and knows the stream ID and MTU |
| Stream.StreamConn.SendSynAck | stream.go:1384-1421 | a client takes the SYN-ACK sent if and only if this side expects the client's next number, and then expects this side's, and knows its stream ID and MTU |
| Stream.StreamConn.PerformHandshake | stream.go:585-599 | SYN sent; if the SYN-ACK is accepted, its numbers, stream ID and MTU taken over, final ACK sent and established |
| Stream.StreamConn.ExtractRemoteMTU | stream.go:838-853 | the offered MTU, or the default if absent or 0 |
| Stream.StreamConn.ProcessSynAck | stream.go:783-822 | accepts exactly an acknowledgement of the own SYN and takes over numbers, stream ID and MTU; otherwise nothing changes |
| Stream.StreamConn.CompleteHandshake | stream.go:602-618 | final ACK sent and established, or nothing changed |
| Stream.StreamConn.CalculateSequenceGap | stream.go:2874-2890 | the distance ahead, at most 255 |
| Stream.StreamConn.AddMissingSequences | stream.go:2895-2915 | adds exactly the numbers of the gap that are not buffered, whether or not the loop stops at the capacity |
| Stream.StreamConn.GetNackListSlice | stream.go:2949-2967 | numbers of the list without repetition, all of them if they fit |
| Stream.StreamConn.SendAck | stream.go:3087-3106 | one ACK for recvSeq-1 that NACKs exactly the numbers of the list |
| Stream.StreamConn.SendChokeSignal | stream.go:3112-3132 | the same with the choke delay; choking |
| Stream.StreamConn.SendUnchokeSignal | stream.go:3137-3157 | the same with delay 0; not choking |
| Stream.StreamConn.DeliverBufferedPackets | stream.go:2819-2851 | the contiguous run of buffered packets is delivered and nothing else |
| Stream.StreamConn.ManageChokeState | stream.go:2738-2748 | choke state, last check and signals of the specification |
| Stream.StreamConn.ProcessInSequencePacket | stream.go:2703-2734 | delivery, piggybacked ACK without clean-up, choke check and conditional ACK, with exactly these packets sent |
| Stream.StreamConn.HandleOutOfOrderPacket | stream.go:2772-2787 | packet buffered, NACK list extended, one ACK sent |
| Stream.StreamConn.HandleData | stream.go:2792-2815 | new connection state and control packets sent, for expected, old and early packets |
| Stream.StreamConn.ConsumeBufferData | stream.go:1830-1844 | returns the first readable bytes and leaves exactly the rest |
| Stream.StreamConn.HandlePostReadActions | stream.go:1848-1864 | delivery of what is ready, unchoke below 30 % |
| Stream.StreamConn.Read | stream.go:1882-1905 | the bytes returned, the new connection state and the packets sent |
| Stream.StreamConn.UpdateRttEstimate | stream.go:2321-2353 | SRTT and RTTVAR of section 2 of RFC 6298 with truncation |
| Stream.StreamConn.CalculateRto | stream.go:2358-2369 | SRTT + 4 RTTVAR within [100 ms, 45 s] |
| Stream.StreamConn.MeasureRttFromAck | stream.go:2391-2400 | a sample if and only if the acknowledged packet is still tracked |
| Stream.StreamConn.UpdateCongestionWindow | stream.go:2404-2426 | one growth step |
| Stream.StreamConn.ReduceCongestionWindow | stream.go:2486-2500 | one halving |
| Stream.StreamConn.CleanupAckedPackets | stream.go:2974-3024 | every packet at or below the ACK goes, NACKed or not; counts go unless NACKed in the same packet |
| Stream.StreamConn.RetransmitPacket | stream.go:3029-3055 | the stored packet is resent, one retry counted, or nothing if it is gone |
| Stream.StreamConn.HandleNacks | stream.go:2433-2481 | the batch of the specification, and exactly the fired packets on the wire |
| Stream.StreamConn.HandleOptionalDelay | stream.go:2619-2654 | choked for a second from 60001 on, unchoked below |
| Stream.StreamConn.HandleAck | stream.go:2660-2678 | a new ACK measures, cleans and grows; then NACKs, then the delay field |
| Stream.StreamConn.HandleFinalAck | stream.go:2224-2258 | ackThrough taken from the packet, established |
| Stream.StreamConn.ProcessPacket | stream.go:2129-2183 | the dispatch once the receive loop runs: new connection state, whether it was closed, and the packets sent |
| Stream.StreamConn.HandleClose | stream.go:2262-2295 | closed by a genuine CLOSE while established, with a CLOSE in return, or closing; otherwise nothing |
| Stream.StreamConn.HandleReset | stream.go:2299-2316 | closed by a genuine RESET; otherwise nothing |
| Teardown.ClosesExactly | stream.go:2262-2316 | exactly which packets close an open connection |
| Teardown.CloseReaches | stream.go:3353-3379 | the CLOSE that one side sends closes an established or closing peer that can verify it, and no other |
| Teardown.TeardownOverRuns | stream.go:2109-2183 | whatever sequence of packets an established connection gets, it is closed at the end if and only if one was a genuine CLOSE or RESET, and otherwise as if no CLOSE or RESET had come: data that such a packet overtook is still delivered |
| Stream.StreamConn.SendDataChunk | stream.go:1649-1667 | the packet is sent and the number moves on; it is tracked under its number unless it is empty |
| Stream.StreamConn.TrackPacketForRetransmission | stream.go:3182-3198 | packets with a payload, and only these, are tracked |
| Stream.StreamConn.WriteChunks | stream.go:1725-1743 | the stretch of Write up to a full window or the end of the data: what is cut, numbered, tracked and sent |
| Connections.WriteStopsExactly | stream.go:1725-1743 | the loop reaches the end of its data or a full window if and only if there is nothing to do or the negotiated MTU is not 0 |
| Stream.StreamConn.FindTimedOutPackets | stream.go:1955-1966 | exactly the packets older than RTO |
| Stream.StreamConn.ApplyExponentialBackoff | stream.go:1971-1983 | RTO doubled, at most 45 s |
| Stream.StreamConn.RetransmitTimedOutPackets | stream.go:1988-2015 | puts the stored packets on the wire, each once, until one has been resent eight times |
| Stream.StreamConn.CheckRetransmissions | stream.go:2020-2036 | one tick, for whatever order the map is visited in: unless it gives up exactly the overdue packets go out, each once; nothing if RTO is 0 |
| ProtocolSteps.AckSends | stream.go:2660-2678 | an ACK from less than 2^31 back is new exactly if the unbounded counters say so, and then exactly the chunks below it are gone |
| ProtocolSteps.CleanFlight | stream.go:2974-2993 | after a new cumulative ACK the tracked packets are exactly those from the acknowledged index on |
| ProtocolSteps.DataReceives | stream.go:2792-2815 | a data packet of any epoch keeps the receiver's invariant and delivers exactly if it is next |
| ProtocolSteps.ControlTruthful | stream.go:3087-3106 | every ACK sent reports what was delivered and requests only what was sent |
| ProtocolSteps.StepKeepsInv | stream.go:2129-2183 | every step of either side keeps the invariant of both; nothing logged, delivered or acknowledged is taken back |
| Delivery.RunInvariant | stream.go:2129-2183 | the invariant holds at every point of every run, and logs, deliveries and acknowledgements only grow |
| Delivery.EndToEnd | stream.go:1882-1905 | in every reachable state the bytes written to the buffer are a prefix of the chunks the peer's Write sent; what Read returned and can still return is all of them if and only if the buffer never overflowed |
| Delivery.WriteExtendsStream | stream.go:1725-1743 | a stretch of Write is a series of protocol steps that append exactly the bytes taken |
| Delivery.NothingLost | stream.go:2974-3024 | the tracked packets are exactly the chunks from the last cleaned one on, at most 128, each as first sent; all earlier ones are in the peer's buffer |
| Delivery.RemovedWasWritten | stream.go:2974-3024 | over whole runs and for either side, a packet no longer tracked had been written to the peer's buffer |
| Delivery.ResendsAreOriginals | stream.go:3029-3055 | every retransmission is a packet sent before |
| Delivery.RequestsCanBeServed | stream.go:2433-2481 | every NACK is serially greater than its packet's AckThrough and names a chunk the requester has by now or that is still tracked |
| Delivery.NackListExact | stream.go:2866-2915 | in every reachable state the NACK list is precisely the missing chunks below the highest buffered one, fewer than 128 |
| Requests.RequestsExactly | stream.go:3087-3106 | every control packet a step sends is addressed to the peer's stream, acknowledges all that was delivered, and NACKs exactly the chunks missing below the highest buffered one, each once |
| Requests.EmittedExactly | stream.go:3087-3157 | the control packets of every handler field by field, one for each kind in order |
| Requests.WrittenExactly | stream.go:1649-1667 | every data packet a step sends, field by field, and that it is tracked from then on |
| Requests.SignalsReach | stream.go:2619-2654 | a choke signal stops an established peer for a second, an unchoke signal frees it, an ACK does neither |
| Requests.DelayExactly | stream.go:2619-2654 | for any packet: a delay of more than 60000 chokes, any other unchokes, none changes nothing |
| Comparisons.DataComparisons | stream.go:2804-2811 | old, next or early, and the gap, are decided as on unbounded indices, in every state with the protocol's invariant, in any epoch |
| Comparisons.AckComparisons | stream.go:2974-3008 | so are whether an ACK is new, which tracked packets and which stored NACK counts it covers |
| Comparisons.ReachableRecents | stream.go:2997-3008 | in every reachable state the stored NACK counts are of chunks less than 2^31 behind the end of the window |
| Refinement.MovesKeepOrder | stream.go:1596-1624 | the unbounded machine keeps cleaned <= acked <= delivered <= sent <= cleaned + 128 and delivers a chunk only if it is next or was buffered |
| Refinement.StepRefines | stream.go:2129-2183 | every step over wrapped numbers is an allowed step of the machine that compares plain integers |
| Refinement.RunRefines | stream.go:2129-2183 | every run of the protocol is step by step a run of that machine |
| Wire.SentPacketsSurvive | stream.go:3161-3178 | every packet a connection ever sends marshals, can be read, and is restored field by field |
| Boundaries.NextIsDeliveredExactly | stream.go:2159-2183 | the next chunk's arrival delivers it if and only if the side is established and the wire number is not 0 |
| Boundaries.NextCanArrive | stream.go:2792-2851 | in every reachable state the next sent chunk can be delivered at once to an established side, short of number 0 and of messages too old to be delivered |
| Boundaries.StreamEndsAtZero | stream.go:2171-2176 | no run delivers the packet numbered 0, nor sends more than a window past it |
| Boundaries.FirstChunkArrivesExactly | stream.go:2159-2183 | from every start with its sender established, the first chunk arrives in some run if and only if its number is not 0 |
| Transfer.TransfersExactly | stream.go:2171-2176 | between established sides a stream can be sent and read to its last byte if and only if none of its chunks is numbered 0 |
| Transfer.ChunkArrivesExactly | stream.go:2159-2183 | chunk i arrives in some run if and only if it comes before the first number 0 |
| Boundaries.LostAtZero | stream.go:2171-2176 | a run in which the first chunk, numbered 0, is delivered and does not arrive |
| Boundaries.SwallowedAsFinalAck | stream.go:2224-2243 | a run in which the first chunk is taken for the final ACK |
| Acknowledging.CleanedExactly | stream.go:2660-2678 | a step cleans tracked packets exactly if it takes a plain ACK ahead of everything acknowledged so far |
| Acknowledging.CleanedOverRuns | stream.go:2660-2678 | the same between any two points of any run, for either side |
| Acknowledging.ArrivalOrderDecides | stream.go:2720-2722 | an ACK on data handled before an equal plain ACK keeps everything tracked; the other way round it is cleaned |
| Acknowledging.StaysTracked | stream.go:2720-2722 | once everything sent is acknowledged, what is still tracked stays so until something new is written |
| Acknowledging.AckedButTracked | stream.go:2720-2722 | a run into a state where everything sent is acknowledged and still tracked |
| Acknowledging.DataAnsweredExactly | stream.go:2724-2734 | a data packet gets no answer if and only if it is old, or next while choked with nothing missing and no choke signal due |
| Acknowledging.AnsweredExactly | stream.go:2792-2815 | the same for every message of the protocol |
| Acknowledging.UnansweredIsReached | stream.go:2724-2734 | from every start whose window fills more than 8/10 of the buffer, a run after which the next chunk is taken without an answer |
| Acknowledging.HushedOverRuns | stream.go:2724-2734 | over any stretch of a run without Read and keep-alive a choked receiver that misses nothing sends no acknowledgement for anything in order, and its peer cleans nothing |
| Acknowledging.DuplicateGetsNoAnswer | stream.go:2805-2811 | a duplicate changes nothing and is not acknowledged |
| Acknowledging.DataLeavesSender | stream.go:2703-2734 | a data packet moves at most ackThrough: nothing is cleaned, counted, measured or grown |
| Overflow.OverflowsExactly | stream.go:2703-2734 | bytes are lost for the first time if and only if a packet is taken that does not fit: a check that could be made before |
| Overflow.OverflowIsReached | stream.go:2703-2734 | a run that overflows, from every start with both sides established whose window exceeds the peer's buffer before number 0 |
| Overflow.OverflowLosesBytes | stream.go:1830-1844 | one chunk on 65000 unread bytes, after which Read returns no prefix of the stream |
| Handshake.RunPhases | stream.go:585-618 | every run of the handshake stays within five states; no SYN-ACK is ever refused |
| Handshake.HandshakeAgreement | stream.go:783-853 | once a side is established: numbers, ACKs and stream IDs match crosswise; which MTU each side has negotiated, and that they agree exactly if the listener's 16-bit MTU is not 0 |
| Handshake.HandshakeCanComplete | stream.go:585-618 | for every sensible setup there is a run that establishes both sides |
| Handshake.ListenerSpins | stream.go:964-977 | if the listener's MTU is a multiple of 65536, a completed handshake after which none of its writes ends |
| Handshake.HandshakeStartsProtocol | stream.go:1364-1380 | the two connections are then in a starting state of the data transfer |
| Handshake.HandshakeLeaves | stream.go:495-533 | both sides then have an empty buffer of 65536 bytes, nothing in flight, no choke, and the window and timer they were given |
| Handshake.HandshakePacketsSurvive | stream.go:682-698 | SYN, SYN-ACK and final ACK survive the wire |
| Limits.PruneOldEntries | limits.go:311-320 | exactly the timestamps of the last 24 hours, in order |
| Limits.CountSince | limits.go:324-332 | how many timestamps are strictly later |
| Limits.CheckRates | limits.go:182-207 | the first exceeded of minute, hour and day, skipping limits that are off |
| Limits.ConnectionLimiter.constructor | limits.go:87-96 | no streams, no history |
| Limits.ConnectionLimiter.CheckConcurrentLimit | limits.go:169-178 | full exactly at a positive limit |
| Limits.ConnectionLimiter.CheckTotalRateLimits | limits.go:182-207 | prunes the total history and decides on it |
| Limits.ConnectionLimiter.CheckPeerRateLimits | limits.go:211-251 | prunes the peer's history and decides on it, unless there is no peer or no peer limit |
| Limits.ConnectionLimiter.RecordConnection | limits.go:255-272 | counted once in total and, with a destination, once for the peer |
| Limits.ConnectionLimiter.CheckAndRecordConnection | limits.go:135-165 | verdict and new state, in the order concurrent, total, peer |
| Limits.ConnectionLimiter.ConnectionClosed | limits.go:275-282 | one stream less, never below 0 |
| Limits.ConnectionLimiter.CleanupStaleHistory | limits.go:357-398 | every history pruned, the empty ones removed, whatever the order of visits |
| LimitProofs.PruningIsInvisible | limits.go:182-251 | with a monotone clock, pruning and clean-ups at any moment never change a verdict of the limiter that keeps every timestamp |
| LimitProofs.LimitsHoldInEveryWindow | limits.go:135-178 | under one configuration, at every instant: the connections of the last minute, hour and day respect every positive total and per-peer limit, and the activeStreams counter the concurrent limit |
| LimitProofs.NewLimitsApplyAtOnce | limits.go:99-106 | whatever configurations were in force before: a connection is accepted if and only if, counted in, it keeps every limit of the present one |
| LimitProofs.VerdictExactly | limits.go:135-251 | the verdict names the first limit reached: streams, then total, then peer, each by the timestamps of 60 s, 3600 s and 24 h |
| LimitProofs.CheckKeepsRecent | limits.go:182-251 | after a check the histories it looked at hold nothing older than a day |
| LimitProofs.TidyKeepsRecent | limits.go:357-398 | after a clean-up exactly the peers with timestamps of the last day are left, with all of these |
| OpenStreams.OpenStreamsAre | stream.go:1259-1287 | over every run, by how much the open accepted streams differ from activeStreams, failed attempts and closes by the peer included |
| OpenStreams.OutnumberedExactly | stream.go:3322-3328 | streams come to outnumber the counter exactly when a dialled connection closes while the positive counter equals them |
| OpenStreams.OpenWithinLimitExactly | limits.go:169-178 | over every run, the open streams keep the limit if and only if no attempt passes the limiter while they are at it; so always if no dialled connection is closed |
| OpenStreams.OverAdmitted | stream.go:3322-3328 | two accepted streams open under a limit of one |
| OpenStreams.NeverFreed | stream.go:2275-2282 | once the counter is at the limit, nothing is accepted until a close is reported, whatever else happens |
| OpenStreams.FailuresLockOut | stream.go:1271-1286 | as many failed attempts as the limit allows leave every later attempt refused and no stream open |

## Left out

- Stream.StreamConn.ProcessPacket: requires a state other than SynSent, in which the receive loop does not run; the SYN-ACK that is waited for there is PerformHandshake's. Checking a signature is a parameter, and a CLOSE sent in return is always signed.
- Stream.StreamConn.WriteChunks: waiting for window space, deadlines and choke waits are not steps of their own; Write is modelled chunk by chunk, and a negotiated MTU of 0 is excluded, because a method that need not end cannot be stated here; that the source then loops for ever, and only then, is Connections.WriteStopsExactly.
- Stream.StreamConn.Read: starts when data is there; waiting, deadlines and end of file are left out.
- Stream.StreamConn.SendDataChunk: a local send always succeeds; loss is the network's.
- Stream.StreamConn.RetransmitPacket: resends the stored packet value; that its bytes are the stored bytes rests on the codec round trip.
- Acknowledging.AnsweredExactly: CLOSE and RESET are not exchanged in the two-sided protocol, only in Teardown.
- Delivery.EndToEnd: safety. Liveness fails in general, as shown above; what can be delivered is Transfer.TransfersExactly and Boundaries.NextCanArrive.
- Comparisons.AckComparisons: under the network assumption stated above; comparisons of persist probes are not covered.
- Handshake.HandshakeAgreement: one SYN; a second SYN makes a second connection object, and the accept queue, access filter and replay check are left out.
- Limits.ConnectionLimiter.CleanupStaleHistory: histories are values in the map, not objects with locks of their own.
- Congestion.TcbCache.Get: dampening factors are reals, so floating-point rounding is not modelled; a negative product is taken as the smallest window.
- Choking.EventSignals: the thresholds 0.8 and 0.3 are exact ratios.
- Persist-timer probes, which put untracked bytes into the sequence space, and message-status callbacks, which drop packets before the peer acknowledges them: either would break the stream log.
- The circular buffer's own code is not part of this model; it is taken as a byte log that keeps the last `size` bytes and whose writes never fail, so that the buffer-full handler is unreachable.
- Key operations, hashing, certificate parsing beyond type and lengths, I2CP sessions, goroutines, channels, logging, addresses, profiles, access lists, pings and the manager's routing.
- Float conversion of the choke usage and of durations, and counters of bytes sent.
