/** Two connections and a network that loses, duplicates and reorders. Every packet ever
    sent stays deliverable for ever; a packet that is never delivered is lost, and a
    retransmission adds nothing. Ghost fields carry unbounded indices next to the 32-bit
    numbers and a log of everything sent. */
module Protocol {
  import opened Serial
  import opened Packets
  import opened Timing
  import opened Congestion
  import opened Connections
  import Sending
  import Receiving

  /** A packet with the index of its data chunk (for data) and the number of the peer's
      chunks that its ackThrough field acknowledges. */
  datatype Msg = Msg(p: Packet, idx: nat, ack: nat)

  datatype Side = Side(
    c: Conn,
    base: int,        // unbounded number of the first data packet
    log: seq<Msg>,    // data packets sent, by index
    ctl: set<Msg>,    // control packets sent
    rcvd: nat,        // chunks of the peer delivered in order
    acked: nat,       // own chunks the peer is known to have
    fed: seq<byte>,   // bytes ever written to the receive buffer
    out: seq<byte>,   // bytes returned by Read
    overflowed: bool) // whether the receive buffer ever held more than its size

  function Payloads(log: seq<Msg>): (r: seq<seq<byte>>)
    ensures |r| == |log|
  {
    seq(|log|, i requires 0 <= i < |log| => log[i].p.payload)
  }

  /** Chunks no longer tracked. */
  function Cleaned(x: Side): int {
    |x.log| - |x.c.snd.sent|
  }

  // ----- steps; y is the peer of x -----

  datatype Action =
    | Write(chunk: seq<byte>)
    | Deliver(m: Msg)
    | Tick(done: set<u32>, gaveUp: bool)
    | Read(n: nat)
    | KeepAlive

  /** What the network may deliver: anything the peer ever sent whose numbers are less than
      2^31 behind the next expected one and behind the end of the send window. */
  ghost predicate Deliverable(x: Side, y: Side, m: Msg) {
    && (m in y.log || m in y.ctl)
    && (m in y.log ==> x.rcvd < m.idx + HALF)
    && Cleaned(x) + MAX_WINDOW < m.ack + HALF
  }

  function Appended(before: seq<byte>, after: seq<byte>): seq<byte> {
    if |before| <= |after| then after[|before|..] else []
  }

  function Received(x: Side, o: Outcome): Side {
    x.(c := o.conn,
       rcvd := x.rcvd + SeqDiff(x.c.rcv.recvSeq, o.conn.rcv.recvSeq),
       acked := if x.c.state == SynRcvd then x.acked
                else x.acked + SeqDiff(x.c.snd.ackThrough, o.conn.snd.ackThrough),
       fed := x.fed + Appended(x.c.rcv.buf.log, o.conn.rcv.buf.log),
       overflowed := x.overflowed || |o.conn.rcv.buf.log| > o.conn.rcv.buf.size)
  }

  /** The side without its new control packets. */
  function Acted(x: Side, act: Action, now: int): Side {
    match act
    case Write(chunk) =>
      x.(c := SendChunk(x.c, chunk, now), log := x.log + [Msg(DataPacket(x.c, chunk), |x.log|, x.rcvd)])
    case Deliver(m) => Received(x, OnPacket(x.c, m.p, now))
    case Tick(done, _) => x.(c := x.c.(snd := Sending.Ticked(x.c.snd, now, done)))
    case Read(n) => x.(c := OnRead(x.c, n).conn, out := x.out + Receiving.ReadBytes(x.c.rcv, n))
    case KeepAlive => x
  }

  ghost predicate Enabled(x: Side, y: Side, act: Action, now: int) {
    match act
    case Write(chunk) =>
      x.c.state == Established && WindowOpen(x.c) && 0 < |chunk| <= NegotiatedMTU(x.c.ids)
    case Deliver(m) => Deliverable(x, y, m)
    case Tick(done, gaveUp) => x.c.state == Established && Sending.TickOutcome(x.c.snd, now, done, gaveUp)
    case Read(n) => |x.c.rcv.buf.log| > 0
    case KeepAlive => x.c.state == Established
  }

  function Kinds(x: Side, act: Action, now: int): seq<Receiving.Control> {
    match act
    case Write(_) => []
    case Deliver(m) => OnPacket(x.c, m.p, now).ctl
    case Tick(_, _) => []
    case Read(n) => OnRead(x.c, n).ctl
    case KeepAlive => [Receiving.Acknowledge]
  }

  /** One atomic step of x; control packets may be lost at once. */
  ghost predicate Step(x: Side, y: Side, act: Action, now: int, x': Side) {
    && Enabled(x, y, act, now)
    && x' == Acted(x, act, now).(ctl := x'.ctl)
    && (forall m | m in x'.ctl && m !in x.ctl :: NewControl(x', Kinds(x, act, now), m))
    && x.ctl <= x'.ctl
  }

  ghost predicate NewControl(x: Side, kinds: seq<Receiving.Control>, m: Msg) {
    m.ack == x.rcvd && exists kind :: kind in kinds && IsControl(x.c, kind, m.p)
  }

  // ----- the invariant -----

  /** The tracked packets are exactly chunks `cleaned` to the end of the log, each holding
      the packet it was sent as. */
  ghost predicate InFlight(sent: map<u32, Sending.SentPacket>, base: int, cleaned: int, log: seq<Msg>) {
    && 0 <= cleaned <= |log| <= cleaned + MAX_WINDOW
    && sent.Keys == Receiving.Span(Wrap(base + cleaned), |log| - cleaned)
    && forall k | k in sent :: Holds(sent[k].data, cleaned + SeqDiff(Wrap(base + cleaned), k), log)
  }

  ghost predicate Holds(p: Packet, i: int, log: seq<Msg>) {
    0 <= i < |log| && p == log[i].p
  }

  ghost predicate IsData(m: Msg, i: nat, base: int) {
    && m.idx == i && m.p.sequenceNum == Wrap(base + i) && |m.p.payload| > 0
    && m.p.flags == 0 && m.p.nacks == []
  }

  /** The sending half: `acked` chunks are known to have arrived, and only such were cleaned. */
  ghost predicate Sends(s: Sending.Sender, base: int, log: seq<Msg>, acked: nat) {
    && s.sendSeq == Wrap(base + |log|)
    && InFlight(s.sent, base, |log| - |s.sent|, log)
    && |log| - |s.sent| <= acked <= |log|
    && InBounds(s.window)
  }

  ghost predicate DataLog(log: seq<Msg>, base: int) {
    forall i | 0 <= i < |log| :: IsData(log[i], i, base)
  }

  ghost predicate SendSide(x: Side) {
    && Sends(x.c.snd, x.base, x.log, x.acked)
    && DataLog(x.log, x.base)
    && (x.c.state == Established || (x.c.state == SynRcvd && x.log == []))
    && (x.c.state == Established ==> x.c.snd.ackThrough == Wrap(x.base + x.acked - 1))
  }

  /** The receiving half: the NACK list is exact, everything buffered is genuine. */
  ghost predicate Receives(r: Receiving.Receiver, peerBase: int, rcvd: nat, peerLog: seq<Msg>) {
    Receiving.Valid(r) && Receiving.Exact(r) && Receiving.Tracks(r, peerBase, rcvd, Payloads(peerLog))
  }

  /** What was written to the buffer is what was read and what can still be read, unless the
      buffer ever held more than its size: then some of it is gone. */
  ghost predicate Intact(buf: Receiving.Buffer, fed: seq<byte>, out: seq<byte>, overflowed: bool) {
    if overflowed then |out| + |buf.Bytes()| < |fed|
    else |buf.log| <= buf.size && fed == out + buf.log
  }

  /** What was written to the buffer is exactly the peer's first `rcvd` chunks, in order. */
  ghost predicate Fed(fed: seq<byte>, rcvd: nat, peerLog: seq<Msg>) {
    rcvd <= |peerLog| && fed == Receiving.Concat(Payloads(peerLog)[..rcvd])
  }

  ghost predicate ReceiveSide(x: Side, y: Side) {
    && Receives(x.c.rcv, y.base, x.rcvd, y.log)
    && Fed(x.fed, x.rcvd, y.log)
    && Intact(x.c.rcv.buf, x.fed, x.out, x.overflowed)
  }

  /** A message acknowledges only what its sender had delivered, and NACKs only numbers
      ahead of that which its peer had sent. */
  ghost predicate Truthful(m: Msg, rcvd: nat, peerBase: int, peerLength: nat) {
    && m.ack <= rcvd
    && m.p.ackThrough == Wrap(peerBase + m.ack - 1)
    && !Has(m.p.flags, Flag.Syn) && !Has(m.p.flags, Flag.NoAck)
    && forall k | k in m.p.nacks :: Requests(m, k, peerBase, peerLength)
  }

  ghost predicate Requests(m: Msg, k: u32, peerBase: int, peerLength: nat) {
    var d := SeqDiff(Wrap(peerBase + m.ack), k);
    d < Receiving.MAX_NACKS && m.ack + d < peerLength
  }

  ghost predicate Messages(x: Side, y: Side) {
    && (forall m | m in x.log :: Truthful(m, x.rcvd, y.base, |y.log|))
    && (forall m | m in x.ctl :: Truthful(m, x.rcvd, y.base, |y.log|) && m.p.sequenceNum == 0)
  }

  ghost predicate Sound(x: Side, y: Side) {
    SendSide(x) && ReceiveSide(x, y) && x.acked <= y.rcvd
  }

  ghost predicate Half(x: Side, y: Side) {
    Sound(x, y) && Messages(x, y)
  }

  ghost predicate Inv(x: Side, y: Side) {
    Half(x, y) && Half(y, x)
  }
}
