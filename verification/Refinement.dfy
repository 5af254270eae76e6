/** The protocol over 32-bit numbers refines one over unbounded counters: every step of a
    reachable run is a step of a machine that compares plain integers. */
module Refinement {
  import opened Serial
  import opened Packets
  import opened Congestion
  import opened Connections
  import opened Protocol
  import opened ProtocolSteps
  import Comparisons
  import Delivery
  import Sending
  import Receiving

  // ----- the unbounded machine -----

  /** One direction of a connection: chunks sent, cleaned by acknowledgement, known to have
      arrived, delivered in order, and those that arrived ahead of their turn. */
  datatype Flow = Flow(sent: int, cleaned: int, acked: int, rcvd: int, held: set<int>)

  datatype Move = Send | Ack(a: int) | Data(i: int, a: int) | Idle

  function FirstMissing(i: int, held: set<int>): int
    decreases |held|
  {
    if i in held then FirstMissing(i + 1, held - {i}) else i
  }

  function Acknowledged(f: Flow, a: int): Flow {
    if a > f.acked then f.(acked := a, cleaned := a) else f
  }

  function Noticed(f: Flow, a: int): Flow {
    if a > f.acked then f.(acked := a) else f
  }

  function Arrived(f: Flow, i: int): Flow {
    if i < f.rcvd then f
    else if i > f.rcvd then f.(held := f.held + {i})
    else
      var n := FirstMissing(f.rcvd + 1, f.held);
      f.(rcvd := n, held := set j | j in f.held && j > n)
  }

  /** What is sent stays within the window, and only what happened is reported. */
  predicate Allowed(out: Flow, back: Flow, move: Move) {
    match move
    case Send => out.sent < out.cleaned + MAX_WINDOW
    case Ack(a) => 0 <= a <= out.rcvd
    case Data(i, a) => 0 <= i < back.sent && 0 <= a <= out.rcvd
    case Idle => true
  }

  /** A move of one side: its outgoing flow and the one coming back. */
  function Moved(out: Flow, back: Flow, move: Move): (Flow, Flow) {
    match move
    case Send => (out.(sent := out.sent + 1), back)
    case Ack(a) => (Acknowledged(out, a), back)
    case Data(i, a) => (if i == back.rcvd then Noticed(out, a) else out, Arrived(back, i))
    case Idle => (out, back)
  }

  predicate InOrder(f: Flow) {
    && 0 <= f.cleaned <= f.acked <= f.rcvd <= f.sent <= f.cleaned + MAX_WINDOW
    && forall i | i in f.held :: f.rcvd < i < f.sent
  }

  lemma {:induction false} FirstMissingBounds(i: int, held: set<int>, end: int)
    requires i <= end && forall j | j in held :: j < end
    ensures i <= FirstMissing(i, held) <= end && FirstMissing(i, held) !in held
    ensures forall j | i <= j < FirstMissing(i, held) :: j in held
    decreases |held|
  {
    if i in held {
      FirstMissingBounds(i + 1, held - {i}, end);
      forall j | i <= j < FirstMissing(i, held) ensures j in held {
        assert j == i || j in held - {i};
      }
    }
  }

  /** The unbounded machine keeps its counters in order, and delivers each chunk once. */
  lemma MovesKeepOrder(out: Flow, back: Flow, move: Move)
    requires InOrder(out) && InOrder(back) && Allowed(out, back, move)
    ensures var (o, b) := Moved(out, back, move); InOrder(o) && InOrder(b)
    ensures var (o, b) := Moved(out, back, move); forall j | back.rcvd < j < b.rcvd :: j in back.held
  {
    if move.Data? && move.i == back.rcvd {
      FirstMissingBounds(back.rcvd + 1, back.held, back.sent);
    }
  }

  // ----- the abstraction -----

  predicate Buffers(r: Receiving.Receiver, base: int, i: int) {
    Wrap(base + i) in r.held
  }

  ghost function HeldFrom(r: Receiving.Receiver, base: int, first: int, end: int): set<int> {
    set i: int | first <= i < end && Buffers(r, base, i)
  }

  ghost function FlowOf(x: Side, y: Side): Flow {
    Flow(|x.log|, Cleaned(x), x.acked, y.rcvd, HeldFrom(y.c.rcv, x.base, y.rcvd + 1, |x.log|))
  }

  function MoveOf(x: Side, act: Action): Move {
    match act
    case Write(_) => Send
    case Deliver(m) =>
      if x.c.state == SynRcvd then Idle
      else if m.p.sequenceNum == 0 then Ack(m.ack)
      else Data(m.idx, m.ack)
    case _ => Idle
  }

  // ----- buffered chunks -----

  lemma HeldAfterPop(r: Receiving.Receiver, base: int, rcvd: int, end: int)
    requires r.recvSeq == Wrap(base + rcvd) && r.recvSeq in r.held && end < rcvd + MODULUS
    ensures HeldFrom(Receiving.Pop(r), base, rcvd + 1, end) == HeldFrom(r, base, rcvd, end) - {rcvd}
  {
    var q := Receiving.Pop(r);
    var after, before := HeldFrom(q, base, rcvd + 1, end), HeldFrom(r, base, rcvd, end);
    forall i ensures i in after <==> i in before - {rcvd} {
      if rcvd < i < end { DiffIsExact(base + rcvd, base + i); }
      HeldIn(q, base, rcvd + 1, end, i);
      HeldIn(r, base, rcvd, end, i);
      hide Wrap, HeldFrom;
    }
  }

  lemma {:induction false} DrainRefines(r: Receiving.Receiver, base: int, rcvd: int, end: int)
    requires r.recvSeq == Wrap(base + rcvd) && rcvd <= end < rcvd + 0x1_0000_0000
    requires r.recvSeq in r.held ==> rcvd < end
    requires forall k | k in r.held :: 0 <= rcvd + SeqDiff(r.recvSeq, k) < end
    ensures var h := HeldFrom(r, base, rcvd, end);
            var n := FirstMissing(rcvd, h);
            && rcvd + Receiving.RunLength(r) == n
            && HeldFrom(Receiving.Drain(r), base, n + 1, end) == set j | j in h && j > n
    decreases |r.held|
  {
    hide *;
    Receiving.DrainStep(r);
    var h := HeldFrom(r, base, rcvd, end);
    HeldIn(r, base, rcvd, end, rcvd);
    FirstMissingStep(rcvd, h);
    if r.recvSeq in r.held {
      var q := Receiving.Pop(r);
      Receiving.PopShrinks(r);
      HeldAfterPop(r, base, rcvd, end) by { Words(); }
      PopIs(r, base, rcvd, end);
      DrainRefines(q, base, rcvd + 1, end);
      var n := FirstMissing(rcvd, h);
      MissingIsLater(rcvd + 1, h - {rcvd});
    } else {
      var later := HeldFrom(r, base, rcvd + 1, end);
      forall j ensures j in later <==> j in h && j > rcvd {
        HeldIn(r, base, rcvd, end, j);
        HeldIn(r, base, rcvd + 1, end, j);
      }
    }
  }

  lemma HeldIn(r: Receiving.Receiver, base: int, first: int, end: int, i: int)
    ensures i in HeldFrom(r, base, first, end) <==> first <= i < end && Wrap(base + i) in r.held
  {
    hide Wrap;
  }

  lemma FirstMissingStep(i: int, held: set<int>)
    ensures FirstMissing(i, held) == if i in held then FirstMissing(i + 1, held - {i}) else i
  {
  }

  lemma {:induction false} MissingIsLater(i: int, held: set<int>)
    ensures i <= FirstMissing(i, held)
    decreases |held|
  {
    if i in held { MissingIsLater(i + 1, held - {i}); }
  }

  lemma PopIs(r: Receiving.Receiver, base: int, rcvd: int, end: int)
    requires r.recvSeq == Wrap(base + rcvd) && r.recvSeq in r.held && rcvd < end
    requires forall k | k in r.held :: 0 <= rcvd + SeqDiff(r.recvSeq, k) < end
    ensures var q := Receiving.Pop(r);
            && q.recvSeq == Wrap(base + (rcvd + 1))
            && (forall k | k in q.held :: 0 <= rcvd + 1 + SeqDiff(q.recvSeq, k) < end)
            && (q.recvSeq in q.held ==> rcvd + 1 < end)
  {
    var q := Receiving.Pop(r);
    WrapAdd(base + rcvd, 1);
    PoppedIs(r);
    Receiving.Step(r.recvSeq, q.recvSeq);
    hide *;
    assert base + rcvd + 1 == base + (rcvd + 1);
    forall k | k in q.held ensures 0 <= rcvd + 1 + SeqDiff(q.recvSeq, k) < end {
      Receiving.Step(r.recvSeq, k);
    }
    SelfDiff(q.recvSeq);
  }

  lemma PoppedIs(r: Receiving.Receiver)
    requires r.recvSeq in r.held
    ensures Receiving.Pop(r).recvSeq == Wrap(r.recvSeq + 1) && Receiving.Pop(r).held == r.held - {r.recvSeq}
  {
    hide Wrap;
  }

  lemma HeldIndices(r: Receiving.Receiver, base: int, rcvd: nat, log: seq<Msg>)
    requires Receives(r, base, rcvd, log)
    ensures forall k | k in r.held :: 0 <= rcvd + SeqDiff(r.recvSeq, k) < |log|
    ensures r.recvSeq !in r.held && r.recvSeq == Wrap(base + rcvd)
  {
    forall k | k in r.held ensures 0 <= rcvd + SeqDiff(r.recvSeq, k) < |log| {
      assert Receiving.IsChunk(r.held[k].payload, rcvd + Receiving.Ahead(r, k), Payloads(log));
    }
    hide SeqDiff, Wrap, Receiving.Exact;
  }

  /** No number beyond the peer's log is buffered. */
  lemma NotHeldYet(r: Receiving.Receiver, base: int, rcvd: nat, log: seq<Msg>)
    requires Receives(r, base, rcvd, log) && |log| <= rcvd + MAX_WINDOW
    ensures HeldFrom(r, base, rcvd + 1, |log| + 1) == HeldFrom(r, base, rcvd + 1, |log|)
  {
    hide *;
    HeldIndices(r, base, rcvd, log);
    ReceivesIs(r, base, rcvd, log);
    Words();
    DiffIsExact(base + rcvd, base + |log|);
    var more, same := HeldFrom(r, base, rcvd + 1, |log| + 1), HeldFrom(r, base, rcvd + 1, |log|);
    forall i ensures i in more <==> i in same {
      HeldIn(r, base, rcvd + 1, |log| + 1, i);
      HeldIn(r, base, rcvd + 1, |log|, i);
    }
  }

  /** Arrival of chunk i, seen from the unbounded machine. */
  lemma DataRefines(r: Receiving.Receiver, p: Packet, i: nat, base: int, rcvd: nat, log: seq<Msg>)
    requires Receives(r, base, rcvd, log)
    requires i < |log| <= rcvd + MAX_WINDOW && rcvd < i + HALF && p.sequenceNum == Wrap(base + i)
    ensures var q := Receiving.OnData(r, p).rcv;
            var f := Arrived(Flow(|log|, 0, 0, rcvd, HeldFrom(r, base, rcvd + 1, |log|)), i);
            && rcvd + Receiving.Delivered(r, p) == f.rcvd
            && HeldFrom(q, base, f.rcvd + 1, |log|) == f.held
  {
    hide *;
    Words();
    ReceivesIs(r, base, rcvd, log);
    SerialIsExact(base + i, base + rcvd);
    OnDataIs(r, p);
    var q := Receiving.OnData(r, p).rcv;
    var a := Receiving.Accept(r, p);
    ArrivedIs(Flow(|log|, 0, 0, rcvd, HeldFrom(r, base, rcvd + 1, |log|)), i);
    if i == rcvd {
      NextRefines(r, p, base, rcvd, log);
      SameHeld(q, a, base, FirstMissing(rcvd + 1, HeldFrom(r, base, rcvd + 1, |log|)) + 1, |log|);
    } else {
      SameHeld(q, a, base, rcvd + 1, |log|);
      OtherAccept(r, p);
      if i > rcvd {
        LaterRefines(r, p, i, base, rcvd, |log|);
      }
    }
  }

  lemma ArrivedIs(f: Flow, i: int)
    ensures i < f.rcvd ==> Arrived(f, i) == f
    ensures i > f.rcvd ==> Arrived(f, i) == f.(held := f.held + {i})
    ensures var n := FirstMissing(f.rcvd + 1, f.held);
            i == f.rcvd ==> Arrived(f, i) == f.(rcvd := n, held := set j | j in f.held && j > n)
  {
    hide FirstMissing;
  }

  lemma SameHeld(q: Receiving.Receiver, r: Receiving.Receiver, base: int, first: int, end: int)
    requires q.held == r.held
    ensures HeldFrom(q, base, first, end) == HeldFrom(r, base, first, end)
  {
    hide Wrap;
  }

  lemma OtherAccept(r: Receiving.Receiver, p: Packet)
    requires p.sequenceNum != r.recvSeq
    ensures SeqLess(p.sequenceNum, r.recvSeq) ==> Receiving.Accept(r, p) == r
    ensures !SeqLess(p.sequenceNum, r.recvSeq) ==> Receiving.Accept(r, p).held == r.held[p.sequenceNum := p]
  {
    hide SeqLess, Receiving.Span;
  }

  lemma LaterRefines(r: Receiving.Receiver, p: Packet, i: nat, base: int, rcvd: nat, end: nat)
    requires rcvd < i < end <= rcvd + MAX_WINDOW && p.sequenceNum == Wrap(base + i)
    requires Receiving.Accept(r, p).held == r.held[p.sequenceNum := p]
    ensures HeldFrom(Receiving.Accept(r, p), base, rcvd + 1, end) == HeldFrom(r, base, rcvd + 1, end) + {i}
  {
    hide *;
    Words();
    var a := Receiving.Accept(r, p);
    var after, before := HeldFrom(a, base, rcvd + 1, end), HeldFrom(r, base, rcvd + 1, end);
    forall j ensures j in after <==> j in before + {i} {
      HeldIn(a, base, rcvd + 1, end, j);
      HeldIn(r, base, rcvd + 1, end, j);
      if rcvd < j < end { SerialIsExact(base + i, base + j); }
    }
  }

  lemma NextRefines(r: Receiving.Receiver, p: Packet, base: int, rcvd: nat, log: seq<Msg>)
    requires Receives(r, base, rcvd, log) && rcvd < |log| <= rcvd + MAX_WINDOW && p.sequenceNum == r.recvSeq
    ensures var h := HeldFrom(r, base, rcvd + 1, |log|);
            var n := FirstMissing(rcvd + 1, h);
            && rcvd + Receiving.Delivered(r, p) == n
            && HeldFrom(Receiving.Accept(r, p), base, n + 1, |log|) == set j | j in h && j > n
  {
    hide *;
    HeldIndices(r, base, rcvd, log);
    var q := Receiving.Push(r, p.payload);
    PushIs(r, p, base, rcvd, |log|);
    Words();
    DrainRefines(q, base, rcvd + 1, |log|);
    SameHeld(q, r, base, rcvd + 1, |log|);
  }

  lemma PushIs(r: Receiving.Receiver, p: Packet, base: int, rcvd: nat, end: nat)
    requires r.recvSeq == Wrap(base + rcvd) && p.sequenceNum == r.recvSeq && r.recvSeq !in r.held
    requires forall k | k in r.held :: 0 <= rcvd + SeqDiff(r.recvSeq, k) < end
    ensures var q := Receiving.Push(r, p.payload);
            && q.held == r.held && q.recvSeq == Wrap(base + (rcvd + 1))
            && (forall k | k in q.held :: 0 <= rcvd + 1 + SeqDiff(q.recvSeq, k) < end)
            && (q.recvSeq in q.held ==> rcvd + 1 < end)
            && Receiving.Accept(r, p) == Receiving.Drain(q)
            && Receiving.Delivered(r, p) == 1 + Receiving.RunLength(q)
  {
    hide *;
    var q := Receiving.Push(r, p.payload);
    PushedIs(r, p);
    WrapAdd(base + rcvd, 1);
    assert base + rcvd + 1 == base + (rcvd + 1);
    forall k | k in q.held ensures 0 <= rcvd + 1 + SeqDiff(q.recvSeq, k) < end {
      Receiving.Step(r.recvSeq, k);
    }
    SelfDiff(q.recvSeq);
  }

  lemma PushedIs(r: Receiving.Receiver, p: Packet)
    requires p.sequenceNum == r.recvSeq
    ensures var q := Receiving.Push(r, p.payload);
            && q.recvSeq == Wrap(r.recvSeq + 1) && q.held == r.held
            && Receiving.Accept(r, p) == Receiving.Drain(q) && Receiving.Delivered(r, p) == 1 + Receiving.RunLength(q)
  {
    hide Wrap, Receiving.Drain, Receiving.RunLength;
  }

  // ----- the refinement -----

  lemma FlowIs(x: Side, y: Side)
    ensures FlowOf(x, y) == Flow(|x.log|, Cleaned(x), x.acked, y.rcvd, HeldFrom(y.c.rcv, x.base, y.rcvd + 1, |x.log|))
    ensures Cleaned(x) == |x.log| - |x.c.snd.sent|
  {
    hide HeldFrom;
  }

  lemma MoveIs(x: Side, act: Action)
    ensures act.Write? ==> MoveOf(x, act) == Send
    ensures act.Deliver? && x.c.state == SynRcvd ==> MoveOf(x, act) == Idle
    ensures act.Deliver? && x.c.state == Established ==>
              MoveOf(x, act) == if act.m.p.sequenceNum == 0 then Ack(act.m.ack) else Data(act.m.idx, act.m.ack)
    ensures act.Tick? || act.Read? || act.KeepAlive? ==> MoveOf(x, act) == Idle
  {
  }

  lemma MovedIs(f: Flow, g: Flow, move: Move)
    ensures move == Send ==> Moved(f, g, move) == (f.(sent := f.sent + 1), g)
    ensures move.Ack? ==> Moved(f, g, move) == (if move.a > f.acked then f.(acked := move.a, cleaned := move.a) else f, g)
    ensures move.Data? ==> Moved(f, g, move) == (if move.i == g.rcvd && move.a > f.acked then f.(acked := move.a) else f,
                                                 Arrived(g, move.i))
    ensures move == Idle ==> Moved(f, g, move) == (f, g)
    ensures Allowed(f, g, move) <==>
              match move
              case Send => f.sent < f.cleaned + MAX_WINDOW
              case Ack(a) => 0 <= a <= f.rcvd
              case Data(i, a) => 0 <= i < g.sent && 0 <= a <= f.rcvd
              case Idle => true
  {
    hide Arrived;
  }

  lemma WriteRefines(x: Side, y: Side, chunk: seq<byte>, now: int)
    requires Inv(x, y) && x.c.state == Established && WindowOpen(x.c) && |chunk| > 0
    ensures var z := Acted(x, Write(chunk), now);
            && FlowOf(x, y).sent < FlowOf(x, y).cleaned + MAX_WINDOW
            && FlowOf(z, y) == FlowOf(x, y).(sent := FlowOf(x, y).sent + 1) && FlowOf(y, z) == FlowOf(y, x)
  {
    hide *;
    var z := Acted(x, Write(chunk), now);
    FlowIs(x, y);
    FlowIs(y, x);
    FlowIs(z, y);
    FlowIs(y, z);
    HalfIs(x, y);
    SoundIs(x, y);
    WriteIs(x, chunk, now);
    BoundsMean(x.c.snd.window) by { SendsIs(x.c.snd, x.base, x.log, x.acked); }
    TrackSends(x.c.snd, x.base, x.log, x.acked, Msg(DataPacket(x.c, chunk), |x.log|, x.rcvd), now);
    Delivery.InvBounds(x, y);
    NotHeldYet(y.c.rcv, x.base, y.rcvd, x.log);
  }

  lemma FinalAckRefines(x: Side, y: Side, m: Msg, now: int)
    requires Inv(x, y) && Deliverable(x, y, m) && x.c.state == SynRcvd
    ensures var z := Acted(x, Deliver(m), now);
            FlowOf(z, y) == FlowOf(x, y) && FlowOf(y, z) == FlowOf(y, x)
  {
    hide *;
    var z := Acted(x, Deliver(m), now);
    FlowIs(x, y);
    FlowIs(y, x);
    FlowIs(z, y);
    FlowIs(y, z);
    IsNear(x, y, m);
    NearAck(x, y, m);
    OnPacketIs(x.c, m.p, now);
    DeliverIs(x, m, now);
    ReceivedIs(x, OnFinalAck(x.c, m.p));
    FinalAckIs(x, y, m);
  }

  lemma AckRefines(x: Side, y: Side, m: Msg, now: int)
    requires Inv(x, y) && Deliverable(x, y, m) && x.c.state == Established && m.p.sequenceNum == 0
    ensures var z := Acted(x, Deliver(m), now);
            && m.ack <= FlowOf(x, y).rcvd
            && FlowOf(z, y) == (if m.ack > FlowOf(x, y).acked then FlowOf(x, y).(acked := m.ack, cleaned := m.ack) else FlowOf(x, y))
            && FlowOf(y, z) == FlowOf(y, x)
  {
    hide *;
    var z := Acted(x, Deliver(m), now);
    FlowIs(x, y);
    FlowIs(y, x);
    FlowIs(z, y);
    FlowIs(y, z);
    IsNear(x, y, m);
    NearAck(x, y, m);
    HalfIs(x, y);
    Comparisons.AckEffect(x, y, m, now);
    AckSound(x, y, m, now);
    Comparisons.StatesDiffer(x.c.state);
    OnPacketIs(x.c, m.p, now);
    DeliverIs(x, m, now);
    ReceivedIs(x, OnAck(x.c, m.p, now));
    AckIs(x.c, m.p, now);
  }

  lemma DataStepRefines(x: Side, y: Side, m: Msg, now: int)
    requires Inv(x, y) && Deliverable(x, y, m) && x.c.state == Established && m.p.sequenceNum != 0
    ensures var z := Acted(x, Deliver(m), now);
            && m.idx < FlowOf(y, x).sent && m.ack <= FlowOf(x, y).rcvd
            && FlowOf(z, y) == (if m.idx == x.rcvd && m.ack > x.acked then FlowOf(x, y).(acked := m.ack) else FlowOf(x, y))
            && FlowOf(y, z) == Arrived(FlowOf(y, x), m.idx)
  {
    hide *;
    var z := Acted(x, Deliver(m), now);
    FlowIs(x, y);
    FlowIs(y, x);
    FlowIs(z, y);
    FlowIs(y, z);
    IsNear(x, y, m);
    NearAck(x, y, m);
    NearData(x, y, m);
    HalfIs(x, y);
    SoundIs(x, y);
    Words();
    Comparisons.StatesDiffer(x.c.state);
    OnPacketIs(x.c, m.p, now);
    DeliverIs(x, m, now);
    ReceivedIs(x, OnData(x.c, m.p));
    DataSound(x, y, m);
    DataIs(x.c, m.p);
    PiggybackIs(x.c.snd, m.p);
    DataRefines(x.c.rcv, m.p, m.idx, y.base, x.rcvd, y.log);
    ArrivedParts(FlowOf(y, x), Flow(|y.log|, 0, 0, x.rcvd, HeldFrom(x.c.rcv, y.base, x.rcvd + 1, |y.log|)), m.idx);
  }

  lemma ArrivedParts(f: Flow, g: Flow, i: int)
    requires f.rcvd == g.rcvd && f.held == g.held
    ensures Arrived(f, i) == f.(rcvd := Arrived(g, i).rcvd, held := Arrived(g, i).held)
  {
    hide FirstMissing;
  }

  lemma ReadRefines(x: Side, y: Side, n: nat, now: int)
    requires Inv(x, y)
    ensures var z := Acted(x, Read(n), now);
            FlowOf(z, y) == FlowOf(x, y) && FlowOf(y, z) == FlowOf(y, x)
  {
    hide *;
    var z := Acted(x, Read(n), now);
    FlowIs(x, y);
    FlowIs(y, x);
    FlowIs(z, y);
    FlowIs(y, z);
    ReadIs(x, n, now);
    HalfIs(x, y);
    SoundIs(x, y);
    ReceivesIs(x.c.rcv, y.base, x.rcvd, y.log);
    Receiving.OnReadValid(x.c.rcv, n);
    OnReadIs(x.c.rcv, n);
    SameHeld(z.c.rcv, x.c.rcv, y.base, x.rcvd + 1, |y.log|);
  }

  lemma TickRefines(x: Side, y: Side, done: set<u32>, gaveUp: bool, now: int)
    ensures var z := Acted(x, Tick(done, gaveUp), now);
            FlowOf(z, y) == FlowOf(x, y) && FlowOf(y, z) == FlowOf(y, x)
  {
    hide *;
    var z := Acted(x, Tick(done, gaveUp), now);
    FlowIs(x, y);
    FlowIs(y, x);
    FlowIs(z, y);
    FlowIs(y, z);
    TickIs(x, done, gaveUp, now);
    assert |z.c.snd.sent| == |z.c.snd.sent.Keys| == |x.c.snd.sent|;
  }

  lemma FlowIgnoresControl(x: Side, x': Side, y: Side)
    requires x' == x.(ctl := x'.ctl)
    ensures FlowOf(x', y) == FlowOf(x, y) && FlowOf(y, x') == FlowOf(y, x)
  {
    hide HeldFrom;
  }

  /** Every step over wrapped numbers is an allowed step of the unbounded machine. */
  lemma StepRefines(x: Side, y: Side, act: Action, now: int, x': Side)
    requires Inv(x, y) && Step(x, y, act, now, x')
    ensures Allowed(FlowOf(x, y), FlowOf(y, x), MoveOf(x, act))
    ensures (FlowOf(x', y), FlowOf(y, x')) == Moved(FlowOf(x, y), FlowOf(y, x), MoveOf(x, act))
  {
    hide *;
    StepIs(x, y, act, now, x');
    EnabledIs(x, y, act, now);
    FlowIgnoresControl(Acted(x, act, now), x', y);
    MoveIs(x, act);
    MovedIs(FlowOf(x, y), FlowOf(y, x), MoveOf(x, act));
    FlowIs(y, x);
    FlowIs(x, y);
    HalfIs(x, y);
    SoundIs(x, y);
    match act
    case Write(chunk) => WriteRefines(x, y, chunk, now);
    case Deliver(m) =>
      if x.c.state == SynRcvd { FinalAckRefines(x, y, m, now); }
      else if m.p.sequenceNum == 0 { AckRefines(x, y, m, now); }
      else { DataStepRefines(x, y, m, now); }
    case Tick(done, gaveUp) => TickRefines(x, y, done, gaveUp, now);
    case Read(n) => ReadRefines(x, y, n, now);
    case KeepAlive =>
  }

  // ----- whole runs -----

  /** One step of the unbounded machine, by either side. */
  ghost predicate FlowsNext(f: Flow, g: Flow, f': Flow, g': Flow) {
    || (exists move :: Allowed(f, g, move) && (f', g') == Moved(f, g, move))
    || (exists move :: Allowed(g, f, move) && (g', f') == Moved(g, f, move))
  }

  /** Every run of the protocol is, step by step, a run of the unbounded machine. */
  lemma RunRefines(run: seq<Delivery.World>, i: nat)
    requires Delivery.IsRun(run) && i + 1 < |run|
    ensures FlowOf(run[0].a, run[0].b) == FlowOf(run[0].b, run[0].a) == Flow(0, 0, 0, 0, {})
    ensures var w, w' := run[i], run[i + 1];
            FlowsNext(FlowOf(w.a, w.b), FlowOf(w.b, w.a), FlowOf(w'.a, w'.b), FlowOf(w'.b, w'.a))
  {
    hide *;
    Delivery.RunIs(run);
    Delivery.RunInvariant(run, i, i);
    StartFlows(run[0]);
    WorldRefines(run[i], run[i + 1]);
  }

  lemma StartFlows(w: Delivery.World)
    requires Delivery.Start(w)
    ensures FlowOf(w.a, w.b) == FlowOf(w.b, w.a) == Flow(0, 0, 0, 0, {})
  {
    hide Wrap, InBounds, ControlPacket;
  }

  lemma WorldRefines(w: Delivery.World, w': Delivery.World)
    requires Inv(w.a, w.b) && Delivery.Next(w, w')
    ensures FlowsNext(FlowOf(w.a, w.b), FlowOf(w.b, w.a), FlowOf(w'.a, w'.b), FlowOf(w'.b, w'.a))
  {
    hide Inv, Step, FlowOf, Allowed, Moved, MoveOf;
    if w'.b == w.b && exists act, now :: Step(w.a, w.b, act, now, w'.a) {
      var act, now :| Step(w.a, w.b, act, now, w'.a);
      StepRefines(w.a, w.b, act, now, w'.a);
    } else {
      var act, now :| Step(w.b, w.a, act, now, w'.b);
      Delivery.InvSwap(w.a, w.b);
      StepRefines(w.b, w.a, act, now, w'.b);
    }
  }
}
