/** When the receive buffer loses bytes: exactly which arrival does it, and that runs get there. */
module Overflow {
  import opened Serial
  import opened Packets
  import opened Connections
  import opened Protocol
  import opened ProtocolSteps
  import opened Delivery
  import opened Runs
  import Comparisons
  import Congestion
  import Choking
  import Receiving

  /** The check that a receiver could make before it takes a packet: the unread bytes and
      those that the packet makes deliverable fit the buffer. */
  predicate Fits(c: Conn, p: Packet) {
    c.state != Established || p.sequenceNum == 0
    || |c.rcv.buf.log| + |Receiving.Arriving(c.rcv, p)| <= c.rcv.buf.size
  }

  /** A step loses bytes for the first time if and only if it takes a packet that does not fit. */
  lemma OverflowsExactly(x: Side, y: Side, act: Action, now: int, x': Side)
    requires Inv(x, y) && Step(x, y, act, now, x')
    ensures x'.overflowed <==> x.overflowed || (act.Deliver? && !Fits(x.c, act.m.p))
  {
    hide *;
    StepIs(x, y, act, now, x');
    EnabledIs(x, y, act, now);
    HalfIs(x, y);
    SoundIs(x, y);
    IntactIs(x.c.rcv.buf, x.fed, x.out, x.overflowed);
    match act
    case Write(chunk) => WriteIs(x, chunk, now);
    case Deliver(m) => ArrivalOverflows(x, y, m, now);
    case Tick(done, gaveUp) => TickIs(x, done, gaveUp, now);
    case Read(n) => ReadIs(x, n, now);
    case KeepAlive =>
  }

  lemma ArrivalOverflows(x: Side, y: Side, m: Msg, now: int)
    requires Inv(x, y) && Deliverable(x, y, m)
    ensures Acted(x, Deliver(m), now).overflowed <==> x.overflowed || !Fits(x.c, m.p)
  {
    hide *;
    IsNear(x, y, m);
    NearAck(x, y, m);
    HalfIs(x, y);
    SoundIs(x, y);
    IntactIs(x.c.rcv.buf, x.fed, x.out, x.overflowed);
    OnPacketIs(x.c, m.p, now);
    DeliverIs(x, m, now);
    ReceivedIs(x, OnPacket(x.c, m.p, now));
    Comparisons.StatesDiffer(x.c.state);
    FitsIs(x.c, m.p);
    if x.c.state == SynRcvd {
      FinalAckIs(x, y, m);
    } else if m.p.sequenceNum == 0 {
      AckIs(x.c, m.p, now);
    } else {
      NearData(x, y, m);
      DataIs(x.c, m.p);
      OnDataIs(x.c.rcv, m.p);
      Receiving.AcceptBytes(x.c.rcv, m.p);
      Grows(x.c.rcv.buf, Receiving.Arriving(x.c.rcv, m.p));
    }
  }

  lemma FitsIs(c: Conn, p: Packet)
    ensures Fits(c, p) <==> c.state != Established || p.sequenceNum == 0
                            || |c.rcv.buf.log| + |Receiving.Arriving(c.rcv, p)| <= c.rcv.buf.size
  {
    hide Receiving.Arriving;
  }

  lemma Grows(buf: Receiving.Buffer, more: seq<byte>)
    ensures |buf.Write(more).log| == |buf.log| + |more| && buf.Write(more).size == buf.size
  {
  }

  // ----- a run that overflows -----

  /** So runs do overflow: whenever the window (from a cached control block, say) lets a side
      send more than the other's buffer holds, there is a run in which that happens, nothing
      having been read, and then what can be read is not what arrived. */
  lemma OverflowIsReached(w: World, side: Who, chunk: seq<byte>, n: nat, now: int) returns (run: seq<World>)
    requires Start(w) && w.a.c.state == w.b.c.state == Established
    requires 0 < |chunk| <= NegotiatedMTU(w.Of(side).c.ids)
    requires n <= w.Of(side).c.snd.window.cwnd && n <= FirstZero(w.Of(side).base)
    requires n * |chunk| > w.Of(side.Other()).c.rcv.buf.size
    ensures IsRun(run) && run[0] == w
    ensures var y := Last(run).Of(side.Other());
            y.overflowed && y.out == [] && y.c.rcv.buf.Bytes() != y.fed && |y.fed| == n * |chunk|
  {
    hide *;
    run := Burst(w, side, chunk, n, now);
    RunIs(run);
    var v := Last(run);
    UnreadIs(w, side, chunk, n, v);
    var x, y := v.Of(side), v.Of(side.Other());
    ReachableLast(run);
    Sides(v, side);
    EndToEnd(v, x, y);
    FedLength(x.log, chunk, n);
    assert Payloads(x.log)[..n] == Payloads(x.log);
    BytesFit(y.c.rcv.buf);
    assert [] + y.c.rcv.buf.Bytes() == y.c.rcv.buf.Bytes();
  }

  lemma BytesFit(buf: Receiving.Buffer)
    ensures |buf.Bytes()| <= buf.size
  {
  }

  lemma FedLength(log: seq<Msg>, chunk: seq<byte>, n: nat)
    requires |log| == n && forall i | 0 <= i < n :: log[i].p.payload == chunk
    ensures |Receiving.Concat(Payloads(log))| == n * |chunk|
  {
    ConcatLength(Payloads(log), |chunk|);
  }

  lemma {:induction false} ConcatLength(chunks: seq<seq<byte>>, k: nat)
    requires forall i | 0 <= i < |chunks| :: |chunks[i]| == k
    ensures |Receiving.Concat(chunks)| == |chunks| * k
  {
    if chunks != [] {
      ConcatLength(chunks[1..], k);
      assert |chunks| * k == k + (|chunks| - 1) * k;
    }
  }

  // ----- in bytes -----

  /** A chunk of 1730 bytes that arrives on 65000 unread ones: what Read then returns is no
      prefix of the stream. */
  lemma OverflowLosesBytes()
    ensures var zeros, ones := Zeros(65000), seq<byte>(1730, i => 1);
            var r := Receiving.Receiver(7, map[], {}, Receiving.Buffer(zeros, 65536), true, 65000);
            var q := Receiving.OnData(r, PlainPacket(1, 2, 7, 0, [], 0, ones)).rcv;
            && Receiving.ReadBytes(r, 65536) == zeros
            && q.recvSeq == 8 && q.buf.log == zeros + ones
            && |Receiving.ReadBytes(q, 65536)| == 65536
            && !(Receiving.ReadBytes(q, 65536) <= zeros + ones)
  {
    var zeros, ones := Zeros(65000), seq<byte>(1730, i => 1);
    var r := Receiving.Receiver(7, map[], {}, Receiving.Buffer(zeros, 65536), true, 65000);
    var p := PlainPacket(1, 2, 7, 0, [], 0, ones);
    Choking.FillOnce(r, p);
    OnDataIs(r, p);
    hide Receiving.OnData, Receiving.Accept;
    Shifted(zeros, ones);
  }

  lemma Shifted(zeros: seq<byte>, ones: seq<byte>)
    requires zeros == Zeros(65000) && ones == seq<byte>(1730, i => 1)
    ensures !((zeros + ones)[1194..] <= zeros + ones)
  {
    var s := zeros + ones;
    assert s[1194..][63806] == s[65000] == 1 && s[63806] == 0;
  }
}
