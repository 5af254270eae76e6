/** Where the delivery guarantees end: a data packet numbered 0 is taken for a plain
    acknowledgement, and a receive buffer that overflows drops its oldest bytes. */
module Boundaries {
  import opened Serial
  import opened Packets
  import opened Connections
  import opened Protocol
  import opened ProtocolSteps
  import opened Delivery
  import opened Runs
  import Congestion
  import Refinement
  import Receiving
  import Sending

  // ----- wire number zero -----

  /** The arrival of the next chunk delivers it if and only if the side is established and the
      wire number is not 0. While a listener still waits for the final ACK, any packet without
      SYN, CLOSE and RESET passes for it, and a payload is lost. */
  lemma NextIsDeliveredExactly(x: Side, y: Side, m: Msg, now: int)
    requires Inv(x, y) && Deliverable(x, y, m)
    requires m in y.log && m.idx == x.rcvd
    ensures Acted(x, Deliver(m), now).rcvd > x.rcvd <==> x.c.state == Established && m.p.sequenceNum != 0
  {
    hide *;
    Took(x, y, m, now);
    HalfIs(x, y);
    SoundIs(x, y);
    NotBoth(x.c);
  }

  lemma NotBoth(c: Conn)
    ensures c.state == Established ==> c.state != SynRcvd
  {
  }

  ghost predicate Stalls(x: Side, y: Side) {
    x.rcvd <= FirstZero(y.base) && 0 !in x.c.rcv.held
  }

  lemma {:induction false} DrainStops(r: Receiving.Receiver, base: int, rcvd: nat)
    requires r.recvSeq == Wrap(base + rcvd) && rcvd <= FirstZero(base) && 0 !in r.held
    ensures rcvd + Receiving.RunLength(r) <= FirstZero(base) && 0 !in Receiving.Drain(r).held
    decreases |r.held|
  {
    hide *;
    Receiving.DrainStep(r);
    FirstZeroIs(base, rcvd);
    if r.recvSeq in r.held {
      Receiving.PopShrinks(r);
      Refinement.PoppedIs(r);
      WrapAdd(base + rcvd, 1);
      assert base + rcvd + 1 == base + (rcvd + 1);
      DrainStops(Receiving.Pop(r), base, rcvd + 1);
    }
  }

  lemma DataStalls(x: Side, y: Side, m: Msg, now: int)
    requires Inv(x, y) && Deliverable(x, y, m) && x.c.state == Established && m.p.sequenceNum != 0 && Stalls(x, y)
    ensures Stalls(Acted(x, Deliver(m), now), y)
  {
    hide *;
    IsNear(x, y, m);
    NearAck(x, y, m);
    NearData(x, y, m);
    HalfIs(x, y);
    SoundIs(x, y);
    OnPacketIs(x.c, m.p, now);
    NotBoth(x.c);
    DeliverIs(x, m, now);
    ReceivedIs(x, OnData(x.c, m.p));
    DataIs(x.c, m.p);
    DataSound(x, y, m);
    ReceivesIs(x.c.rcv, y.base, x.rcvd, y.log);
    StallsIs(x, y);
    StallsIs(Acted(x, Deliver(m), now), y);
    AcceptStops(x.c.rcv, m.p, y.base, x.rcvd);
  }

  lemma StallsIs(x: Side, y: Side)
    ensures Stalls(x, y) <==> x.rcvd <= FirstZero(y.base) && 0 !in x.c.rcv.held
  {
    hide FirstZero;
  }

  lemma AcceptStops(r: Receiving.Receiver, p: Packet, base: int, rcvd: nat)
    requires r.recvSeq == Wrap(base + rcvd) && rcvd <= FirstZero(base) && 0 !in r.held && p.sequenceNum != 0
    ensures rcvd + Receiving.Delivered(r, p) <= FirstZero(base) && 0 !in Receiving.OnData(r, p).rcv.held
  {
    hide *;
    OnDataIs(r, p);
    FirstZeroIs(base, rcvd);
    if p.sequenceNum == r.recvSeq {
      Refinement.PushedIs(r, p);
      WrapAdd(base + rcvd, 1);
      assert base + rcvd + 1 == base + (rcvd + 1);
      DrainStops(Receiving.Push(r, p.payload), base, rcvd + 1);
    } else {
      OtherIs(r, p);
    }
  }

  lemma OtherIs(r: Receiving.Receiver, p: Packet)
    requires p.sequenceNum != r.recvSeq && p.sequenceNum != 0 && 0 !in r.held
    ensures 0 !in Receiving.Accept(r, p).held
  {
    hide SeqLess, Receiving.Span;
  }

  lemma StepStalls(x: Side, y: Side, act: Action, now: int, x': Side)
    requires Inv(x, y) && Step(x, y, act, now, x') && Stalls(x, y)
    ensures Stalls(x', y)
  {
    hide *;
    StepIs(x, y, act, now, x');
    EnabledIs(x, y, act, now);
    StallsIs(x, y);
    StallsIs(x', y);
    HalfIs(x, y);
    SoundIs(x, y);
    match act
    case Write(chunk) => WriteIs(x, chunk, now);
    case Deliver(m) =>
      StallsIs(Acted(x, act, now), y);
      IsNear(x, y, m);
      NearAck(x, y, m);
      OnPacketIs(x.c, m.p, now);
      NotBoth(x.c);
      DeliverIs(x, m, now);
      ReceivedIs(x, OnPacket(x.c, m.p, now));
      if x.c.state == SynRcvd {
        FinalAckIs(x, y, m);
      } else if m.p.sequenceNum == 0 {
        AckIs(x.c, m.p, now);
      } else {
        DataStalls(x, y, m, now);
      }
    case Tick(done, gaveUp) => TickIs(x, done, gaveUp, now);
    case Read(n) =>
      ReadIs(x, n, now);
      ReceivesIs(x.c.rcv, y.base, x.rcvd, y.log);
      Receiving.OnReadValid(x.c.rcv, n);
      OnReadIs(x.c.rcv, n);
    case KeepAlive =>
  }

  lemma {:induction false} RunStalls(run: seq<World>, i: nat)
    requires IsRun(run) && i < |run|
    ensures Stalls(run[i].a, run[i].b) && Stalls(run[i].b, run[i].a)
  {
    hide *;
    RunIs(run);
    if i == 0 {
      StartStalls(run[0]);
    } else {
      RunStalls(run, i - 1);
      RunInvariant(run, i - 1, i - 1);
      RunInvariant(run, i - 1, i);
      NextStalls(run[i - 1], run[i]);
    }
  }

  lemma StartStalls(w: World)
    requires Start(w)
    ensures Stalls(w.a, w.b) && Stalls(w.b, w.a)
  {
    hide Wrap, Congestion.InBounds, ControlPacket;
  }

  lemma NextStalls(w: World, w': World)
    requires Inv(w.a, w.b) && Next(w, w') && w.a.base == w'.a.base && w.b.base == w'.b.base
    requires Stalls(w.a, w.b) && Stalls(w.b, w.a)
    ensures Stalls(w'.a, w'.b) && Stalls(w'.b, w'.a)
  {
    hide Inv, Step, FirstZero;
    if w'.b == w.b && exists act, now :: Step(w.a, w.b, act, now, w'.a) {
      var act, now :| Step(w.a, w.b, act, now, w'.a);
      StepStalls(w.a, w.b, act, now, w'.a);
    } else {
      var act, now :| Step(w.b, w.a, act, now, w'.b);
      InvSwap(w.a, w.b);
      StepStalls(w.b, w.a, act, now, w'.b);
    }
  }

  /** The packet numbered 0 is never delivered: in every reachable state at most the chunks
      before it have arrived, and so the sender never gets further than a window past it. */
  lemma StreamEndsAtZero(w: World, x: Side, y: Side)
    requires Reachable(w) && Peers(w, x, y)
    ensures y.rcvd <= FirstZero(x.base)
    ensures |x.log| <= FirstZero(x.base) + Congestion.MAX_WINDOW
  {
    hide *;
    ReachableInv(w, x, y);
    InvBounds(x, y);
    ReachableStalls(w, x, y);
    StallsIs(y, x);
  }

  lemma ReachableStalls(w: World, x: Side, y: Side)
    requires Reachable(w) && Peers(w, x, y)
    ensures Stalls(y, x)
  {
    hide Stalls, Start, Next;
    var run :| IsRun(run) && run[|run| - 1] == w;
    RunStalls(run, |run| - 1);
  }

  // ----- up to there -----

  /** From every reachable state, with both sides established or not: the next chunk that was
      sent can be delivered at once if its side is established, its number is not 0 and what it
      acknowledges is not too old for the network to deliver it. */
  lemma NextCanArrive(w: World, x: Side, y: Side, now: int)
    requires Reachable(w) && Peers(w, x, y) && y.rcvd < |x.log|
    requires y.c.state == Established && y.rcvd != FirstZero(x.base)
    requires Cleaned(y) + Congestion.MAX_WINDOW < x.log[y.rcvd].ack + HALF
    ensures Enabled(y, x, Deliver(x.log[y.rcvd]), now)
    ensures Acted(y, Deliver(x.log[y.rcvd]), now).rcvd > y.rcvd
  {
    hide *;
    ReachableInv(w, x, y);
    InvSwap(x, y);
    InvBounds(x, y);
    StreamEndsAtZero(w, x, y);
    var m := x.log[y.rcvd];
    LogEntry(x.log, x.base, y.rcvd);
    IsDeliverable(y, x, m);
    DeliverEnabled(y, x, m, now);
    FirstZeroIs(x.base, y.rcvd);
    NextIsDeliveredExactly(y, x, m, now);
  }

  lemma LogEntry(log: seq<Msg>, base: int, i: nat)
    requires DataLog(log, base) && i < |log|
    ensures log[i] in log && log[i].idx == i && log[i].p.sequenceNum == Wrap(base + i)
  {
    assert IsData(log[i], i, base);
  }

  lemma IsDeliverable(y: Side, x: Side, m: Msg)
    requires m in x.log && m.idx == y.rcvd && Cleaned(y) + Congestion.MAX_WINDOW < m.ack + HALF
    ensures Deliverable(y, x, m)
  {
  }

  /** The first chunk of either side, sent and delivered once: it has arrived if and only if
      the other side was established already and the number is not 0. In any case the other
      side is established now. */
  lemma FirstDelivery(w: World, side: Who, chunk: seq<byte>, now: int) returns (run: seq<World>)
    requires Start(w) && w.Of(side).c.state == Established
    requires 0 < |chunk| <= NegotiatedMTU(w.Of(side).c.ids)
    ensures IsRun(run) && run[0] == w
    ensures var x, y, y0 := Last(run).Of(side), Last(run).Of(side.Other()), w.Of(side.Other());
            && |x.log| == 1 && x.log[0].p.payload == chunk && y.c.state == Established
            && x.base == w.Of(side).base && x.log[0].ack == 0 && y.log == []
            && y.rcvd == if y0.c.state == Established && Wrap(w.Of(side).base) != 0 then 1 else 0
  {
    hide *;
    StartIsRun(w);
    Sides(w, side);
    BothStart(w, side);
    BothStart(w, side.Other());
    WithOf(w, side, w.Of(side));
    var x, y := w.Of(side), w.Of(side.Other());
    FreshIs(x, y);
    FreshIs(y, x);
    LastInv([w], side);
    WindowAtLeastTwo(x, y);
    CanWrite(x, y, chunk, now);
    Wrote(x, y, chunk, now);
    var run1 := Extend([w], side, Write(chunk), now);
    var x' := Acted(x, Write(chunk), now);
    WithOf(w, side, x');
    var m := Msg(DataPacket(x.c, chunk), 0, 0);
    assert m in x'.log by { assert x'.log[0] == m; }
    LastInv(run1, side.Other());
    run := Deliver0(run1, side, m, now);
  }

  lemma Deliver0(run: seq<World>, side: Who, m: Msg, now: int) returns (longer: seq<World>)
    requires IsRun(run)
    requires var x, y := Last(run).Of(side), Last(run).Of(side.Other());
             x.log == [m] && m.idx == 0 && m.p.sequenceNum == Wrap(x.base + 0) && y.log == [] && y.rcvd == 0
    ensures IsRun(longer) && longer[0] == run[0]
    ensures var x, y, y' := Last(run).Of(side), Last(run).Of(side.Other()), Last(longer).Of(side.Other());
            && Last(longer).Of(side) == x && y'.c.state == Established && y'.log == []
            && y'.rcvd == if y.c.state == Established && Wrap(x.base) != 0 then 1 else 0
  {
    hide *;
    RunIs(run);
    var x, y := Last(run).Of(side), Last(run).Of(side.Other());
    WithOf(Last(run), side, x);
    LastInv(run, side);
    LastInv(run, side.Other());
    assert m in x.log;
    NothingSent(y, x, m);
    DeliverEnabled(y, x, m, now);
    Took(y, x, m, now);
    NextIsDeliveredExactly(y, x, m, now);
    longer := Extend(run, side.Other(), Deliver(m), now);
    WithOf(Last(run), side.Other(), Acted(y, Deliver(m), now));
    LastInv(longer, side);
    InvBounds(x, Acted(y, Deliver(m), now));
  }

  /** The first chunk arrives in some run if and only if its number is not 0: from every start
      with its sender established, whether the other side is or still waits for the final ACK. */
  lemma FirstChunkArrivesExactly(w: World, side: Who)
    requires Start(w) && w.Of(side).c.state == Established && NegotiatedMTU(w.Of(side).c.ids) > 0
    ensures (exists run :: IsRun(run) && run[0] == w && Last(run).Of(side.Other()).rcvd > 0)
            <==> Wrap(w.Of(side).base) != 0
  {
    hide *;
    var base := w.Of(side).base;
    if Wrap(base) != 0 {
      var run := FirstDelivery(w, side, [0], 0);
      RunIs(run);
      if Last(run).Of(side.Other()).rcvd == 0 {
        var m := Last(run).Of(side).log[0];
        LastInv(run, side);
        InvBounds(Last(run).Of(side), Last(run).Of(side.Other()));
        LogEntry(Last(run).Of(side).log, base, 0);
        run := Deliver0(run, side, m, 0);
      }
    }
    OnlyIfNotZero(w, side);
  }

  lemma OnlyIfNotZero(w: World, side: Who)
    ensures (exists run :: IsRun(run) && run[0] == w && Last(run).Of(side.Other()).rcvd > 0)
            ==> Wrap(w.Of(side).base) != 0
  {
    hide Start, Next, Wrap;
    forall run | IsRun(run) && run[0] == w && Last(run).Of(side.Other()).rcvd > 0
      ensures Wrap(w.Of(side).base) != 0
    {
      NeverAtZero(run, side);
    }
  }

  lemma NeverAtZero(run: seq<World>, side: Who)
    requires IsRun(run) && Last(run).Of(side.Other()).rcvd > 0
    ensures Wrap(run[0].Of(side).base) != 0
  {
    hide *;
    RunIs(run);
    RunInvariant(run, 0, |run| - 1);
    LastIs(run);
    Sides(Last(run), side);
    Sides(run[0], side);
    ReachableLast(run);
    StreamEndsAtZero(Last(run), Last(run).Of(side), Last(run).Of(side.Other()));
    FirstZeroIs(run[0].Of(side).base, 0);
  }

  /** The failing start: the first number is 0. The chunk is sent and delivered, and nothing
      arrives. */
  lemma LostAtZero(w: World, side: Who, chunk: seq<byte>, now: int) returns (run: seq<World>)
    requires Start(w) && w.a.c.state == w.b.c.state == Established && Wrap(w.Of(side).base) == 0
    requires 0 < |chunk| <= NegotiatedMTU(w.Of(side).c.ids)
    ensures IsRun(run) && run[0] == w
    ensures |Last(run).Of(side).log| == 1 && Last(run).Of(side.Other()).rcvd == 0
  {
    hide *;
    Sides(w, side);
    run := FirstDelivery(w, side, chunk, now);
  }

  /** And the failing handshake: the final ACK is late, and the first chunk, whatever its
      number, is taken for it. */
  lemma SwallowedAsFinalAck(w: World, chunk: seq<byte>, now: int) returns (run: seq<World>)
    requires Start(w) && w.a.c.state == Established && w.b.c.state == SynRcvd
    requires 0 < |chunk| <= NegotiatedMTU(w.a.c.ids)
    ensures IsRun(run) && run[0] == w
    ensures |Last(run).a.log| == 1 && Last(run).b.c.state == Established && Last(run).b.rcvd == 0
  {
    hide *;
    Sides(w, A);
    run := FirstDelivery(w, A, chunk, now);
    RunIs(run);
    Sides(Last(run), A);
    NotBoth(w.b.c);
  }
}
