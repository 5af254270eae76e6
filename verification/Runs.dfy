/** Building runs of the protocol one step at a time. */
module Runs {
  import opened Serial
  import opened Packets
  import opened Congestion
  import opened Connections
  import opened Protocol
  import opened ProtocolSteps
  import opened Delivery
  import Comparisons
  import Receiving
  import Sending

  function Last(run: seq<World>): World
    requires run != []
  {
    run[|run| - 1]
  }

  /** A run goes on with any step that one of the sides may take. */
  lemma Extend(run: seq<World>, side: Who, act: Action, now: int) returns (longer: seq<World>)
    requires IsRun(run)
    requires Enabled(Last(run).Of(side), Last(run).Of(side.Other()), act, now)
    ensures IsRun(longer) && run <= longer && |longer| == |run| + 1
    ensures Last(longer) == Last(run).With(side, Acted(Last(run).Of(side), act, now))
    ensures Inv(Last(longer).a, Last(longer).b) && Inv(Last(longer).b, Last(longer).a)
  {
    hide *;
    RunIs(run);
    var w := Last(run);
    var w' := w.With(side, Acted(w.Of(side), act, now));
    longer := run + [w'];
    LastIs(run);
    LastIs(longer);
    StepFrom(w, side, act, now);
    LongerRun(run, w');
    RunInvariant(longer, |run|, |run|);
    InvSwap(w'.a, w'.b);
  }

  lemma LastIs(run: seq<World>)
    requires run != []
    ensures Last(run) == run[|run| - 1]
  {
  }

  lemma StepFrom(w: World, side: Who, act: Action, now: int)
    requires Enabled(w.Of(side), w.Of(side.Other()), act, now)
    ensures Next(w, w.With(side, Acted(w.Of(side), act, now)))
  {
    ActedKeepsControl(w.Of(side), act, now);
    hide Acted, Enabled, Kinds;
    assert Step(w.Of(side), w.Of(side.Other()), act, now, Acted(w.Of(side), act, now));
  }

  lemma ActedKeepsControl(x: Side, act: Action, now: int)
    ensures Acted(x, act, now).ctl == x.ctl
  {
    hide SendChunk, OnPacket, OnRead, Sending.Ticked;
  }

  lemma LongerRun(run: seq<World>, w: World)
    requires IsRun(run) && Next(run[|run| - 1], w)
    ensures IsRun(run + [w])
  {
    hide Start, Next;
  }

  lemma StartIsRun(w: World)
    requires Start(w)
    ensures IsRun([w]) && Last([w]) == w && Inv(w.a, w.b) && Inv(w.b, w.a)
  {
    StartInv(w);
    InvSwap(w.a, w.b);
    hide Start, Inv;
  }

  lemma BothStart(w: World, side: Who)
    requires Start(w)
    ensures Fresh(w.Of(side), w.Of(side.Other()))
  {
    hide Fresh;
  }

  lemma WithOf(w: World, side: Who, x: Side)
    ensures w.With(side, x).Of(side) == x && w.With(side, x).Of(side.Other()) == w.Of(side.Other())
    ensures side.Other().Other() == side
  {
  }

  lemma LastInv(run: seq<World>, side: Who)
    requires IsRun(run)
    ensures run != [] && Inv(Last(run).Of(side), Last(run).Of(side.Other()))
  {
    hide *;
    RunIs(run);
    LastIs(run);
    RunInvariant(run, |run| - 1, |run| - 1);
    Sides(Last(run), side);
    InvSwap(Last(run).a, Last(run).b);
  }

  lemma ReachableLast(run: seq<World>)
    requires IsRun(run)
    ensures run != [] && Reachable(Last(run))
  {
    hide Start, Next;
  }

  lemma DeliverEnabled(y: Side, x: Side, m: Msg, now: int)
    requires Deliverable(y, x, m)
    ensures Enabled(y, x, Deliver(m), now)
  {
    hide Deliverable;
  }

  /** A side that has sent nothing is far from every limit on the age of messages. */
  lemma NothingSent(y: Side, x: Side, m: Msg)
    requires Inv(y, x) && |y.log| <= 1 && m in x.log && y.rcvd <= m.idx
    ensures Deliverable(y, x, m)
  {
    hide Inv, Half;
    InvBounds(y, x);
  }

  lemma CanWrite(x: Side, y: Side, chunk: seq<byte>, now: int)
    requires Inv(x, y) && x.c.state == Established && 0 < |chunk| <= NegotiatedMTU(x.c.ids)
    requires |x.log| < x.c.snd.window.cwnd
    ensures Enabled(x, y, Write(chunk), now)
  {
    InvBounds(x, y);
    hide Inv, NegotiatedMTU, InFlight, DataLog, Receives;
  }

  lemma WindowAtLeastTwo(x: Side, y: Side)
    requires Inv(x, y)
    ensures 2 <= x.c.snd.window.cwnd
  {
    hide *;
    HalfIs(x, y);
    SoundIs(x, y);
    SendsIs(x.c.snd, x.base, x.log, x.acked);
    BoundsAtLeast(x.c.snd.window);
  }

  lemma BoundsAtLeast(w: Window)
    requires InBounds(w)
    ensures 2 <= w.cwnd
  {
  }

  /** What writing one chunk changes. */
  lemma Wrote(x: Side, y: Side, chunk: seq<byte>, now: int)
    requires Inv(x, y)
    ensures var x' := Acted(x, Write(chunk), now);
            var m := Msg(DataPacket(x.c, chunk), |x.log|, x.rcvd);
            && x'.log == x.log + [m] && m.p.payload == chunk && m.p.sequenceNum == Wrap(x.base + |x.log|)
            && x'.c.snd.window == x.c.snd.window && x'.c.state == x.c.state && x'.c.ids == x.c.ids
            && x'.c.rcv == x.c.rcv && x'.c.snd.ackThrough == x.c.snd.ackThrough
            && x'.base == x.base && x'.rcvd == x.rcvd && x'.acked == x.acked
            && x'.fed == x.fed && x'.out == x.out && x'.overflowed == x.overflowed
  {
    hide *;
    HalfIs(x, y);
    SoundIs(x, y);
    SendsIs(x.c.snd, x.base, x.log, x.acked);
    WriteIs(x, chunk, now);
    TrackIs(x.c.snd, DataPacket(x.c, chunk), now);
    DataPacketFields(x.c, chunk);
  }

  /** What one delivery changes of the receiving side. */
  lemma Took(x: Side, y: Side, m: Msg, now: int)
    requires Inv(x, y) && Deliverable(x, y, m)
    ensures var x' := Acted(x, Deliver(m), now);
            && x'.c.state == Established && x'.c.ids == x.c.ids && x'.base == x.base
            && x'.log == x.log && x'.out == x.out && x'.rcvd >= x.rcvd
            && (x.c.state == SynRcvd ==> x'.c.rcv == x.c.rcv && x'.c.snd.sent == x.c.snd.sent)
            && x'.c.rcv.buf.size == x.c.rcv.buf.size
            && (x.c.state == SynRcvd ==> x'.rcvd == x.rcvd && x'.acked == x.acked && x'.fed == x.fed)
            && (x.c.state != SynRcvd && m.p.sequenceNum == 0 ==>
                  && x'.c.rcv == x.c.rcv && x'.rcvd == x.rcvd && x'.fed == x.fed
                  && x'.acked == (if m.ack > x.acked then m.ack else x.acked))
            && (x.c.state != SynRcvd && m.p.sequenceNum != 0 ==>
                  && (x'.rcvd > x.rcvd <==> m.idx == x.rcvd) && x'.c.snd.sent == x.c.snd.sent
                  && x'.acked == (if m.idx == x.rcvd && m.ack > x.acked then m.ack else x.acked))
  {
    hide *;
    IsNear(x, y, m);
    NearAck(x, y, m);
    HalfIs(x, y);
    SoundIs(x, y);
    OnPacketIs(x.c, m.p, now);
    DeliverIs(x, m, now);
    ReceivedIs(x, OnPacket(x.c, m.p, now));
    Comparisons.StatesDiffer(x.c.state);
    if x.c.state == SynRcvd {
      FinalAckSound(x, y, m);
      FinalAckIs(x, y, m);
      NothingAppended(x.c.rcv.buf.log, x.fed);
    } else if m.p.sequenceNum == 0 {
      AckSound(x, y, m, now);
      AckIs(x.c, m.p, now);
      NothingAppended(x.c.rcv.buf.log, x.fed);
    } else {
      NearData(x, y, m);
      DataSound(x, y, m);
      DataIs(x.c, m.p);
      PiggybackIs(x.c.snd, m.p);
      ReceivesIs(x.c.rcv, y.base, x.rcvd, y.log);
      SameSize(x.c.rcv, m.p);
    }
  }

  lemma NothingAppended(log: seq<byte>, fed: seq<byte>)
    ensures fed + Appended(log, log) == fed
  {
    assert Appended(log, log) == [];
  }

  lemma SameSize(r: Receiving.Receiver, p: Packet)
    requires Receiving.Valid(r)
    ensures Receiving.OnData(r, p).rcv.buf.size == r.buf.size
  {
    Receiving.AcceptValid(r, p);
    OnDataIs(r, p);
    hide Receiving.OnData, Receiving.Accept, Receiving.Valid;
  }

  /** The receiving side after the last chunk sent so far has arrived next: nothing is
      missing, the payload is in the buffer, and the usage has been checked. */
  lemma TookNext(y: Side, x: Side, m: Msg, now: int)
    requires Inv(y, x) && Deliverable(y, x, m) && y.c.state == Established && m.p.sequenceNum != 0
    requires m.idx == y.rcvd == |x.log| - 1
    ensures var r, q := y.c.rcv, Acted(y, Deliver(m), now).c.rcv;
            && Acted(y, Deliver(m), now).rcvd == |x.log|
            && m.p.sequenceNum == r.recvSeq && q == Receiving.OnData(r, m.p).rcv
            && q.buf.log == r.buf.log + m.p.payload && q.buf.size == r.buf.size
            && q.held == map[] && q.nacks == {} && Receiving.Accept(r, m.p).nacks == {}
            && Receiving.Accept(r, m.p).buf == q.buf
  {
    hide *;
    Took(y, x, m, now);
    IsNear(y, x, m);
    NearAck(y, x, m);
    NearData(y, x, m);
    HalfIs(y, x);
    SoundIs(y, x);
    Comparisons.StatesDiffer(y.c.state);
    OnPacketIs(y.c, m.p, now);
    DeliverIs(y, m, now);
    ReceivedIs(y, OnData(y.c, m.p));
    DataIs(y.c, m.p);
    ReceivesIs(y.c.rcv, x.base, y.rcvd, x.log);
    DataReceives(y.c.rcv, m.p, m.idx, x.base, y.rcvd, x.log);
    OnDataIs(y.c.rcv, m.p);
    var q := Receiving.OnData(y.c.rcv, m.p).rcv;
    NothingHeld(q, x.base, |x.log|, x.log);
    LastPayload(x.log);
  }

  lemma NothingHeld(r: Receiving.Receiver, base: int, rcvd: nat, log: seq<Msg>)
    requires Receives(r, base, rcvd, log) && rcvd == |log|
    ensures r.held == map[] && r.nacks == {}
  {
    hide Receiving.Valid, Wrap;
    assert r.held.Keys == {};
  }

  lemma LastPayload(log: seq<Msg>)
    requires log != []
    ensures Receiving.Concat(Payloads(log)[|log| - 1..|log|]) == log[|log| - 1].p.payload
  {
    var s := Payloads(log);
    var last := s[|log| - 1..|log|];
    assert last == [s[|log| - 1]] && last[1..] == [];
  }

  /** With more in the buffer than at the last check, the check is made. */
  lemma Checked(r: Receiving.Receiver, p: Packet)
    requires p.sequenceNum == r.recvSeq && r.lastCheck < |Receiving.Accept(r, p).buf.log|
    requires Receiving.Accept(r, p).lastCheck == r.lastCheck && Receiving.Accept(r, p).choking == r.choking
    ensures var q, used, size := Receiving.OnData(r, p).rcv, |Receiving.Accept(r, p).buf.log|, Receiving.Accept(r, p).buf.size;
            && q.lastCheck == used
            && q.choking == (10 * used > 8 * size || (r.choking && 10 * used >= 3 * size))
  {
    hide Receiving.Accept;
  }

  // ----- a burst that nobody reads or acknowledges -----

  /** After n chunks, each sent and delivered, nothing read and nothing acknowledged. */
  ghost predicate Unread(w: World, side: Who, chunk: seq<byte>, n: nat, v: World) {
    var x, y := v.Of(side), v.Of(side.Other());
    && |x.log| == n && y.rcvd == n && (forall i | 0 <= i < n :: x.log[i].p.payload == chunk)
    && x.rcvd == 0 && x.acked == 0 && y.log == [] && y.out == []
    && x.c.state == y.c.state == Established
    && x.base == w.Of(side).base && x.c.ids == w.Of(side).c.ids
    && x.c.snd.window == w.Of(side).c.snd.window
    && y.base == w.Of(side.Other()).base && y.c.ids == w.Of(side.Other()).c.ids
    && y.c.rcv.buf.size == w.Of(side.Other()).c.rcv.buf.size && Full(y.c.rcv, n * |chunk|)
  }

  /** Nothing missing, `used` bytes in the buffer, and choking exactly above 8/10. */
  predicate Full(r: Receiving.Receiver, used: nat) {
    && r.held == map[] && r.nacks == {} && |r.buf.log| == used && r.lastCheck == used
    && (r.choking <==> 10 * used > 8 * r.buf.size)
  }

  /** Another chunk that arrives next keeps it so. */
  lemma Fuller(r: Receiving.Receiver, p: Packet, used: nat)
    requires Full(r, used) && Receiving.Valid(r) && p.sequenceNum == r.recvSeq && p.payload != []
    requires var q := Receiving.OnData(r, p).rcv;
             && q.buf.log == r.buf.log + p.payload && q.held == map[] && q.nacks == {}
             && q.buf == Receiving.Accept(r, p).buf
    ensures Full(Receiving.OnData(r, p).rcv, used + |p.payload|)
  {
    Receiving.AcceptValid(r, p);
    Checked(r, p);
    hide Receiving.OnData, Receiving.Accept;
  }

  lemma {:induction false} Burst(w: World, side: Who, chunk: seq<byte>, n: nat, now: int) returns (run: seq<World>)
    requires Start(w) && w.a.c.state == w.b.c.state == Established
    requires 0 < |chunk| <= NegotiatedMTU(w.Of(side).c.ids)
    requires n <= w.Of(side).c.snd.window.cwnd && n <= FirstZero(w.Of(side).base)
    ensures IsRun(run) && run[0] == w && Unread(w, side, chunk, n, Last(run))
  {
    hide *;
    StartIsRun(w);
    if n == 0 {
      run := [w];
      LastIs(run);
      StartUnread(w, side, chunk);
    } else {
      run := Burst(w, side, chunk, n - 1, now);
      run := OneMore(w, side, chunk, n, now, run);
    }
  }

  lemma StartUnread(w: World, side: Who, chunk: seq<byte>)
    requires Start(w) && w.a.c.state == w.b.c.state == Established
    ensures Unread(w, side, chunk, 0, w)
  {
    hide Congestion.InBounds, Wrap, ControlPacket;
  }

  lemma UnreadIs(w: World, side: Who, chunk: seq<byte>, n: nat, v: World)
    ensures var x, y := v.Of(side), v.Of(side.Other());
            Unread(w, side, chunk, n, v) <==>
              && |x.log| == n && y.rcvd == n && (forall i | 0 <= i < n :: x.log[i].p.payload == chunk)
              && x.rcvd == 0 && x.acked == 0 && y.log == [] && y.out == []
              && x.c.state == y.c.state == Established
              && x.base == w.Of(side).base && x.c.ids == w.Of(side).c.ids
              && x.c.snd.window == w.Of(side).c.snd.window
              && y.base == w.Of(side.Other()).base && y.c.ids == w.Of(side.Other()).c.ids
              && y.c.rcv.buf.size == w.Of(side.Other()).c.rcv.buf.size && Full(y.c.rcv, n * |chunk|)
  {
    hide Full;
  }

  lemma OneMore(w: World, side: Who, chunk: seq<byte>, n: nat, now: int, run: seq<World>) returns (longer: seq<World>)
    requires IsRun(run) && run[0] == w && n > 0 && Unread(w, side, chunk, n - 1, Last(run))
    requires 0 < |chunk| <= NegotiatedMTU(w.Of(side).c.ids)
    requires n <= w.Of(side).c.snd.window.cwnd && n <= FirstZero(w.Of(side).base)
    ensures IsRun(longer) && longer[0] == w && Unread(w, side, chunk, n, Last(longer))
  {
    hide *;
    RunIs(run);
    var v := Last(run);
    LastInv(run, side);
    UnreadIs(w, side, chunk, n - 1, v);
    var x, y := v.Of(side), v.Of(side.Other());
    CanWrite(x, y, chunk, now);
    Wrote(x, y, chunk, now);
    WithOf(v, side, Acted(x, Write(chunk), now));
    var run1 := Extend(run, side, Write(chunk), now);
    var m := Msg(DataPacket(x.c, chunk), n - 1, 0);
    var x' := Acted(x, Write(chunk), now);
    LastInv(run1, side.Other());
    assert m in x'.log by { assert x'.log[n - 1] == m; }
    NothingSent(y, x', m);
    DeliverEnabled(y, x', m, now);
    FirstZeroIs(x.base, n - 1);
    Took(y, x', m, now);
    TookNext(y, x', m, now);
    HalfIs(y, x');
    SoundIs(y, x');
    ReceivesIs(y.c.rcv, x'.base, y.rcvd, x'.log);
    Fuller(y.c.rcv, m.p, (n - 1) * |chunk|);
    assert (n - 1) * |chunk| + |chunk| == n * |chunk|;
    WithOf(Last(run1), side.Other(), Acted(y, Deliver(m), now));
    longer := Extend(run1, side.Other(), Deliver(m), now);
    LastInv(longer, side);
    InvBounds(x', Acted(y, Deliver(m), now));
    UnreadIs(w, side, chunk, n, Last(longer));
  }
}
