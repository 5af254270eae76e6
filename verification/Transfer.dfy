/** What can get through: between two established sides, exactly the streams that end before
    the first data packet numbered 0. */
module Transfer {
  import opened Serial
  import opened Packets
  import opened Connections
  import opened Protocol
  import opened ProtocolSteps
  import opened Delivery
  import opened Runs
  import opened Boundaries
  import Acknowledging
  import Comparisons
  import Receiving

  /** `chunks` were sent, taken, read and acknowledged, and nothing else has happened. */
  ghost predicate Settled(w: World, side: Who, chunks: seq<seq<byte>>, v: World) {
    var x, y := v.Of(side), v.Of(side.Other());
    && Payloads(x.log) == chunks && y.rcvd == |chunks| && x.acked == Cleaned(x) == |chunks|
    && x.rcvd == 0 && y.log == [] && x.c.state == y.c.state == Established
    && x.base == w.Of(side).base && x.c.ids == w.Of(side).c.ids
    && y.c.rcv.buf.log == [] && y.c.rcv.buf.size == w.Of(side.Other()).c.rcv.buf.size && !y.overflowed
  }

  lemma SettledIs(w: World, side: Who, chunks: seq<seq<byte>>, v: World)
    ensures var x, y := v.Of(side), v.Of(side.Other());
            Settled(w, side, chunks, v) <==>
              && Payloads(x.log) == chunks && y.rcvd == |chunks| && x.acked == Cleaned(x) == |chunks|
              && x.rcvd == 0 && y.log == [] && x.c.state == y.c.state == Established
              && x.base == w.Of(side).base && x.c.ids == w.Of(side).c.ids
              && y.c.rcv.buf.log == [] && y.c.rcv.buf.size == w.Of(side.Other()).c.rcv.buf.size && !y.overflowed
    ensures Settled(w, side, chunks, v) ==> |v.Of(side).log| == |chunks|
  {
    hide Payloads, Cleaned;
  }

  lemma StartSettled(w: World, side: Who)
    requires Start(w) && w.a.c.state == w.b.c.state == Established
    ensures Settled(w, side, [], w)
  {
    hide Congestion.InBounds, Wrap, ControlPacket;
  }

  // ----- one round: write, deliver, read, acknowledge -----

  /** A side with nothing in flight writes. */
  lemma SendOne(run: seq<World>, side: Who, chunk: seq<byte>, now: int) returns (longer: seq<World>, x': Side)
    requires IsRun(run)
    requires var x := Last(run).Of(side);
             x.c.state == Established && Cleaned(x) == |x.log| && 0 < |chunk| <= NegotiatedMTU(x.c.ids)
    ensures IsRun(longer) && longer[0] == run[0] && Last(longer) == Last(run).With(side, x')
    ensures var x := Last(run).Of(side);
            var m := Msg(DataPacket(x.c, chunk), |x.log|, x.rcvd);
            && x'.log == x.log + [m] && m.p.payload == chunk && m.p.sequenceNum == Wrap(x.base + |x.log|)
            && x'.c.state == Established && x'.c.ids == x.c.ids && x'.base == x.base && x'.rcvd == x.rcvd
            && x'.acked == x.acked && Cleaned(x') == |x.log|
  {
    hide *;
    RunIs(run);
    LastInv(run, side);
    var x, y := Last(run).Of(side), Last(run).Of(side.Other());
    CleanedIs(x);
    WindowAtLeastTwo(x, y);
    WriteIsEnabled(x, y, chunk, now);
    Wrote(x, y, chunk, now);
    x' := Acted(x, Write(chunk), now);
    CleanedIs(x');
    OneInFlight(x, chunk, now);
    longer := Extend(run, side, Write(chunk), now);
  }

  lemma WriteIsEnabled(x: Side, y: Side, chunk: seq<byte>, now: int)
    requires x.c.state == Established && |x.c.snd.sent| < x.c.snd.window.cwnd && 0 < |chunk| <= NegotiatedMTU(x.c.ids)
    ensures Enabled(x, y, Write(chunk), now)
  {
    hide NegotiatedMTU;
  }

  lemma OneInFlight(x: Side, chunk: seq<byte>, now: int)
    requires |x.c.snd.sent| == 0
    ensures |Acted(x, Write(chunk), now).c.snd.sent| == 1
  {
    assert x.c.snd.sent == map[];
    hide DataPacket;
  }

  /** The peer takes it into an empty buffer. */
  lemma TakeOne(run: seq<World>, side: Who, m: Msg, now: int) returns (longer: seq<World>, y': Side)
    requires IsRun(run)
    requires var x, y := Last(run).Of(side), Last(run).Of(side.Other());
             && y.c.state == Established && y.log == [] && y.c.rcv.buf.log == [] && !y.overflowed
             && |x.log| == y.rcvd + 1 && m == x.log[y.rcvd] && m.idx == y.rcvd
             && m.p.sequenceNum != 0 && |m.p.payload| <= y.c.rcv.buf.size
    ensures IsRun(longer) && longer[0] == run[0] && Last(longer) == Last(run).With(side.Other(), y')
    ensures var y := Last(run).Of(side.Other());
            && y'.c.state == Established && y'.log == [] && y'.rcvd == y.rcvd + 1
            && y'.c.rcv.buf.log == m.p.payload && y'.c.rcv.buf.size == y.c.rcv.buf.size && !y'.overflowed
  {
    hide *;
    RunIs(run);
    LastInv(run, side.Other());
    var x, y := Last(run).Of(side), Last(run).Of(side.Other());
    WithOf(Last(run), side, x);
    assert m in x.log;
    NothingSent(y, x, m);
    DeliverEnabled(y, x, m, now);
    Took(y, x, m, now);
    TookNext(y, x, m, now);
    Comparisons.StatesDiffer(y.c.state);
    DeliverIs(y, m, now);
    ReceivedIs(y, OnPacket(y.c, m.p, now));
    y' := Acted(y, Deliver(m), now);
    assert [] + m.p.payload == m.p.payload;
    longer := Extend(run, side.Other(), Deliver(m), now);
  }

  /** The application reads everything. */
  lemma ReadAll(run: seq<World>, side: Who, now: int) returns (longer: seq<World>, y': Side)
    requires IsRun(run)
    requires var y := Last(run).Of(side); 0 < |y.c.rcv.buf.log| <= y.c.rcv.buf.size
    ensures IsRun(longer) && longer[0] == run[0] && Last(longer) == Last(run).With(side, y')
    ensures var y := Last(run).Of(side);
            && y'.c.state == y.c.state && y'.log == y.log && y'.rcvd == y.rcvd && y'.overflowed == y.overflowed
            && y'.c.rcv.buf.log == [] && y'.c.rcv.buf.size == y.c.rcv.buf.size
  {
    hide *;
    RunIs(run);
    LastInv(run, side);
    var x, y := Last(run).Of(side.Other()), Last(run).Of(side);
    var n := |y.c.rcv.buf.log|;
    HalfIs(y, x);
    SoundIs(y, x);
    ReadIs(y, n, now);
    ReadReceives(y.c.rcv, n, x.base, y.rcvd, x.log);
    ConsumesAll(y.c.rcv);
    ReadEnabled(y, x, n, now);
    y' := Acted(y, Read(n), now);
    longer := Extend(run, side, Read(n), now);
  }

  lemma ReadEnabled(y: Side, x: Side, n: nat, now: int)
    requires |y.c.rcv.buf.log| > 0
    ensures Enabled(y, x, Read(n), now)
  {
  }

  lemma ConsumesAll(r: Receiving.Receiver)
    requires |r.buf.log| <= r.buf.size
    ensures Receiving.Consume(r, |r.buf.log|).buf == Receiving.Buffer([], r.buf.size)
  {
  }

  /** A keep-alive acknowledgement with nothing to request. */
  lemma AckOne(run: seq<World>, side: Who, now: int) returns (longer: seq<World>, y': Side, ack: Msg)
    requires IsRun(run)
    requires var x, y := Last(run).Of(side.Other()), Last(run).Of(side); y.c.state == Established && y.rcvd == |x.log|
    ensures IsRun(longer) && longer[0] == run[0] && Last(longer) == Last(run).With(side, y')
    ensures var y := Last(run).Of(side);
            y' == y.(ctl := y.ctl + {ack}) && ack.ack == y.rcvd && ack.p.sequenceNum == 0
  {
    hide *;
    RunIs(run);
    LastInv(run, side);
    var x, y := Last(run).Of(side.Other()), Last(run).Of(side);
    InvSwap(y, x);
    InvBounds(x, y);
    NothingHeld(y.c.rcv, x.base, y.rcvd, x.log);
    ack := Msg(ControlPacket(y.c, Receiving.Acknowledge, []), 0, y.rcvd);
    y' := y.(ctl := y.ctl + {ack});
    KeepAliveStep(y, x, ack, now, y');
    OneStep(Last(run), side, now, y');
    LastIs(run);
    longer := run + [Last(run).With(side, y')];
    LastIs(longer);
    LongerRun(run, Last(run).With(side, y'));
  }

  lemma KeepAliveStep(y: Side, x: Side, ack: Msg, now: int, y': Side)
    requires y.c.state == Established && y.c.rcv.nacks == {}
    requires ack == Msg(ControlPacket(y.c, Receiving.Acknowledge, []), 0, y.rcvd) && y' == y.(ctl := y.ctl + {ack})
    ensures Step(y, x, KeepAlive, now, y') && ack.p.sequenceNum == 0
  {
    assert IsControl(y'.c, Receiving.Acknowledge, ack.p) by { hide Wrap; }
    hide IsControl, ControlPacket;
    assert Receiving.Acknowledge in Kinds(y, KeepAlive, now);
  }

  lemma OneStep(w: World, side: Who, now: int, y': Side)
    requires Step(w.Of(side), w.Of(side.Other()), KeepAlive, now, y')
    ensures Next(w, w.With(side, y'))
  {
    hide Step;
  }

  /** It arrives, and nothing is in flight any more. */
  lemma TakeAck(run: seq<World>, side: Who, ack: Msg, now: int) returns (longer: seq<World>, x': Side)
    requires IsRun(run)
    requires var x, y := Last(run).Of(side), Last(run).Of(side.Other());
             && x.c.state == Established && y.log == [] && ack in y.ctl && ack.p.sequenceNum == 0
             && ack.ack == |x.log| == Cleaned(x) + 1 && x.acked == Cleaned(x)
    ensures IsRun(longer) && longer[0] == run[0] && Last(longer) == Last(run).With(side, x')
    ensures var x := Last(run).Of(side);
            && x'.c.state == Established && x'.c.ids == x.c.ids && x'.base == x.base && x'.log == x.log
            && x'.rcvd == x.rcvd && x'.acked == Cleaned(x') == |x'.log|
  {
    hide *;
    RunIs(run);
    LastInv(run, side);
    var x, y := Last(run).Of(side), Last(run).Of(side.Other());
    WithOf(Last(run), side, x);
    AckDeliverable(x, y, ack);
    DeliverEnabled(x, y, ack, now);
    Took(x, y, ack, now);
    Comparisons.StatesDiffer(x.c.state);
    x' := Acted(x, Deliver(ack), now);
    longer := Extend(run, side, Deliver(ack), now);
    WithOf(Last(run), side, x');
    LastInv(longer, side);
    InvBounds(x', y);
    InvBounds(x, y);
    ActedStep(x, y, Deliver(ack), now);
    NewAck(x, y, ack, now);
  }

  lemma AckDeliverable(x: Side, y: Side, ack: Msg)
    requires y.log == [] && ack in y.ctl && Cleaned(x) < ack.ack
    ensures Deliverable(x, y, ack)
  {
    hide Cleaned;
  }

  lemma ActedStep(x: Side, y: Side, act: Action, now: int)
    requires Enabled(x, y, act, now)
    ensures Step(x, y, act, now, Acted(x, act, now))
  {
    ActedKeepsControl(x, act, now);
    hide Acted, Enabled, Kinds;
  }

  lemma NewAck(x: Side, y: Side, ack: Msg, now: int)
    requires Inv(x, y) && Step(x, y, Deliver(ack), now, Acted(x, Deliver(ack), now))
    requires ack.p.sequenceNum == 0 && ack.ack == |x.log| == Cleaned(x) + 1 && x.acked == Cleaned(x)
    requires var x' := Acted(x, Deliver(ack), now); x'.log == x.log && Cleaned(x') <= |x'.log|
    ensures Cleaned(Acted(x, Deliver(ack), now)) == |x.log|
  {
    hide *;
    InvBounds(x, y);
    Acknowledging.CleanedExactly(x, y, Deliver(ack), now, Acted(x, Deliver(ack), now));
  }

  // ----- whole streams -----

  lemma OneRound(w: World, side: Who, chunks: seq<seq<byte>>, chunk: seq<byte>, now: int, run: seq<World>)
    returns (longer: seq<World>)
    requires IsRun(run) && run[0] == w && Settled(w, side, chunks, Last(run))
    requires 0 < |chunk| <= NegotiatedMTU(w.Of(side).c.ids) && |chunk| <= w.Of(side.Other()).c.rcv.buf.size
    requires |chunks| < FirstZero(w.Of(side).base)
    ensures IsRun(longer) && longer[0] == w && Settled(w, side, chunks + [chunk], Last(longer))
  {
    hide *;
    RunIs(run);
    var v := Last(run);
    var x := v.Of(side);
    SettledIs(w, side, chunks, v);
    var run1, x1 := SendOne(run, side, chunk, now);
    RunIs(run1);
    WithOf(v, side, x1);
    FirstZeroIs(x.base, |chunks|);
    var m := x1.log[|chunks|];
    var run2, y2 := TakeOne(run1, side, m, now);
    RunIs(run2);
    WithOf(Last(run1), side.Other(), y2);
    var run3, y3 := ReadAll(run2, side.Other(), now);
    RunIs(run3);
    WithOf(Last(run2), side.Other(), y3);
    var run4, y4, ack := AckOne(run3, side.Other(), now);
    RunIs(run4);
    WithOf(Last(run3), side.Other(), y4);
    assert ack in y4.ctl;
    var run5, x5 := TakeAck(run4, side, ack, now);
    RunIs(run5);
    WithOf(Last(run4), side, x5);
    longer := run5;
    OneMorePayload(x.log, m);
    SettledIs(w, side, chunks + [chunk], Last(longer));
  }

  lemma OneMorePayload(log: seq<Msg>, m: Msg)
    ensures Payloads(log + [m]) == Payloads(log) + [m.p.payload]
  {
  }

  predicate Sendable(w: World, side: Who, chunks: seq<seq<byte>>) {
    forall i | 0 <= i < |chunks| ::
      0 < |chunks[i]| <= NegotiatedMTU(w.Of(side).c.ids) && |chunks[i]| <= w.Of(side.Other()).c.rcv.buf.size
  }

  lemma {:induction false} GetsThrough(w: World, side: Who, chunks: seq<seq<byte>>, now: int) returns (run: seq<World>)
    requires Start(w) && w.a.c.state == w.b.c.state == Established
    requires Sendable(w, side, chunks) && |chunks| <= FirstZero(w.Of(side).base)
    ensures IsRun(run) && run[0] == w && Settled(w, side, chunks, Last(run))
  {
    hide *;
    StartIsRun(w);
    if chunks == [] {
      run := [w];
      LastIs(run);
      StartSettled(w, side);
    } else {
      var n := |chunks| - 1;
      SendableStep(w, side, chunks);
      run := GetsThrough(w, side, chunks[..n], now);
      run := OneRound(w, side, chunks[..n], chunks[n], now, run);
      assert chunks[..n] + [chunks[n]] == chunks;
    }
  }

  lemma SendableStep(w: World, side: Who, chunks: seq<seq<byte>>)
    requires Sendable(w, side, chunks) && chunks != []
    ensures var n := |chunks| - 1;
            && Sendable(w, side, chunks[..n]) && 0 < |chunks[n]| <= NegotiatedMTU(w.Of(side).c.ids)
            && |chunks[n]| <= w.Of(side.Other()).c.rcv.buf.size
  {
    hide NegotiatedMTU;
  }

  /** The peer has read exactly `chunks`, which are all that was sent. */
  ghost predicate Arrived(side: Who, chunks: seq<seq<byte>>, v: World) {
    Payloads(v.Of(side).log) == chunks && v.Of(side.Other()).out == Receiving.Concat(chunks)
  }

  /** A stream of chunks that Write can cut, and that each fit the buffer, can be sent and read
      to its last byte if and only if none of them gets the number 0. */
  lemma TransfersExactly(w: World, side: Who, chunks: seq<seq<byte>>)
    requires Start(w) && w.a.c.state == w.b.c.state == Established && Sendable(w, side, chunks)
    ensures (exists run :: IsRun(run) && run[0] == w && Arrived(side, chunks, Last(run)))
            <==> |chunks| <= FirstZero(w.Of(side).base)
  {
    hide Start, Next, FirstZero, Arrived, Settled, Sendable;
    if |chunks| <= FirstZero(w.Of(side).base) {
      var run := GetsThrough(w, side, chunks, 0);
      SettledArrived(w, side, chunks, run);
    }
    forall run | IsRun(run) && run[0] == w && Arrived(side, chunks, Last(run))
      ensures |chunks| <= FirstZero(w.Of(side).base)
    {
      ArrivedWhole(w, side, chunks, run);
    }
  }

  lemma SettledArrived(w: World, side: Who, chunks: seq<seq<byte>>, run: seq<World>)
    requires IsRun(run) && Settled(w, side, chunks, Last(run))
    ensures Arrived(side, chunks, Last(run))
  {
    hide *;
    RunIs(run);
    var v := Last(run);
    var x, y := v.Of(side), v.Of(side.Other());
    SettledIs(w, side, chunks, v);
    ReachableLast(run);
    Sides(v, side);
    EndToEnd(v, x, y);
    EmptyBytes(y.c.rcv.buf);
    assert chunks[..|chunks|] == chunks;
    assert y.out + [] == y.out;
    ArrivedIs(side, chunks, v);
  }

  lemma EmptyBytes(buf: Receiving.Buffer)
    ensures buf.log == [] ==> buf.Bytes() == []
  {
  }

  lemma ArrivedIs(side: Who, chunks: seq<seq<byte>>, v: World)
    ensures Arrived(side, chunks, v) <==>
              Payloads(v.Of(side).log) == chunks && v.Of(side.Other()).out == Receiving.Concat(chunks)
    ensures Arrived(side, chunks, v) ==> |v.Of(side).log| == |chunks|
  {
    hide Payloads, Receiving.Concat;
  }

  lemma ArrivedWhole(w: World, side: Who, chunks: seq<seq<byte>>, run: seq<World>)
    requires IsRun(run) && run[0] == w && Arrived(side, chunks, Last(run)) && Sendable(w, side, chunks)
    ensures |chunks| <= FirstZero(w.Of(side).base)
  {
    hide *;
    RunIs(run);
    var v := Last(run);
    var x, y := v.Of(side), v.Of(side.Other());
    ReachableLast(run);
    Sides(v, side);
    EndToEnd(v, x, y);
    NoneBeyond(run, side);
    ArrivedIs(side, chunks, v);
    LastInv(run, side.Other());
    WithOf(v, side, x);
    HalfIs(y, x);
    SoundIs(y, x);
    IntactIs(y.c.rcv.buf, y.fed, y.out, y.overflowed);
    if y.rcvd < |chunks| {
      SendableStep(w, side, chunks);
      Shorter(w, side, chunks, y.rcvd);
    }
  }

  /** Every chunk has at least one byte. */
  lemma Shorter(w: World, side: Who, chunks: seq<seq<byte>>, n: nat)
    requires Sendable(w, side, chunks) && n < |chunks|
    ensures |Receiving.Concat(chunks[..n])| < |Receiving.Concat(chunks)|
  {
    var rest := chunks[n..];
    assert chunks == chunks[..n] + rest;
    Receiving.ConcatAppend(chunks[..n], rest);
    assert Receiving.Concat(rest) == chunks[n] + Receiving.Concat(rest[1..]);
  }

  /** Chunk by chunk: from every start with both sides established, chunk i arrives in some
      run if and only if it comes before the first one numbered 0. */
  lemma ChunkArrivesExactly(w: World, side: Who, i: nat)
    requires Start(w) && w.a.c.state == w.b.c.state == Established && NegotiatedMTU(w.Of(side).c.ids) > 0
    ensures (exists run :: IsRun(run) && run[0] == w && Last(run).Of(side.Other()).rcvd > i)
            <==> i < FirstZero(w.Of(side).base)
  {
    hide Start, Next, FirstZero, NegotiatedMTU, Settled, Sendable;
    if i < FirstZero(w.Of(side).base) {
      var chunks := seq<seq<byte>>(i + 1, _ => [0]);
      OneByteEach(w, side, chunks);
      var run := GetsThrough(w, side, chunks, 0);
      SettledIs(w, side, chunks, Last(run));
    }
    forall run | IsRun(run) && run[0] == w && Last(run).Of(side.Other()).rcvd > i
      ensures i < FirstZero(w.Of(side).base)
    {
      NoneBeyond(run, side);
    }
  }

  lemma NoneBeyond(run: seq<World>, side: Who)
    requires IsRun(run)
    ensures run != [] && Last(run).Of(side.Other()).rcvd <= FirstZero(run[0].Of(side).base)
  {
    hide *;
    RunIs(run);
    ReachableLast(run);
    LastIs(run);
    Sides(Last(run), side);
    Sides(run[0], side);
    RunInvariant(run, 0, |run| - 1);
    StreamEndsAtZero(Last(run), Last(run).Of(side), Last(run).Of(side.Other()));
  }

  lemma OneByteEach(w: World, side: Who, chunks: seq<seq<byte>>)
    requires Start(w) && NegotiatedMTU(w.Of(side).c.ids) > 0 && forall i | 0 <= i < |chunks| :: chunks[i] == [0]
    ensures Sendable(w, side, chunks)
  {
    hide *;
    BothStart(w, side.Other());
    FreshIs(w.Of(side.Other()), w.Of(side.Other().Other()));
    SendableIf(w, side, chunks);
  }

  lemma SendableIf(w: World, side: Who, chunks: seq<seq<byte>>)
    requires NegotiatedMTU(w.Of(side).c.ids) > 0 && w.Of(side.Other()).c.rcv.buf.size > 0
    requires forall i | 0 <= i < |chunks| :: chunks[i] == [0]
    ensures Sendable(w, side, chunks)
  {
    hide NegotiatedMTU;
  }
}
