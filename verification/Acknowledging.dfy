/** What is acknowledged and what an acknowledgement cleans, both exactly. */
module Acknowledging {
  import opened Serial
  import opened Packets
  import opened Connections
  import opened Protocol
  import opened ProtocolSteps
  import opened Delivery
  import opened Runs
  import opened Boundaries
  import Choking
  import Comparisons
  import Congestion
  import Refinement
  import Receiving
  import Sending

  // ----- which packets are answered -----

  /** The next data packet is taken in silence: the peer is choked already, nothing is missing
      afterwards, and the usage neither falls below the unchoke threshold nor is checked. */
  predicate Silent(r: Receiving.Receiver, p: Packet) {
    var a := Receiving.Accept(r, p);
    && r.choking && a.nacks == {}
    && (|a.buf.log| == r.lastCheck || 10 * |a.buf.log| >= 3 * r.buf.size)
  }

  /** A data packet gets no answer exactly if it is old, or next and taken in silence. */
  lemma DataAnsweredExactly(c: Conn, p: Packet)
    requires Receiving.Valid(c.rcv)
    ensures OnData(c, p).ctl == [] <==>
              if p.sequenceNum == c.rcv.recvSeq then Silent(c.rcv, p) else SeqLess(p.sequenceNum, c.rcv.recvSeq)
  {
    Receiving.AcceptValid(c.rcv, p);
    hide Receiving.Accept, Receiving.Valid, Sending.Piggyback, SeqLess;
  }

  /** In the protocol: what is answered are the data packets that an established side takes,
      unless in silence; nothing else is. */
  lemma AnsweredExactly(x: Side, y: Side, m: Msg, now: int)
    requires Inv(x, y) && Deliverable(x, y, m)
    ensures Kinds(x, Deliver(m), now) != [] <==>
              && x.c.state == Established && m.p.sequenceNum != 0
              && (m.idx > x.rcvd || (m.idx == x.rcvd && !Silent(x.c.rcv, m.p)))
  {
    hide *;
    IsNear(x, y, m);
    NearAck(x, y, m);
    HalfIs(x, y);
    SoundIs(x, y);
    ReceivesIs(x.c.rcv, y.base, x.rcvd, y.log);
    OnPacketIs(x.c, m.p, now);
    KindsAre(x, m, now);
    Comparisons.StatesDiffer(x.c.state);
    if x.c.state == Established && m.p.sequenceNum != 0 {
      NearData(x, y, m);
      Words();
      SerialIsExact(y.base + m.idx, y.base + x.rcvd);
      DataAnsweredExactly(x.c, m.p);
    }
  }

  lemma KindsAre(x: Side, m: Msg, now: int)
    ensures Kinds(x, Deliver(m), now) == OnPacket(x.c, m.p, now).ctl
    ensures OnFinalAck(x.c, m.p).ctl == [] && OnAck(x.c, m.p, now).ctl == []
  {
    hide OnPacket, Sending.OnAck, OnDelay;
  }

  /** New data does stay unanswered: from every start with both sides established whose window
      lets one side fill more than 8/10 of the other's buffer, there is a run after which the
      next chunk can be delivered, is taken, and brings no answer. */
  lemma UnansweredIsReached(w: World, side: Who, chunk: seq<byte>, n: nat, now: int) returns (run: seq<World>, m: Msg)
    requires Start(w) && w.a.c.state == w.b.c.state == Established
    requires 0 < |chunk| <= NegotiatedMTU(w.Of(side).c.ids)
    requires n < w.Of(side).c.snd.window.cwnd && n < FirstZero(w.Of(side).base)
    requires 10 * (n * |chunk|) > 8 * w.Of(side.Other()).c.rcv.buf.size
    ensures IsRun(run) && run[0] == w
    ensures var x, y := Last(run).Of(side), Last(run).Of(side.Other());
            && |x.log| == n + 1 && m == x.log[n] && y.rcvd == n && Hushed(y) && Enabled(y, x, Deliver(m), now)
            && Acted(y, Deliver(m), now).rcvd == n + 1 && Kinds(y, Deliver(m), now) == []
  {
    hide *;
    var full := Burst(w, side, chunk, n, now);
    RunIs(full);
    var v := Last(full);
    UnreadIs(w, side, chunk, n, v);
    LastInv(full, side);
    var x, y := v.Of(side), v.Of(side.Other());
    CanWrite(x, y, chunk, now);
    Wrote(x, y, chunk, now);
    run := Extend(full, side, Write(chunk), now);
    var x' := Acted(x, Write(chunk), now);
    WithOf(v, side, x');
    LastInv(run, side.Other());
    m := Msg(DataPacket(x.c, chunk), n, 0);
    assert x'.log[n] == m;
    assert m in x'.log;
    IsHushed(y, n * |chunk|);
    NothingSent(y, x', m);
    DeliverEnabled(y, x', m, now);
    FirstZeroIs(x.base, n);
    Took(y, x', m, now);
    TookNext(y, x', m, now);
    HushedSays(y, x', m, now);
  }

  /** A duplicate is dropped in silence: if the acknowledgement of a packet was lost, its
      retransmission does not bring another. */
  lemma DuplicateGetsNoAnswer(x: Side, y: Side, m: Msg, now: int)
    requires Inv(x, y) && Deliverable(x, y, m) && x.c.state == Established
    requires m.p.sequenceNum != 0 && m.idx < x.rcvd
    ensures Kinds(x, Deliver(m), now) == [] && Acted(x, Deliver(m), now).c == x.c
  {
    hide *;
    IsNear(x, y, m);
    NearAck(x, y, m);
    NearData(x, y, m);
    HalfIs(x, y);
    SoundIs(x, y);
    ReceivesIs(x.c.rcv, y.base, x.rcvd, y.log);
    Words();
    SerialIsExact(y.base + m.idx, y.base + x.rcvd);
    OnPacketIs(x.c, m.p, now);
    Comparisons.StatesDiffer(x.c.state);
    DeliverIs(x, m, now);
    ReceivedIs(x, OnData(x.c, m.p));
    OldDataIs(x, m, now);
  }

  lemma OldDataIs(x: Side, m: Msg, now: int)
    requires SeqLess(m.p.sequenceNum, x.c.rcv.recvSeq) && m.p.sequenceNum != x.c.rcv.recvSeq
    ensures OnData(x.c, m.p) == Outcome(x.c, [], [])
    ensures Kinds(x, Deliver(m), now) == OnPacket(x.c, m.p, now).ctl
  {
    hide SeqLess, Sending.Piggyback;
  }

  /** What a data packet does to the sending half: at most it moves ackThrough, if it is the next
      one and its acknowledgement is new. Nothing is cleaned, counted, measured or grown. */
  lemma DataLeavesSender(c: Conn, p: Packet)
    ensures var d := OnData(c, p).conn;
            && d.snd.sent == c.snd.sent && d.snd.nackCounts == c.snd.nackCounts && d.snd.sendSeq == c.snd.sendSeq
            && d.snd.window == c.snd.window && d.snd.timer == c.snd.timer
            && d.snd.ackThrough == (if p.sequenceNum == c.rcv.recvSeq && !Has(p.flags, Flag.NoAck)
                                       && SeqGreater(p.ackThrough, c.snd.ackThrough)
                                    then p.ackThrough else c.snd.ackThrough)
            && d.choke == c.choke && d.state == c.state && d.ids == c.ids && OnData(c, p).fired == []
  {
    hide Receiving.OnData, SeqGreater, Has;
  }

  // ----- which steps clean -----

  /** A step cleans tracked packets exactly if it takes a plain acknowledgement that is ahead
      of everything acknowledged so far, by whatever kind of packet. */
  lemma CleanedExactly(x: Side, y: Side, act: Action, now: int, x': Side)
    requires Inv(x, y) && Step(x, y, act, now, x')
    ensures Cleaned(x') > Cleaned(x) <==> act.Deliver? && act.m.p.sequenceNum == 0 && act.m.ack > x.acked
    ensures Cleaned(x') >= Cleaned(x)
  {
    hide *;
    Refinement.StepRefines(x, y, act, now, x');
    StepIs(x, y, act, now, x');
    EnabledIs(x, y, act, now);
    InvBounds(x, y);
    HalfIs(x, y);
    SoundIs(x, y);
    Comparisons.StatesDiffer(x.c.state);
    if act.Deliver? {
      IsNear(x, y, act.m);
      NearAck(x, y, act.m);
    }
    Refinement.MoveIs(x, act);
    Refinement.FlowIs(x, y);
    Refinement.FlowIs(y, x);
    Refinement.FlowIs(x', y);
    Refinement.MovedIs(Refinement.FlowOf(x, y), Refinement.FlowOf(y, x), Refinement.MoveOf(x, act));
  }

  /** Between two points of a run, side takes a plain acknowledgement ahead of all before. */
  ghost predicate Cleans(w: World, side: Who, w': World) {
    exists act, now ::
      && Step(w.Of(side), w.Of(side.Other()), act, now, w'.Of(side)) && w'.Of(side.Other()) == w.Of(side.Other())
      && act.Deliver? && act.m.p.sequenceNum == 0 && act.m.ack > w.Of(side).acked
  }

  lemma NextCleansExactly(w: World, side: Who, w': World)
    requires Inv(w.a, w.b) && Next(w, w')
    ensures Cleaned(w'.Of(side)) > Cleaned(w.Of(side)) <==> Cleans(w, side, w')
    ensures Cleaned(w'.Of(side)) >= Cleaned(w.Of(side))
  {
    hide Inv, Step, Cleaned;
    var x, y, x' := w.Of(side), w.Of(side.Other()), w'.Of(side);
    InvSwap(w.a, w.b);
    if Cleans(w, side, w') {
      var act, now :| && Step(x, y, act, now, x') && w'.Of(side.Other()) == y
                      && act.Deliver? && act.m.p.sequenceNum == 0 && act.m.ack > x.acked;
      CleanedExactly(x, y, act, now, x');
    } else if w'.Of(side.Other()) == y && exists act, now :: Step(x, y, act, now, x') {
      var act, now :| Step(x, y, act, now, x');
      CleanedExactly(x, y, act, now, x');
    } else {
      assert x' == x;
    }
  }

  /** Over whole runs, for either side: more is cleaned at a later point if and only if in
      between a plain acknowledgement arrived that was ahead of everything acknowledged. */
  lemma {:induction false} CleanedOverRuns(run: seq<World>, side: Who, i: nat, j: nat)
    requires IsRun(run) && i <= j < |run|
    ensures Cleaned(run[j].Of(side)) > Cleaned(run[i].Of(side))
            <==> exists k :: i <= k < j && Cleans(run[k], side, run[k + 1])
    ensures Cleaned(run[j].Of(side)) >= Cleaned(run[i].Of(side))
    decreases j
  {
    hide *;
    if i < j {
      CleanedOverRuns(run, side, i, j - 1);
      RunIs(run);
      RunInvariant(run, j - 1, j - 1);
      NextCleansExactly(run[j - 1], side, run[j]);
      if Cleaned(run[j].Of(side)) > Cleaned(run[i].Of(side)) {
        if Cleaned(run[j].Of(side)) > Cleaned(run[j - 1].Of(side)) {
          assert Cleans(run[j - 1], side, run[(j - 1) + 1]);
        }
      }
    }
  }

  /** In particular, when an acknowledgement on a data packet was the first to cover
      everything sent, the covered packets stay tracked, and subject to timeouts, as long as
      nothing new is written. */
  lemma {:induction false} StaysTracked(run: seq<World>, side: Who, i: nat, j: nat)
    requires IsRun(run) && i <= j < |run|
    requires var x := run[i].Of(side); x.acked == |x.log| && |run[j].Of(side).log| == |x.log|
    ensures Cleaned(run[j].Of(side)) == Cleaned(run[i].Of(side))
    decreases j
  {
    hide *;
    if i < j {
      RunInvariant(run, i, j - 1);
      RunInvariant(run, j - 1, j);
      Sides(run[i], side);
      Sides(run[j - 1], side);
      Sides(run[j], side);
      StaysTracked(run, side, i, j - 1);
      InvSwap(run[j - 1].a, run[j - 1].b);
      InvBounds(run[j - 1].Of(side), run[j - 1].Of(side.Other()));
      RunIs(run);
      NextCleansExactly(run[j - 1], side, run[j]);
      NothingAhead(run[j - 1], side, run[j]);
    }
  }

  lemma NothingAhead(w: World, side: Who, w': World)
    requires Inv(w.a, w.b) && w.Of(side).acked == |w.Of(side).log|
    ensures !Cleans(w, side, w')
  {
    hide Inv, Near, Step;
    var x, y := w.Of(side), w.Of(side.Other());
    InvSwap(w.a, w.b);
    forall act, now | Step(x, y, act, now, w'.Of(side)) && act.Deliver?
      ensures act.m.ack <= x.acked
    {
      StepIs(x, y, act, now, w'.Of(side));
      EnabledIs(x, y, act, now);
      IsNear(x, y, act.m);
      NearAck(x, y, act.m);
    }
  }

  // ----- a hushed receiver -----

  /** A choked receiver that misses nothing and is not below the unchoke threshold. */
  predicate Hushed(y: Side) {
    && y.c.state == Established && y.c.rcv.choking && y.c.rcv.held == map[] && y.c.rcv.nacks == {}
    && 10 * |y.c.rcv.buf.log| >= 3 * y.c.rcv.buf.size
  }

  lemma IsHushed(y: Side, used: nat)
    requires y.c.state == Established && Full(y.c.rcv, used) && 10 * used > 8 * y.c.rcv.buf.size
    ensures Hushed(y)
  {
  }

  /** Whatever arrives in order, new or repeated, is taken without a word. */
  lemma HushedSays(y: Side, x: Side, m: Msg, now: int)
    requires Inv(y, x) && Deliverable(y, x, m) && Hushed(y)
    requires m.p.sequenceNum == 0 || m.idx <= y.rcvd
    ensures Kinds(y, Deliver(m), now) == [] && Hushed(Acted(y, Deliver(m), now))
  {
    hide *;
    IsNear(y, x, m);
    NearAck(y, x, m);
    HalfIs(y, x);
    SoundIs(y, x);
    HushedIs(y);
    HushedIs(Acted(y, Deliver(m), now));
    OnPacketIs(y.c, m.p, now);
    DeliverIs(y, m, now);
    ReceivedIs(y, OnPacket(y.c, m.p, now));
    KindsAre(y, m, now);
    Comparisons.StatesDiffer(y.c.state);
    if m.p.sequenceNum == 0 {
      AckIs(y.c, m.p, now);
    } else {
      NearData(y, x, m);
      ReceivesIs(y.c.rcv, x.base, y.rcvd, x.log);
      Words();
      SerialIsExact(x.base + m.idx, x.base + y.rcvd);
      DataIs(y.c, m.p);
      HushedTakes(y.c, m.p);
    }
  }

  lemma HushedIs(y: Side)
    ensures Hushed(y) <==>
              && y.c.state == Established && y.c.rcv.choking && y.c.rcv.held == map[] && y.c.rcv.nacks == {}
              && 10 * |y.c.rcv.buf.log| >= 3 * y.c.rcv.buf.size
  {
  }

  lemma HushedTakes(c: Conn, p: Packet)
    requires c.rcv.choking && c.rcv.held == map[] && c.rcv.nacks == {} && 10 * |c.rcv.buf.log| >= 3 * c.rcv.buf.size
    requires p.sequenceNum == c.rcv.recvSeq || SeqLess(p.sequenceNum, c.rcv.recvSeq)
    ensures OnData(c, p).ctl == []
    ensures var q := Receiving.OnData(c.rcv, p).rcv;
            && q.choking && q.held == map[] && q.nacks == {}
            && 10 * |q.buf.log| >= 3 * q.buf.size
  {
    if p.sequenceNum == c.rcv.recvSeq {
      Choking.FillOnce(c.rcv, p);
    }
    hide Receiving.Accept, SeqLess, Sending.Piggyback;
  }

  /** Not a Read, not a keep-alive, and no arrival that leaves a gap. */
  predicate Quiet(y: Side, act: Action) {
    match act
    case Deliver(m) => m.p.sequenceNum == 0 || m.idx <= y.rcvd
    case Read(_) => false
    case KeepAlive => false
    case _ => true
  }

  lemma QuietStep(y: Side, x: Side, act: Action, now: int, y': Side)
    requires Inv(y, x) && Step(y, x, act, now, y') && Hushed(y) && Quiet(y, act)
    ensures Hushed(y') && y'.ctl == y.ctl
  {
    hide *;
    StepIs(y, x, act, now, y');
    EnabledIs(y, x, act, now);
    HushedIs(y);
    HushedIs(y');
    HushedIs(Acted(y, act, now));
    QuietIs(y, act);
    match act {
      case Write(chunk) => WriteIs(y, chunk, now);
      case Deliver(m) => HushedSays(y, x, m, now);
      case Tick(done, gaveUp) => TickIs(y, done, gaveUp, now);
      case _ =>
    }
    NothingNew(y, x, act, now, y');
  }

  lemma QuietIs(y: Side, act: Action)
    requires Quiet(y, act)
    ensures !act.Read? && !act.KeepAlive?
    ensures act.Deliver? ==> act.m.p.sequenceNum == 0 || act.m.idx <= y.rcvd
  {
  }

  lemma NothingNew(y: Side, x: Side, act: Action, now: int, y': Side)
    requires Step(y, x, act, now, y')
    requires act.Write? || act.Tick? || Kinds(y, act, now) == []
    ensures y'.ctl == y.ctl
  {
    assert Kinds(y, act, now) == [] by { hide OnPacket, OnRead; }
    hide Enabled, Acted, Kinds;
  }

  /** From one point of a run to the next, side does nothing or something quiet. */
  ghost predicate KeepsQuiet(w: World, side: Who, w': World) {
    w'.Of(side) == w.Of(side)
    || exists act, now :: Step(w.Of(side), w.Of(side.Other()), act, now, w'.Of(side)) && Quiet(w.Of(side), act)
  }

  lemma NextQuiet(w: World, side: Who, w': World)
    requires Inv(w.Of(side), w.Of(side.Other())) && KeepsQuiet(w, side, w') && Hushed(w.Of(side))
    ensures Hushed(w'.Of(side)) && w'.Of(side).ctl == w.Of(side).ctl
  {
    hide Inv, Step, Hushed, Quiet;
    if w'.Of(side) != w.Of(side) {
      var act, now :| Step(w.Of(side), w.Of(side.Other()), act, now, w'.Of(side)) && Quiet(w.Of(side), act);
      QuietStep(w.Of(side), w.Of(side.Other()), act, now, w'.Of(side));
    }
  }

  /** As long as a hushed side is quiet it sends no acknowledgement, whatever its peer sends or
      repeats in order; and if those it sent before say nothing new, the peer cleans nothing,
      though everything may have arrived. What is tracked then goes on being resent until the
      retries are used up. */
  lemma {:induction false} HushedOverRuns(run: seq<World>, side: Who, i: nat, j: nat)
    requires IsRun(run) && i <= j < |run| && Hushed(run[i].Of(side))
    requires forall k :: i <= k < j ==> KeepsQuiet(run[k], side, run[k + 1])
    ensures Hushed(run[j].Of(side)) && run[j].Of(side).ctl == run[i].Of(side).ctl
    ensures (forall m | m in run[i].Of(side).ctl :: m.ack <= run[i].Of(side.Other()).acked)
            && |run[j].Of(side).log| <= FirstZero(run[i].Of(side).base)
            ==> Cleaned(run[j].Of(side.Other())) == Cleaned(run[i].Of(side.Other()))
    decreases j
  {
    hide *;
    if i < j {
      var v, v' := run[j - 1], run[j];
      assert KeepsQuiet(v, side, run[(j - 1) + 1]);
      RunInvariant(run, i, j - 1);
      RunInvariant(run, j - 1, j);
      RunInvariant(run, i, j);
      Sides(run[i], side);
      Sides(v, side);
      Sides(v', side);
      HushedOverRuns(run, side, i, j - 1);
      InvSwap(v.a, v.b);
      NextQuiet(v, side, v');
      RunIs(run);
      NextCleansExactly(v, side.Other(), v');
      var m0 := FirstZero(run[i].Of(side).base);
      if |v'.Of(side).log| <= m0 && forall m | m in v.Of(side).ctl :: m.ack <= v.Of(side.Other()).acked {
        NothingAheadOf(v, side, v');
      }
    }
  }

  /** If no control packet is ahead and no data packet is numbered 0, nothing gets cleaned. */
  lemma NothingAheadOf(w: World, side: Who, w': World)
    requires Inv(w.Of(side), w.Of(side.Other())) && |w.Of(side).log| <= FirstZero(w.Of(side).base)
    requires forall m | m in w.Of(side).ctl :: m.ack <= w.Of(side.Other()).acked
    ensures !Cleans(w, side.Other(), w')
  {
    hide Inv, Step, FirstZero, DataLog, Deliverable;
    var x, y := w.Of(side.Other()), w.Of(side);
    assert side.Other().Other() == side;
    forall act, now | Step(x, y, act, now, w'.Of(side.Other())) && act.Deliver? && act.m.p.sequenceNum == 0
      ensures act.m.ack <= x.acked
    {
      StepIs(x, y, act, now, w'.Of(side.Other()));
      EnabledIs(x, y, act, now);
      NotAhead(x, y, act.m);
    }
  }

  lemma NotAhead(x: Side, y: Side, m: Msg)
    requires Inv(y, x) && Deliverable(x, y, m) && m.p.sequenceNum == 0 && |y.log| <= FirstZero(y.base)
    requires forall m | m in y.ctl :: m.ack <= x.acked
    ensures m.ack <= x.acked
  {
    hide *;
    DeliverableIs(x, y, m);
    InvBounds(y, x);
    if m in y.log {
      var i :| 0 <= i < |y.log| && y.log[i] == m;
      LogEntry(y.log, y.base, i);
      FirstZeroIs(y.base, i);
    }
  }

  /** How that comes about: a data packet and a plain acknowledgement report the same
      progress. If the acknowledgement is handled first it cleans what it covers; if the data
      packet is, nothing is cleaned by either. */
  lemma ArrivalOrderDecides(c: Conn, p: Packet, q: Packet, now: int)
    requires c.state == Established && p.flags == 0 && q.flags == 0
    requires p.sequenceNum == c.rcv.recvSeq != 0 && |p.payload| > 0
    requires q.sequenceNum == 0 && q.nacks == [] && q.ackThrough == p.ackThrough
    requires SeqGreater(p.ackThrough, c.snd.ackThrough)
    ensures OnPacket(OnPacket(c, p, now).conn, q, now).conn.snd.sent == c.snd.sent
    ensures OnPacket(OnPacket(c, q, now).conn, p, now).conn.snd.sent == Sending.Unacked(c.snd.sent, p.ackThrough)
  {
    hide *;
    NoFlags(p);
    NoFlags(q);
    Comparisons.StatesDiffer(c.state);
    var d := OnPacket(c, p, now).conn;
    OnPacketIs(c, p, now);
    DataIs(c, p);
    PiggybackIs(c.snd, p);
    Comparisons.StatesDiffer(d.state);
    OnPacketIs(d, q, now);
    AckIs(d, q, now);
    Sending.OnAckIs(d.snd, q, now);
    NotGreater(p.ackThrough);
    NoNacks(d.snd, now);
    var e := OnPacket(c, q, now).conn;
    OnPacketIs(c, q, now);
    AckIs(c, q, now);
    Sending.OnAckIs(c.snd, q, now);
    AdvanceIs(c.snd, q.ackThrough, [], now);
    NoNacks(Sending.Advance(c.snd, q.ackThrough, [], now), now);
    OnPacketIs(e, p, now);
    DataIs(e, p);
    PiggybackIs(e.snd, p);
  }

  lemma NoFlags(p: Packet)
    requires p.flags == 0
    ensures !Has(p.flags, Flag.Syn) && !Has(p.flags, Flag.NoAck)
  {
  }

  lemma NotGreater(k: u32)
    ensures !SeqGreater(k, k)
  {
  }

  lemma NoNacks(s: Sending.Sender, now: int)
    ensures Sending.OnNacks(Sending.Batch(s, false, []), [], now).s == s
  {
  }

  /** Such a state is reached: one side sends a chunk, the other one answers with a chunk of
      its own, and only that answer arrives. */
  lemma AckedButTracked(w: World, chunk: seq<byte>, answer: seq<byte>, now: int) returns (run: seq<World>)
    requires Start(w) && w.a.c.state == w.b.c.state == Established
    requires 0 < |chunk| <= NegotiatedMTU(w.a.c.ids) && 0 < |answer| <= NegotiatedMTU(w.b.c.ids)
    requires Wrap(w.a.base) != 0 && Wrap(w.b.base) != 0
    ensures IsRun(run) && run[0] == w
    ensures var x := Last(run).a; Cleaned(x) == 0 && x.acked == |x.log| == 1
  {
    hide *;
    StartIsRun(w);
    Sides(w, A);
    WindowAtLeastTwo(w.a, w.b);
    FirstZeroIs(w.a.base, 0);
    NotZero(w.a.base);
    var sent := Burst(w, A, chunk, 1, now);
    RunIs(sent);
    run := Answered(w, chunk, answer, now, sent);
  }

  lemma NotZero(base: int)
    requires Wrap(base) != 0
    ensures FirstZero(base) >= 1
  {
    assert FirstZero(base) == 0 ==> Wrap(base) == 0 by { WrapAdd(-base, base); }
  }

  lemma Answered(w: World, chunk: seq<byte>, answer: seq<byte>, now: int, sent: seq<World>) returns (run: seq<World>)
    requires IsRun(sent) && sent[0] == w && Unread(w, A, chunk, 1, Last(sent))
    requires 0 < |answer| <= NegotiatedMTU(w.b.c.ids) && Wrap(w.b.base) != 0
    ensures IsRun(run) && run[0] == w
    ensures var x := Last(run).a; Cleaned(x) == 0 && x.acked == |x.log| == 1
  {
    hide *;
    RunIs(sent);
    var v := Last(sent);
    UnreadIs(w, A, chunk, 1, v);
    Sides(w, A);
    Sides(v, A);
    Sides(v, B);
    LastInv(sent, A);
    LastInv(sent, B);
    var x, y := v.a, v.b;
    WindowAtLeastTwo(y, x);
    CanWrite(y, x, answer, now);
    Wrote(y, x, answer, now);
    var run1 := Extend(sent, B, Write(answer), now);
    var y' := Acted(y, Write(answer), now);
    WithOf(v, B, y');
    Sides(Last(run1), A);
    Sides(Last(run1), B);
    run := AnswerArrives(run1, Msg(DataPacket(y.c, answer), 0, 1), now);
  }

  lemma AnswerArrives(run: seq<World>, m: Msg, now: int) returns (longer: seq<World>)
    requires IsRun(run)
    requires var x, y := Last(run).a, Last(run).b;
             && x.c.state == Established && |x.log| == 1 && x.acked == 0 && x.rcvd == 0
             && y.log == [m] && m.idx == 0 && m.ack == 1 && m.p.sequenceNum != 0
    ensures IsRun(longer) && longer[0] == run[0]
    ensures var x := Last(longer).a; Cleaned(x) == 0 && x.acked == |x.log| == 1
  {
    hide *;
    RunIs(run);
    var x, y := Last(run).a, Last(run).b;
    Sides(Last(run), A);
    LastInv(run, A);
    NothingSent(x, y, m);
    DeliverEnabled(x, y, m, now);
    Took(x, y, m, now);
    Comparisons.StatesDiffer(x.c.state);
    InvBounds(x, y);
    longer := Extend(run, A, Deliver(m), now);
    var x' := Acted(x, Deliver(m), now);
    WithOf(Last(run), A, x');
    Sides(Last(longer), A);
    CleanedIs(x);
    CleanedIs(x');
  }
}
