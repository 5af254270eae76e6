/** Every 32-bit comparison of the protocol answers as comparing the unbounded indices would,
    in every epoch: the lemmas ask for the invariant, which holds in all reachable states, and
    not for a state that a run reaches. */
module Comparisons {
  import opened Serial
  import opened Packets
  import opened Congestion
  import opened Connections
  import opened Protocol
  import opened ProtocolSteps
  import opened Delivery
  import Timing
  import Sending
  import Receiving

  // ----- stored NACK counts -----

  /** A number standing for a chunk less than 2^31 behind the end of the send window. */
  ghost predicate Recent(k: u32, base: int, cleaned: int, length: nat) {
    var back := SeqDiff(k, Wrap(base + cleaned + MAX_WINDOW));
    0 < back < HALF && 0 <= cleaned + MAX_WINDOW - back < length
  }

  ghost predicate CountsRecent(counts: map<u32, nat>, base: int, cleaned: int, length: nat) {
    forall k | k in counts :: Recent(k, base, cleaned, length)
  }

  lemma RecentIndex(k: u32, base: int, cleaned: int, length: nat) returns (i: nat)
    requires Recent(k, base, cleaned, length)
    ensures k == Wrap(base + i) && cleaned + MAX_WINDOW - HALF < i < length
  {
    var end := base + cleaned + MAX_WINDOW;
    var back := SeqDiff(k, Wrap(end));
    i := cleaned + MAX_WINDOW - back;
    assert Wrap(end - back) == k;
  }

  lemma IndexRecent(i: nat, base: int, cleaned: int, length: nat)
    requires cleaned + MAX_WINDOW - HALF < i < length <= cleaned + MAX_WINDOW
    ensures Recent(Wrap(base + i), base, cleaned, length)
  {
    DiffIsExact(base + i, base + cleaned + MAX_WINDOW);
    hide Wrap, SeqDiff;
  }

  lemma {:induction false} CountsFromNacks(s: Sending.Sender, nacks: seq<u32>, now: int, k: u32)
    requires k in Sending.OnNacks(Sending.Batch(s, false, []), nacks, now).s.nackCounts
    ensures k in s.nackCounts || k in nacks
  {
    if nacks != [] {
      var before := Sending.OnNacks(Sending.Batch(s, false, []), nacks[..|nacks| - 1], now);
      OneNackCounts(before, nacks[|nacks| - 1], now, k);
      if k in before.s.nackCounts {
        CountsFromNacks(s, nacks[..|nacks| - 1], now, k);
      }
    }
  }

  lemma OneNackCounts(b: Sending.Batch, n: u32, now: int, k: u32)
    requires k in Sending.OnNack(b, n, now).s.nackCounts
    ensures k in b.s.nackCounts || k == n
  {
    hide Sending.Retransmit, Reduce;
  }

  /** The counts after an acknowledgement: those kept are of numbers it does not cover. */
  lemma AckCountsRecent(x: Side, y: Side, m: Msg, now: int)
    requires Inv(x, y) && Deliverable(x, y, m) && x.c.state == Established && m.p.sequenceNum == 0
    requires CountsRecent(x.c.snd.nackCounts, x.base, Cleaned(x), |x.log|)
    ensures var x' := Acted(x, Deliver(m), now);
            CountsRecent(x'.c.snd.nackCounts, x.base, Cleaned(x'), |x.log|)
  {
    hide *;
    var x' := Acted(x, Deliver(m), now);
    var s := x.c.snd;
    AckEffect(x, y, m, now);
    InvBounds(x, y);
    forall k | k in x'.c.snd.nackCounts ensures Recent(k, x.base, Cleaned(x'), |x.log|) {
      AckCountRecent(x, y, m, now, k);
    }
    CountsAre(x'.c.snd.nackCounts, x.base, Cleaned(x'), |x.log|);
  }

  lemma CountsAre(counts: map<u32, nat>, base: int, cleaned: int, length: nat)
    ensures CountsRecent(counts, base, cleaned, length) <==> forall k | k in counts :: Recent(k, base, cleaned, length)
  {
    hide Recent;
  }

  /** What a delivered plain acknowledgement does to the sender. */
  lemma AckEffect(x: Side, y: Side, m: Msg, now: int)
    requires Inv(x, y) && Deliverable(x, y, m) && x.c.state == Established && m.p.sequenceNum == 0
    ensures var x' := Acted(x, Deliver(m), now);
            && x'.c.snd == Sending.OnAck(x.c.snd, m.p, now).s
            && Cleaned(x') == (if m.ack > x.acked then m.ack else Cleaned(x))
            && (SeqGreater(m.p.ackThrough, x.c.snd.ackThrough) <==> m.ack > x.acked)
            && !Has(m.p.flags, Flag.NoAck) && m.ack <= |x.log| && x.acked < m.ack + HALF
            && Cleaned(x) + MAX_WINDOW < m.ack + HALF
            && m.p.ackThrough == Wrap(x.base + m.ack - 1)
  {
    hide *;
    IsNear(x, y, m);
    NearAck(x, y, m);
    HalfIs(x, y);
    SoundIs(x, y);
    SendsIs(x.c.snd, x.base, x.log, x.acked);
    FlightIs(x.c.snd.sent, x.base, |x.log| - |x.c.snd.sent|, x.log);
    DeliverableIs(x, y, m);
    OnPacketIs(x.c, m.p, now);
    DeliverIs(x, m, now);
    StatesDiffer(x.c.state);
    AckIs(x.c, m.p, now);
    ReceivedIs(x, OnAck(x.c, m.p, now));
    AckSends(x.c.snd, m.p, now, x.base, x.log, x.acked, m.ack);
    CleanedIs(x);
    CleanedIs(Acted(x, Deliver(m), now));
    Words();
    SerialIsExact(x.base + m.ack - 1, x.base + x.acked - 1);
  }

  lemma StatesDiffer(s: ConnState)
    ensures s == Established ==> s != SynRcvd
  {
  }

  lemma AckCountRecent(x: Side, y: Side, m: Msg, now: int, k: u32)
    requires Inv(x, y) && Deliverable(x, y, m) && x.c.state == Established && m.p.sequenceNum == 0
    requires CountsRecent(x.c.snd.nackCounts, x.base, Cleaned(x), |x.log|)
    requires k in Acted(x, Deliver(m), now).c.snd.nackCounts
    ensures Recent(k, x.base, Cleaned(Acted(x, Deliver(m), now)), |x.log|)
  {
    hide *;
    var x' := Acted(x, Deliver(m), now);
    var s := x.c.snd;
    DeliverableIs(x, y, m);
    AckEffect(x, y, m, now);
    InvBounds(x, y);
    Words();
    Sending.OnAckIs(s, m.p, now);
    CountsAre(s.nackCounts, x.base, Cleaned(x), |x.log|);
    var s1 := if m.ack > x.acked then Sending.Advance(s, m.p.ackThrough, m.p.nacks, now) else s;
    CountsFromNacks(s1, m.p.nacks, now, k);
    var i: nat;
    if k in m.p.nacks {
      i := RequestIndex(x, y, m, k);
    } else {
      AdvanceCounts(s, m.p.ackThrough, m.p.nacks, now, k);
      i := RecentIndex(k, x.base, Cleaned(x), |x.log|);
      SerialIsExact(x.base + i, x.base + m.ack - 1);
    }
    IndexRecent(i, x.base, Cleaned(x'), |x.log|);
  }

  lemma RequestIndex(x: Side, y: Side, m: Msg, k: u32) returns (i: nat)
    requires Inv(x, y) && (m in y.log || m in y.ctl) && k in m.p.nacks
    ensures k == Wrap(x.base + i) && m.ack <= i < |x.log| && i < m.ack + Receiving.MAX_NACKS
  {
    hide *;
    HalfIs(x, y);
    HalfIs(y, x);
    TruthfulIs(m, y.rcvd, x.base, |x.log|);
    RequestsIs(m, k, x.base, |x.log|);
    i := m.ack + SeqDiff(Wrap(x.base + m.ack), k);
    Receiving.Behind(Wrap(x.base + m.ack), k);
    WrapAdd(x.base + m.ack, SeqDiff(Wrap(x.base + m.ack), k));
    assert x.base + i == x.base + m.ack + SeqDiff(Wrap(x.base + m.ack), k);
  }

  lemma AdvanceCounts(s: Sending.Sender, ack: u32, nacks: seq<u32>, now: int, k: u32)
    ensures k in Sending.Advance(s, ack, nacks, now).nackCounts ==>
              k in s.nackCounts && (k in nacks || !SeqLeq(k, ack))
  {
    hide Timing.Measured, SeqLeq, Grow;
  }

  lemma MoreRecent(counts: map<u32, nat>, base: int, cleaned: int, length: nat, length': nat)
    requires CountsRecent(counts, base, cleaned, length) && length <= length'
    ensures CountsRecent(counts, base, cleaned, length')
  {
    forall k | k in counts ensures Recent(k, base, cleaned, length') {
      assert Recent(k, base, cleaned, length);
    }
    hide SeqDiff, Wrap;
  }

  /** A delivery that is no plain acknowledgement to an established side. */
  lemma OtherDelivery(x: Side, y: Side, m: Msg, now: int)
    requires Inv(x, y) && Deliverable(x, y, m) && !(x.c.state == Established && m.p.sequenceNum == 0)
    ensures var x' := Acted(x, Deliver(m), now);
            && x'.c.snd.nackCounts == x.c.snd.nackCounts && x'.c.snd.sent == x.c.snd.sent && x'.log == x.log
  {
    hide *;
    IsNear(x, y, m);
    NearAck(x, y, m);
    HalfIs(x, y);
    SoundIs(x, y);
    OnPacketIs(x.c, m.p, now);
    DeliverIs(x, m, now);
    ReceivedIs(x, OnPacket(x.c, m.p, now));
    if x.c.state == SynRcvd {
      FinalAckIs(x, y, m);
    } else {
      NearData(x, y, m);
      DataIs(x.c, m.p);
      PiggybackIs(x.c.snd, m.p);
    }
  }

  ghost predicate Recents(x: Side) {
    CountsRecent(x.c.snd.nackCounts, x.base, Cleaned(x), |x.log|)
  }

  lemma RecentsIs(x: Side)
    ensures Recents(x) <==> CountsRecent(x.c.snd.nackCounts, x.base, |x.log| - |x.c.snd.sent|, |x.log|)
  {
    hide CountsRecent;
  }

  lemma StepKeepsRecents(x: Side, y: Side, act: Action, now: int, x': Side)
    requires Inv(x, y) && Step(x, y, act, now, x') && Recents(x)
    ensures Recents(x')
  {
    hide *;
    StepIs(x, y, act, now, x');
    EnabledIs(x, y, act, now);
    RecentsIs(x);
    RecentsIs(x');
    CleanedIs(x);
    CleanedIs(x');
    HalfIs(x, y);
    SoundIs(x, y);
    match act
    case Write(chunk) =>
      WriteIs(x, chunk, now);
      var m := Msg(DataPacket(x.c, chunk), |x.log|, x.rcvd);
      TrackIs(x.c.snd, m.p, now);
      TrackSends(x.c.snd, x.base, x.log, x.acked, m, now);
      MoreRecent(x.c.snd.nackCounts, x.base, Cleaned(x), |x.log|, |x.log| + 1);
    case Deliver(m) =>
      CleanedIs(Acted(x, act, now));
      ActedSound(x, y, act, now);
      DeliverIs(x, m, now);
      ReceivedIs(x, OnPacket(x.c, m.p, now));
      if x.c.state == Established && m.p.sequenceNum == 0 {
        AckCountsRecent(x, y, m, now);
      } else {
        OtherDelivery(x, y, m, now);
      }
    case Tick(done, gaveUp) =>
      TickIs(x, done, gaveUp, now);
      TickCounts(x, done, gaveUp, now);
      assert |x'.c.snd.sent| == |x'.c.snd.sent.Keys| == |x.c.snd.sent|;
    case Read(n) => ReadIs(x, n, now);
    case KeepAlive =>
  }

  lemma TickCounts(x: Side, done: set<u32>, gaveUp: bool, now: int)
    ensures Acted(x, Tick(done, gaveUp), now).c.snd.nackCounts == x.c.snd.nackCounts
  {
  }

  lemma {:induction false} RunRecents(run: seq<World>, i: nat)
    requires IsRun(run) && i < |run|
    ensures Recents(run[i].a) && Recents(run[i].b)
  {
    hide *;
    RunIs(run);
    if i == 0 {
      StartRecents(run[0]);
    } else {
      RunRecents(run, i - 1);
      RunInvariant(run, i - 1, i - 1);
      NextRecents(run[i - 1], run[i]);
    }
  }

  lemma StartRecents(w: World)
    requires Start(w)
    ensures Recents(w.a) && Recents(w.b)
  {
    hide Wrap, InBounds, ControlPacket;
  }

  lemma NextRecents(w: World, w': World)
    requires Inv(w.a, w.b) && Next(w, w') && Recents(w.a) && Recents(w.b)
    ensures Recents(w'.a) && Recents(w'.b)
  {
    hide Inv, Step, Recents;
    if w'.b == w.b && exists act, now :: Step(w.a, w.b, act, now, w'.a) {
      var act, now :| Step(w.a, w.b, act, now, w'.a);
      StepKeepsRecents(w.a, w.b, act, now, w'.a);
    } else {
      var act, now :| Step(w.b, w.a, act, now, w'.b);
      InvSwap(w.a, w.b);
      StepKeepsRecents(w.b, w.a, act, now, w'.b);
    }
  }

  /** In every reachable state each stored NACK count is of a chunk less than 2^31 behind the
      end of the send window. */
  lemma ReachableRecents(w: World, x: Side, y: Side)
    requires Reachable(w) && Peers(w, x, y)
    ensures Recents(x)
  {
    hide Recents, Start, Next;
    var run :| IsRun(run) && run[|run| - 1] == w;
    RunRecents(run, |run| - 1);
  }

  // ----- the comparisons -----

  /** Data: old, expected or ahead is decided, and the gap computed, as on unbounded indices. */
  lemma DataComparisons(x: Side, y: Side, m: Msg)
    requires Inv(x, y) && Deliverable(x, y, m) && m.p.sequenceNum != 0
    ensures SeqLess(m.p.sequenceNum, x.c.rcv.recvSeq) <==> m.idx < x.rcvd
    ensures m.p.sequenceNum == x.c.rcv.recvSeq <==> m.idx == x.rcvd
    ensures m.idx >= x.rcvd ==> Receiving.Ahead(x.c.rcv, m.p.sequenceNum) == m.idx - x.rcvd < MAX_WINDOW
  {
    hide *;
    IsNear(x, y, m);
    NearData(x, y, m);
    HalfIs(x, y);
    SoundIs(x, y);
    ReceivesIs(x.c.rcv, y.base, x.rcvd, y.log);
    Words();
    SerialIsExact(y.base + m.idx, y.base + x.rcvd);
    if m.idx >= x.rcvd { DiffIsExact(y.base + x.rcvd, y.base + m.idx); }
    AheadIs(x.c.rcv, m.p.sequenceNum);
  }

  lemma AheadIs(r: Receiving.Receiver, k: u32)
    ensures Receiving.Ahead(r, k) == SeqDiff(r.recvSeq, k)
  {
  }

  /** Acknowledgements: whether one is new, which tracked packets it covers and which stored
      NACK counts it covers is decided as on unbounded indices. */
  lemma AckComparisons(x: Side, y: Side, m: Msg)
    requires Inv(x, y) && Recents(x) && Deliverable(x, y, m)
    ensures x.c.state == Established ==> (SeqGreater(m.p.ackThrough, x.c.snd.ackThrough) <==> m.ack > x.acked)
    ensures forall i: nat | Cleaned(x) <= i < |x.log| :: Compares(x, m, i)
    ensures forall k | k in x.c.snd.nackCounts :: CountCompares(x, m, k)
  {
    hide *;
    RecentsIs(x);
    CleanedIs(x);
    InvBounds(x, y);
    IsNear(x, y, m);
    NearAck(x, y, m);
    DeliverableIs(x, y, m);
    HalfIs(x, y);
    SoundIs(x, y);
    Words();
    SerialIsExact(x.base + m.ack - 1, x.base + x.acked - 1);
    forall i: nat | Cleaned(x) <= i < |x.log| ensures Compares(x, m, i) {
      SerialIsExact(x.base + i, x.base + m.ack - 1);
      ComparesIs(x, m, i);
    }
    CountsAre(x.c.snd.nackCounts, x.base, Cleaned(x), |x.log|);
    forall k | k in x.c.snd.nackCounts ensures CountCompares(x, m, k) {
      var i := RecentIndex(k, x.base, Cleaned(x), |x.log|);
      SerialIsExact(x.base + i, x.base + m.ack - 1);
      ComparesIs(x, m, i);
      CountComparesIs(x, m, k, i);
    }
  }

  /** Whether the acknowledgement covers chunk i. */
  ghost predicate Compares(x: Side, m: Msg, i: nat) {
    SeqLeq(Wrap(x.base + i), m.p.ackThrough) <==> i < m.ack
  }

  lemma ComparesIs(x: Side, m: Msg, i: nat)
    ensures Compares(x, m, i) == (SeqLeq(Wrap(x.base + i), m.p.ackThrough) <==> i < m.ack)
  {
  }

  /** A stored count belongs to a chunk that was sent, and compares as that chunk's index. */
  ghost predicate CountCompares(x: Side, m: Msg, k: u32) {
    exists i: nat :: i < |x.log| && k == Wrap(x.base + i) && Compares(x, m, i)
  }

  lemma CountComparesIs(x: Side, m: Msg, k: u32, i: nat)
    requires i < |x.log| && k == Wrap(x.base + i) && Compares(x, m, i)
    ensures CountCompares(x, m, k)
  {
    hide Wrap, Compares;
  }
}
