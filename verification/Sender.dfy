/** The sending half of a stream connection: tracking, cumulative acknowledgement, fast
    retransmission on NACKs and retransmission on timeout, as functions on values. */
module Sending {
  import opened Serial
  import opened Packets
  import opened Timing
  import opened Congestion

  const FAST_RETRANSMIT_THRESHOLD := 2
  const MAX_RETRANSMISSIONS := 8

  datatype SentPacket = SentPacket(data: Packet, sentTime: int, retryCount: nat)

  datatype Sender = Sender(
    sendSeq: u32,
    ackThrough: u32,
    sent: map<u32, SentPacket>,
    nackCounts: map<u32, nat>,
    window: Window,
    timer: Timer)

  // ----- sending -----

  /** sendDataChunk: the packet is tracked under the current number, which moves on. */
  function Track(s: Sender, p: Packet, now: int): Sender {
    s.(sent := s.sent[s.sendSeq := SentPacket(p, now, 0)], sendSeq := Wrap(s.sendSeq + 1))
  }

  // ----- cumulative acknowledgement -----

  function Unacked(sent: map<u32, SentPacket>, newAck: u32): map<u32, SentPacket> {
    map k | k in sent && !SeqLeq(k, newAck) :: sent[k]
  }

  /** Counts of numbers that the acknowledgement itself NACKs are spared. */
  function KeptCounts(counts: map<u32, nat>, newAck: u32, nacks: seq<u32>): map<u32, nat> {
    map k | k in counts && (k in nacks || !SeqLeq(k, newAck)) :: counts[k]
  }

  /** cleanupAckedPacketsLocked. */
  function Cleanup(s: Sender, newAck: u32, nacks: seq<u32>): Sender {
    s.(sent := Unacked(s.sent, newAck), nackCounts := KeptCounts(s.nackCounts, newAck, nacks))
  }

  function MeasureRtt(s: Sender, ack: u32, now: int): Sender {
    if ack in s.sent then s.(timer := Measured(s.timer, now - s.sent[ack].sentTime)) else s
  }

  /** The part of handleAckLocked that runs for a new cumulative acknowledgement. */
  function Advance(s: Sender, ack: u32, nacks: seq<u32>, now: int): Sender {
    var s1 := MeasureRtt(s.(ackThrough := ack), ack, now);
    var s2 := Cleanup(s1, ack, nacks);
    s2.(window := Grow(s2.window))
  }

  // ----- NACKs -----

  /** retransmitPacketLocked; a packet already cleaned up is skipped. */
  function Retransmit(sent: map<u32, SentPacket>, k: u32, now: int): map<u32, SentPacket> {
    if k in sent then sent[k := sent[k].(retryCount := sent[k].retryCount + 1, sentTime := now)] else sent
  }

  function Count(counts: map<u32, nat>, k: u32): nat {
    if k in counts then counts[k] else 0
  }

  /** handleNACKsLocked in progress: the sender, whether the window was halved already, and
      the numbers that reached the threshold so far. */
  datatype Batch = Batch(s: Sender, halved: bool, fired: seq<u32>)

  function OnNack(b: Batch, k: u32, now: int): Batch {
    var count := Count(b.s.nackCounts, k) + 1;
    if count < FAST_RETRANSMIT_THRESHOLD then b.(s := b.s.(nackCounts := b.s.nackCounts[k := count]))
    else
      Batch(b.s.(nackCounts := b.s.nackCounts - {k},
                 window := if b.halved then b.s.window else Reduce(b.s.window),
                 sent := Retransmit(b.s.sent, k, now)),
            true, b.fired + [k])
  }

  function OnNacks(b: Batch, nacks: seq<u32>, now: int): Batch {
    if nacks == [] then b else OnNack(OnNacks(b, nacks[..|nacks| - 1], now), nacks[|nacks| - 1], now)
  }

  /** handleAckLocked without the choke field. */
  function OnAck(s: Sender, p: Packet, now: int): Batch {
    var s1 := if !Has(p.flags, Flag.NoAck) && SeqGreater(p.ackThrough, s.ackThrough)
              then Advance(s, p.ackThrough, p.nacks, now) else s;
    OnNacks(Batch(s1, false, []), p.nacks, now)
  }

  lemma OnAckIs(s: Sender, p: Packet, now: int)
    ensures OnAck(s, p, now) ==
            OnNacks(Batch(if !Has(p.flags, Flag.NoAck) && SeqGreater(p.ackThrough, s.ackThrough)
                          then Advance(s, p.ackThrough, p.nacks, now) else s, false, []), p.nacks, now)
  {
  }

  /** The acknowledgement on an in-sequence data packet: nothing but ackThrough moves. */
  function Piggyback(s: Sender, p: Packet): Sender {
    if !Has(p.flags, Flag.NoAck) && SeqGreater(p.ackThrough, s.ackThrough)
    then s.(ackThrough := p.ackThrough) else s
  }

  // ----- what NACK handling keeps -----

  /** No stored count has reached the threshold. */
  ghost predicate CountsLow(s: Sender) {
    forall k | k in s.nackCounts :: s.nackCounts[k] == 1
  }

  function Occurrences(nacks: seq<u32>, k: u32): nat {
    if nacks == [] then 0
    else Occurrences(nacks[..|nacks| - 1], k) + (if nacks[|nacks| - 1] == k then 1 else 0)
  }

  /** One batch in closed form. For every number, NACKs already counted plus NACKs in the
      batch are paired up: each pair fires one retransmission, the odd one stays stored. */
  lemma {:induction false} BatchInPairs(s: Sender, nacks: seq<u32>, now: int, k: u32)
    requires CountsLow(s)
    ensures var b := OnNacks(Batch(s, false, []), nacks, now);
            && CountsLow(b.s)
            && 2 * Occurrences(b.fired, k) + Count(b.s.nackCounts, k) == Count(s.nackCounts, k) + Occurrences(nacks, k)
  {
    if nacks != [] {
      BatchInPairs(s, nacks[..|nacks| - 1], now, k);
      var b := OnNacks(Batch(s, false, []), nacks[..|nacks| - 1], now);
      OnNackPairs(b, nacks[|nacks| - 1], now, k);
    }
  }

  lemma OnNackPairs(b: Batch, n: u32, now: int, k: u32)
    requires CountsLow(b.s)
    ensures var c := OnNack(b, n, now);
            && CountsLow(c.s)
            && 2 * Occurrences(c.fired, k) + Count(c.s.nackCounts, k)
               == 2 * Occurrences(b.fired, k) + Count(b.s.nackCounts, k) + (if n == k then 1 else 0)
  {
    assert (b.fired + [n])[..|b.fired|] == b.fired;
  }

  /** A batch halves the window exactly once if something fires, not at all otherwise; each
      firing of a tracked packet adds one retry; nothing else of a tracked packet changes. */
  lemma {:induction false} BatchEffects(s: Sender, nacks: seq<u32>, now: int)
    ensures var b := OnNacks(Batch(s, false, []), nacks, now);
            && b.s.window == (if b.fired == [] then s.window else Reduce(s.window))
            && (b.halved <==> b.fired != [])
            && b.s.sent.Keys == s.sent.Keys
            && b.s.sendSeq == s.sendSeq && b.s.ackThrough == s.ackThrough && b.s.timer == s.timer
            && (forall k | k in s.sent :: b.s.sent[k].data == s.sent[k].data
                  && b.s.sent[k].retryCount == s.sent[k].retryCount + Occurrences(b.fired, k))
  {
    if nacks != [] {
      BatchEffects(s, nacks[..|nacks| - 1], now);
      var b := OnNacks(Batch(s, false, []), nacks[..|nacks| - 1], now);
      var n := nacks[|nacks| - 1];
      assert (b.fired + [n])[..|b.fired|] == b.fired;
    }
  }

  // ----- what one acknowledgement does -----

  /** It is taken for new. */
  predicate IsNew(s: Sender, p: Packet) {
    !Has(p.flags, Flag.NoAck) && SeqGreater(p.ackThrough, s.ackThrough)
  }

  /** A new acknowledgement drops the count stored for a number if and only if it covers the
      number and does not NACK it itself; no other count changes. */
  lemma DiscardsExactly(s: Sender, p: Packet, now: int, k: u32)
    ensures var counts := Advance(s, p.ackThrough, p.nacks, now).nackCounts;
            && (k in counts <==> k in s.nackCounts && (!SeqLeq(k, p.ackThrough) || k in p.nacks))
            && (k in counts ==> counts[k] == s.nackCounts[k])
  {
    hide Measured, SeqLeq, Grow;
  }

  /** All of it. A new acknowledgement moves ackThrough, stops tracking what it covers, takes
      one sample if the very packet it names is tracked, and grows the window once; then, new
      or not, the window is halved if one of its NACKs fires, and nothing else of this changes. */
  lemma AckDoes(s: Sender, p: Packet, now: int)
    ensures var b := OnAck(s, p, now);
            && b.s.sendSeq == s.sendSeq
            && b.s.ackThrough == (if IsNew(s, p) then p.ackThrough else s.ackThrough)
            && (forall k: u32 :: k in b.s.sent <==> k in s.sent && !(IsNew(s, p) && SeqLeq(k, p.ackThrough)))
            && (forall k | k in b.s.sent :: b.s.sent[k].data == s.sent[k].data
                  && b.s.sent[k].retryCount == s.sent[k].retryCount + Occurrences(b.fired, k)
                  && b.s.sent[k].sentTime == if k in b.fired then now else s.sent[k].sentTime)
            && b.s.timer == (if IsNew(s, p) && p.ackThrough in s.sent
                             then Measured(s.timer, now - s.sent[p.ackThrough].sentTime) else s.timer)
            && var w := if IsNew(s, p) then Grow(s.window) else s.window;
               b.s.window == if b.fired == [] then w else Reduce(w)
  {
    var s1 := if IsNew(s, p) then Advance(s, p.ackThrough, p.nacks, now) else s;
    BatchEffects(s1, p.nacks, now);
    FiredNow(s1, p.nacks, now);
    hide OnNacks, Measured, Grow, Reduce, SeqLeq, SeqGreater, Has;
  }

  lemma {:induction false} FiredNow(s: Sender, nacks: seq<u32>, now: int)
    ensures var b := OnNacks(Batch(s, false, []), nacks, now);
            && b.s.sent.Keys == s.sent.Keys
            && forall k | k in s.sent :: b.s.sent[k].sentTime == if k in b.fired then now else s.sent[k].sentTime
  {
    if nacks != [] {
      FiredNow(s, nacks[..|nacks| - 1], now);
    }
  }

  /** The timer measures the last transmission of the packet that the acknowledgement names,
      also when that was a retransmission: the samples are not restricted as section 3 of
      RFC 6298 asks (Karn's algorithm). */
  lemma SampleIsOfLastTransmission(s: Sender, p: Packet, q: Packet, t0: int, t1: int, t2: int, done: set<u32>)
    requires q.ackThrough == s.sendSeq && IsNew(s, q) && s.timer.srtt == 0
    ensures var sent := Track(s, p, t0);
            var resent := Ticked(sent, t1, done);
            && OnAck(sent, q, t2).s.timer.srtt == t2 - t0
            && (s.sendSeq in done && TimedOut(sent, t1) != {} ==> OnAck(resent, q, t2).s.timer.srtt == t2 - t1)
  {
    var sent := Track(s, p, t0);
    var resent := Ticked(sent, t1, done);
    AckDoes(sent, q, t2);
    AckDoes(resent, q, t2);
    hide OnAck, SeqGreater, SeqLeq, Has, ConnectionRto, Backoff, TimedOut;
  }

  // ----- NACK accounting over whole runs -----

  /** What can happen to a sender: a plain acknowledgement with its NACKs, an acknowledgement
      on a data packet, a packet sent, a timer tick. */
  datatype Event =
    | Handles(p: Packet, now: int)
    | Carries(p: Packet)
    | Sends(p: Packet, now: int)
    | Ticks(now: int, done: set<u32>)

  function Step(s: Sender, e: Event): Batch {
    match e
    case Handles(p, now) => OnAck(s, p, now)
    case Carries(p) => Batch(Piggyback(s, p), false, [])
    case Sends(p, now) => Batch(Track(s, p, now), false, [])
    case Ticks(now, done) => Batch(Ticked(s, now, done), false, [])
  }

  function Final(s: Sender, run: seq<Event>): Sender
    decreases |run|
  {
    if run == [] then s else Final(Step(s, run[0]).s, run[1..])
  }

  function Firings(s: Sender, run: seq<Event>, k: u32): nat
    decreases |run|
  {
    if run == [] then 0 else Occurrences(Step(s, run[0]).fired, k) + Firings(Step(s, run[0]).s, run[1..], k)
  }

  function NacksIn(e: Event, k: u32): nat {
    if e.Handles? then Occurrences(e.p.nacks, k) else 0
  }

  function Received(run: seq<Event>, k: u32): nat {
    if run == [] then 0 else NacksIn(run[0], k) + Received(run[1..], k)
  }

  /** The event is a new plain acknowledgement of k that does not NACK k itself. */
  predicate Acknowledges(s: Sender, e: Event, k: u32) {
    e.Handles? && IsNew(s, e.p) && SeqLeq(k, e.p.ackThrough) && k !in e.p.nacks
  }

  /** The NACKs of k that were stored when an acknowledgement of k came. */
  function Overtaken(s: Sender, run: seq<Event>, k: u32): nat
    decreases |run|
  {
    if run == [] then 0
    else (if Acknowledges(s, run[0], k) then Count(s.nackCounts, k) else 0) + Overtaken(Step(s, run[0]).s, run[1..], k)
  }

  lemma EventPairs(s: Sender, e: Event, k: u32)
    requires CountsLow(s)
    ensures var b := Step(s, e);
            && CountsLow(b.s)
            && 2 * Occurrences(b.fired, k) + Count(b.s.nackCounts, k)
               == (if Acknowledges(s, e, k) then 0 else Count(s.nackCounts, k)) + NacksIn(e, k)
  {
    if e.Handles? {
      var p := e.p;
      var s1 := if IsNew(s, p) then Advance(s, p.ackThrough, p.nacks, e.now) else s;
      if IsNew(s, p) {
        AckClears(s, p.ackThrough, p.nacks, e.now, k);
        DiscardsExactly(s, p, e.now, k);
      }
      BatchInPairs(s1, p.nacks, e.now, k);
      Absent(p.nacks, k);
      hide Advance, OnNacks, SeqLeq, SeqGreater, Has;
    } else {
      hide SeqGreater, Has, Backoff, Resend, TimedOut;
    }
  }

  lemma {:induction false} Absent(ks: seq<u32>, k: u32)
    ensures Occurrences(ks, k) == 0 <==> k !in ks
  {
    if ks != [] { Absent(ks[..|ks| - 1], k); }
  }

  /** Over any run, the NACKs received for a number and those stored at its start are used up
      in pairs, one retransmission each, are still stored, or were overtaken by an
      acknowledgement of the number. */
  lemma {:induction false} FastRetransmitAccounting(s: Sender, run: seq<Event>, k: u32)
    requires CountsLow(s)
    ensures CountsLow(Final(s, run))
    ensures 2 * Firings(s, run, k) + Count(Final(s, run).nackCounts, k) + Overtaken(s, run, k)
            == Count(s.nackCounts, k) + Received(run, k)
    decreases |run|
  {
    if run != [] {
      EventPairs(s, run[0], k);
      hide Step, Acknowledges, NacksIn, Occurrences, Count;
      FastRetransmitAccounting(Step(s, run[0]).s, run[1..], k);
    }
  }

  /** In particular two plain acknowledgements that both NACK a number, new or not, make it be
      resent exactly once, if it is tracked still. */
  lemma TwoNacksResendOnce(s: Sender, p: Packet, q: Packet, now: int, later: int, k: u32)
    requires CountsLow(s) && Occurrences(p.nacks, k) == 1 && Occurrences(q.nacks, k) == 1
    ensures var b := OnAck(s, p, now);
            var c := OnAck(b.s, q, later);
            && Occurrences(b.fired, k) + Occurrences(c.fired, k) == 1
            && (k in c.s.sent ==> k in s.sent && c.s.sent[k].retryCount == s.sent[k].retryCount + 1)
  {
    var b := OnAck(s, p, now);
    EventPairs(s, Handles(p, now), k);
    EventPairs(b.s, Handles(q, later), k);
    AckDoes(s, p, now);
    AckDoes(b.s, q, later);
    Absent(p.nacks, k);
    Absent(q.nacks, k);
    hide OnAck, Occurrences, SeqLeq, SeqGreater, Has;
  }

  lemma AckClears(s: Sender, ack: u32, nacks: seq<u32>, now: int, k: u32)
    requires CountsLow(s)
    ensures var a := Advance(s, ack, nacks, now);
            CountsLow(a) && Count(a.nackCounts, k) == (if k in a.nackCounts then Count(s.nackCounts, k) else 0)
    ensures k in Advance(s, ack, nacks, now).nackCounts ==> k in s.nackCounts
  {
    hide Measured, SeqLeq, Grow;
  }

  // ----- timeouts -----

  /** findTimedOutPacketsLocked. */
  function TimedOut(s: Sender, now: int): set<u32> {
    set k | k in s.sent && now - s.sent[k].sentTime > s.timer.rto
  }

  function Resend(sent: map<u32, SentPacket>, ks: set<u32>, now: int): map<u32, SentPacket> {
    map k | k in sent ::
      if k in ks then sent[k].(retryCount := sent[k].retryCount + 1, sentTime := now) else sent[k]
  }

  /** checkRetransmissions, when the packets in `done` were resent: all timed-out ones, or
      those that a map iteration visited before a packet without retries left. */
  function Ticked(s: Sender, now: int, done: set<u32>): Sender {
    if TimedOut(s, now) == {} then s
    else s.(timer := s.timer.(rto := Backoff(s.timer.rto)), sent := Resend(s.sent, done, now))
  }

  /** The outcomes that the code allows: success, or giving up at an exhausted packet. */
  ghost predicate TickOutcome(s: Sender, now: int, done: set<u32>, gaveUp: bool) {
    && done <= TimedOut(s, now)
    && (forall k | k in done :: s.sent[k].retryCount < MAX_RETRANSMISSIONS)
    && if gaveUp
       then exists k :: k in TimedOut(s, now) && s.sent[k].retryCount >= MAX_RETRANSMISSIONS
       else done == TimedOut(s, now)
  }

  /** A packet is overdue when it was sent more than the timeout ago; a tick that gives up has met
      one that was resent eight times, one that does not has met none; and what a tick resends
      is overdue again exactly when twice the timeout, but no more than 45 s, has passed. */
  lemma TickExactly(s: Sender, now: int, done: set<u32>, gaveUp: bool, later: int, k: u32)
    requires TickOutcome(s, now, done, gaveUp) && k in s.sent
    ensures !gaveUp ==> (k in done <==> now - s.sent[k].sentTime > s.timer.rto)
    ensures k in done ==> now - s.sent[k].sentTime > s.timer.rto && s.sent[k].retryCount < 8
    ensures gaveUp <==> exists n :: n in s.sent && now - s.sent[n].sentTime > s.timer.rto && s.sent[n].retryCount >= 8
    ensures var t := Ticked(s, now, done);
            && t.sent.Keys == s.sent.Keys && t.sent[k].data == s.sent[k].data
            && t.sent[k].retryCount == s.sent[k].retryCount + (if k in done then 1 else 0)
            && t.timer.rto == (if TimedOut(s, now) == {} then s.timer.rto
                               else if 2 * s.timer.rto > 45_000_000_000 then 45_000_000_000 else 2 * s.timer.rto)
            && (k in done ==> (k in TimedOut(t, later) <==> later - now > t.timer.rto))
  {
  }

  function Left(p: SentPacket): nat {
    if p.retryCount < MAX_RETRANSMISSIONS then MAX_RETRANSMISSIONS - p.retryCount else 0
  }

  /** The retries left over all tracked packets. */
  ghost function Budget(sent: map<u32, SentPacket>): nat
    decreases |sent|
  {
    if sent == map[] then 0
    else
      var k :| k in sent;
      DropShrinks(sent, k);
      Left(sent[k]) + Budget(sent - {k})
  }

  lemma DropShrinks(sent: map<u32, SentPacket>, k: u32)
    requires k in sent
    ensures |sent - {k}| == |sent| - 1
  {
    assert sent.Keys == (sent - {k}).Keys + {k};
  }

  /** The budget does not depend on the order of summation. */
  lemma {:induction false} BudgetDrop(sent: map<u32, SentPacket>, k: u32)
    requires k in sent
    ensures Budget(sent) == Left(sent[k]) + Budget(sent - {k})
    decreases |sent|
  {
    var c :| c in sent && Budget(sent) == Left(sent[c]) + Budget(sent - {c});
    if c != k {
      DropShrinks(sent, c);
      DropShrinks(sent, k);
      BudgetDrop(sent - {c}, k);
      BudgetDrop(sent - {k}, c);
      assert sent - {c} - {k} == sent - {k} - {c};
    }
  }

  lemma ResendDrop(sent: map<u32, SentPacket>, ks: set<u32>, k: u32, now: int)
    ensures Resend(sent, ks, now) - {k} == Resend(sent - {k}, ks - {k}, now)
  {
  }

  lemma {:induction false} ResendBudget(sent: map<u32, SentPacket>, ks: set<u32>, now: int)
    requires ks <= sent.Keys && forall k | k in ks :: sent[k].retryCount < MAX_RETRANSMISSIONS
    ensures Budget(Resend(sent, ks, now)) + |ks| == Budget(sent)
    decreases |sent|
  {
    if sent == map[] {
      assert ks == {};
      assert Resend(sent, ks, now) == map[];
    } else {
      var k :| k in sent;
      DropShrinks(sent, k);
      ResendBudget(sent - {k}, ks - {k}, now);
      BudgetDrop(sent, k);
      BudgetDrop(Resend(sent, ks, now), k);
      ResendDrop(sent, ks, k, now);
      assert Left(Resend(sent, ks, now)[k]) + (if k in ks then 1 else 0) == Left(sent[k]);
      hide Budget, Resend, Left;
      if k in ks {
        assert ks == (ks - {k}) + {k};
      } else {
        assert ks - {k} == ks;
      }
    }
  }

  /** Timeout ticks without acknowledgement, NACK or new data; `ticks` gives the times. */
  function Ticks(s: Sender, ticks: seq<int>): Sender {
    if ticks == [] then s
    else
      var t := Ticks(s, ticks[..|ticks| - 1]);
      var now := ticks[|ticks| - 1];
      Ticked(t, now, TimedOut(t, now))
  }

  /** Each tick finds a timed-out packet, and none of those has used up its retries. */
  ghost predicate KeepsRetrying(s: Sender, ticks: seq<int>) {
    ticks == [] ||
    var t := Ticks(s, ticks[..|ticks| - 1]);
    var now := ticks[|ticks| - 1];
    && KeepsRetrying(s, ticks[..|ticks| - 1])
    && TimedOut(t, now) != {}
    && TickOutcome(t, now, TimedOut(t, now), false)
  }

  /** The budget strictly decreases at every such tick, so their number is bounded by it,
      and the timeout after k of them is the k-fold backoff of the starting one. */
  lemma {:induction false} TimeoutsTerminate(s: Sender, ticks: seq<int>)
    requires KeepsRetrying(s, ticks)
    ensures |ticks| + Budget(Ticks(s, ticks).sent) <= Budget(s.sent)
    ensures Ticks(s, ticks).timer.rto == Backoffs(s.timer.rto, |ticks|)
  {
    if ticks != [] {
      var before := ticks[..|ticks| - 1];
      TimeoutsTerminate(s, before);
      var t := Ticks(s, before);
      var now := ticks[|ticks| - 1];
      var due := TimedOut(t, now);
      ResendBudget(t.sent, due, now);
    }
  }

  /** In numbers: after k ticks the timeout is min(45 s, 2^k times the starting one). */
  lemma TimeoutAfterTicks(s: Sender, ticks: seq<int>)
    requires KeepsRetrying(s, ticks) && 0 < s.timer.rto <= MAX_RTO
    ensures Ticks(s, ticks).timer.rto
            == if Pow2(|ticks|) * s.timer.rto > MAX_RTO then MAX_RTO else Pow2(|ticks|) * s.timer.rto
  {
    TimeoutsTerminate(s, ticks);
    BackoffDoubles(s.timer.rto, |ticks|);
  }

  lemma {:induction false} BudgetBounded(sent: map<u32, SentPacket>)
    ensures Budget(sent) <= 8 * |sent|
    decreases |sent|
  {
    if sent == map[] {
      assert Budget(sent) == 0;
    } else {
      var k :| k in sent;
      DropShrinks(sent, k);
      BudgetDrop(sent, k);
      BudgetBounded(sent - {k});
    }
  }

  /** With n packets in flight the connection gives up within 8 n overdue ticks. */
  lemma GivesUpInTime(s: Sender, ticks: seq<int>)
    requires KeepsRetrying(s, ticks)
    ensures |ticks| <= 8 * |s.sent|
  {
    TimeoutsTerminate(s, ticks);
    BudgetBounded(s.sent);
  }
}
