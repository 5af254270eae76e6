/** Choke and unchoke signals over whole runs of arrivals and reads. */
module Choking {
  import opened Serial
  import opened Packets
  import opened Receiving

  datatype Event = Arrives(p: Packet) | Reads(n: nat)

  function Apply(r: Receiver, e: Event): Reply {
    match e
    case Arrives(p) => OnData(r, p)
    case Reads(n) => OnRead(r, n)
  }

  function BytesReadBy(r: Receiver, e: Event): nat {
    match e
    case Arrives(_) => 0
    case Reads(n) => |ReadBytes(r, n)|
  }

  function Final(r: Receiver, run: seq<Event>): Receiver
    decreases |run|
  {
    if run == [] then r else Final(Apply(r, run[0]).rcv, run[1..])
  }

  function BytesRead(r: Receiver, run: seq<Event>): nat
    decreases |run|
  {
    if run == [] then 0 else BytesReadBy(r, run[0]) + BytesRead(Apply(r, run[0]).rcv, run[1..])
  }

  /** The choke and unchoke signals among the control packets, in order. */
  function SignalsIn(ctl: seq<Control>): seq<Control> {
    if ctl == [] then []
    else (if ctl[0] == Acknowledge then [] else [ctl[0]]) + SignalsIn(ctl[1..])
  }

  function Signals(r: Receiver, run: seq<Event>): seq<Control>
    decreases |run|
  {
    if run == [] then [] else SignalsIn(Apply(r, run[0]).ctl) + Signals(Apply(r, run[0]).rcv, run[1..])
  }

  function Unchokes(signals: seq<Control>): nat {
    if signals == [] then 0
    else (if signals[0] == UnchokeSignal then 1 else 0) + Unchokes(signals[1..])
  }

  /** Signals strictly alternate, the first one ending the given state. */
  predicate Alternate(signals: seq<Control>, choking: bool) {
    signals == [] ||
    (signals[0] == (if choking then UnchokeSignal else ChokeSignal) && Alternate(signals[1..], !choking))
  }

  // ----- one event -----

  /** An event sends at most one signal, and exactly when it changes the choking state; a
      choke means the buffer is more than 8/10 full, an unchoke less than 3/10; and the
      readable bytes shrink by nothing but what is read. */
  lemma EventSignals(r: Receiver, e: Event)
    requires Valid(r)
    ensures var a := Apply(r, e);
            && Valid(a.rcv) && a.rcv.buf.size == r.buf.size
            && SignalsIn(a.ctl) == (if a.rcv.choking == r.choking then []
                                    else if a.rcv.choking then [ChokeSignal] else [UnchokeSignal])
            && (!r.choking && a.rcv.choking ==> 10 * |a.rcv.buf.Bytes()| > 8 * r.buf.size)
            && (r.choking && !a.rcv.choking ==> 10 * |a.rcv.buf.Bytes()| < 3 * r.buf.size)
            && |a.rcv.buf.Bytes()| + BytesReadBy(r, e) >= |r.buf.Bytes()|
  {
    match e
    case Arrives(p) => ArrivalSignals(r, p);
    case Reads(n) => ReadSignals(r, n);
  }

  lemma ArrivalSignals(r: Receiver, p: Packet)
    requires Valid(r)
    ensures var a := OnData(r, p);
            && Valid(a.rcv) && a.rcv.buf.size == r.buf.size
            && SignalsIn(a.ctl) == (if a.rcv.choking == r.choking then []
                                    else if a.rcv.choking then [ChokeSignal] else [UnchokeSignal])
            && (!r.choking && a.rcv.choking ==> 10 * |a.rcv.buf.Bytes()| > 8 * r.buf.size)
            && (r.choking && !a.rcv.choking ==> 10 * |a.rcv.buf.Bytes()| < 3 * r.buf.size)
            && |a.rcv.buf.Bytes()| >= |r.buf.Bytes()|
  {
    AcceptValid(r, p);
    OnDataValid(r, p);
    MoreBytes(r.buf, Accept(r, p).buf);
    CheckSignals(Accept(r, p));
    hide Accept, Valid, SeqLess, ManageChoke;
    assert SignalsIn([Acknowledge]) == [] by { assert [Acknowledge][1..] == []; }
  }

  lemma MoreBytes(a: Buffer, b: Buffer)
    requires a.size == b.size && a.log <= b.log
    ensures |a.Bytes()| <= |b.Bytes()|
  {
  }

  lemma CheckSignals(r: Receiver)
    ensures var m := ManageChoke(r);
            && m.rcv.buf == r.buf && m.rcv.nacks == r.nacks
            && SignalsIn(m.ctl) == (if m.rcv.choking == r.choking then []
                                    else if m.rcv.choking then [ChokeSignal] else [UnchokeSignal])
            && SignalsIn(m.ctl + [Acknowledge]) == SignalsIn(m.ctl)
            && m.ctl + [] == m.ctl
            && (r.buf.size > 0 && !r.choking && m.rcv.choking ==> 10 * |r.buf.Bytes()| > 8 * r.buf.size)
            && (r.choking && !m.rcv.choking ==> 10 * |r.buf.Bytes()| < 3 * r.buf.size)
  {
    var m := ManageChoke(r);
    if m.ctl != [] {
      assert m.ctl[1..] == [] && (m.ctl + [Acknowledge])[1..] == [Acknowledge];
    } else {
      assert m.ctl + [Acknowledge] == [Acknowledge];
    }
    assert [Acknowledge][1..] == [];
  }

  lemma ReadSignals(r: Receiver, n: nat)
    requires Valid(r)
    ensures var a := OnRead(r, n);
            && Valid(a.rcv) && a.rcv.buf.size == r.buf.size
            && SignalsIn(a.ctl) == (if a.rcv.choking == r.choking then [] else [UnchokeSignal])
            && (!a.rcv.choking || r.choking)
            && (r.choking && !a.rcv.choking ==> 10 * |a.rcv.buf.Bytes()| < 3 * r.buf.size)
            && |a.rcv.buf.Bytes()| + |ReadBytes(r, n)| == |r.buf.Bytes()|
  {
    OnReadValid(r, n);
    hide Drain, Valid;
  }

  /** What an arrival sends, and when it chokes: an old packet nothing; an early one an
      acknowledgement; the next one first the signal of a change, then an acknowledgement unless
      the receiver is choking and misses nothing. It chokes above 8/10 and unchokes below 3/10
      of the buffer, as far as the usage is not that of the last check. */
  lemma ArrivalExactly(r: Receiver, p: Packet)
    requires Valid(r)
    ensures var a := OnData(r, p);
            var used := |a.rcv.buf.log|;
            && (p.sequenceNum != r.recvSeq ==>
                  && a.rcv.choking == r.choking && a.rcv.lastCheck == r.lastCheck && a.rcv.buf == r.buf
                  && a.ctl == if SeqLess(p.sequenceNum, r.recvSeq) then [] else [Acknowledge])
            && (p.sequenceNum == r.recvSeq ==>
                  && a.rcv.lastCheck == used
                  && a.rcv.choking == (if used == r.lastCheck then r.choking
                                       else 10 * used > 8 * r.buf.size || (r.choking && 10 * used >= 3 * r.buf.size))
                  && a.ctl == (if a.rcv.choking == r.choking then []
                               else if a.rcv.choking then [ChokeSignal] else [UnchokeSignal])
                              + if !a.rcv.choking || a.rcv.nacks != {} then [Acknowledge] else [])
  {
    AcceptValid(r, p);
    if p.sequenceNum != r.recvSeq { NotNext(r, p); }
    hide Accept, Valid, SeqLess;
  }

  lemma NotNext(r: Receiver, p: Packet)
    requires p.sequenceNum != r.recvSeq
    ensures Accept(r, p).buf == r.buf
  {
    hide SeqLess, Span;
  }

  /** Read returns as many bytes as there are and fit, the first ones, leaves the others, and
      unchokes exactly when these are below 3/10 of the buffer. */
  lemma ReadExactly(r: Receiver, n: nat)
    requires Valid(r)
    ensures var a, b := OnRead(r, n), ReadBytes(r, n);
            && |b| == (if n < |r.buf.Bytes()| then n else |r.buf.Bytes()|)
            && r.buf.Bytes() == b + a.rcv.buf.log
            && a.rcv.choking == (r.choking && 10 * |a.rcv.buf.log| >= 3 * r.buf.size)
            && a.ctl == (if r.choking && !a.rcv.choking then [UnchokeSignal] else [])
            && a.rcv.held == r.held && a.rcv.nacks == r.nacks && a.rcv.recvSeq == r.recvSeq && a.rcv.lastCheck == r.lastCheck
  {
    OnReadValid(r, n);
    hide Drain, Valid;
  }

  // ----- whole runs -----

  lemma {:induction false} AlternateAppend(a: seq<Control>, b: seq<Control>, choking: bool)
    requires Alternate(a, choking)
    requires Alternate(b, if |a| % 2 == 0 then choking else !choking)
    ensures Alternate(a + b, choking)
  {
    hide *;
    AlternateStep(a, choking);
    if a == [] {
      assert a + b == b;
    } else {
      AlternateAppend(a[1..], b, !choking);
      assert (a + b)[1..] == a[1..] + b;
      AlternateStep(a + b, choking);
    }
  }

  lemma AlternateStep(signals: seq<Control>, choking: bool)
    ensures Alternate(signals, choking) <==>
              signals == []
              || (signals[0] == (if choking then UnchokeSignal else ChokeSignal) && Alternate(signals[1..], !choking))
  {
  }

  /** Over every run the signals alternate, beginning with a choke if none is in force. */
  lemma {:induction false} SignalsAlternate(r: Receiver, run: seq<Event>)
    requires Valid(r)
    ensures Alternate(Signals(r, run), r.choking)
    decreases |run|
  {
    if run != [] {
      EventSignals(r, run[0]);
      var a := Apply(r, run[0]);
      SignalsAlternate(a.rcv, run[1..]);
      hide Apply, Valid;
      AlternateAppend(SignalsIn(a.ctl), Signals(a.rcv, run[1..]), r.choking);
    }
  }

  lemma {:induction false} UnchokesAppend(a: seq<Control>, b: seq<Control>)
    ensures Unchokes(a + b) == Unchokes(a) + Unchokes(b)
  {
    if a == [] {
      assert a + b == b;
    } else {
      UnchokesAppend(a[1..], b);
      assert (a + b)[1..] == a[1..] + b;
    }
  }

  /** What has been read, measured against k unchokes so far. */
  ghost predicate Paid(r: Receiver, read: nat, k: nat) {
    && (k > 0 ==> 10 * read > 5 * (r.buf.size * k))
    && (r.choking ==> 10 * (read + |r.buf.Bytes()|) > 8 * r.buf.size + 5 * (r.buf.size * k))
  }

  lemma EventPays(r: Receiver, e: Event, read: nat, k: nat)
    requires Valid(r) && Paid(r, read, k)
    ensures var a := Apply(r, e);
            Paid(a.rcv, read + BytesReadBy(r, e), k + Unchokes(SignalsIn(a.ctl)))
  {
    hide *;
    EventSignals(r, e);
    var a := Apply(r, e);
    OneSignal();
    PaidIs(r, read, k);
    PaidIs(a.rcv, read + BytesReadBy(r, e), k + Unchokes(SignalsIn(a.ctl)));
    assert r.buf.size * (k + 1) == r.buf.size * k + r.buf.size;
  }

  lemma OneSignal()
    ensures Unchokes([]) == 0 && Unchokes([ChokeSignal]) == 0 && Unchokes([UnchokeSignal]) == 1
  {
    assert [ChokeSignal][1..] == [] && [UnchokeSignal][1..] == [];
  }

  lemma PaidIs(r: Receiver, read: nat, k: nat)
    ensures Paid(r, read, k) <==>
              && (k > 0 ==> 10 * read > 5 * (r.buf.size * k))
              && (r.choking ==> 10 * (read + |r.buf.Bytes()|) > 8 * r.buf.size + 5 * (r.buf.size * k))
  {
  }

  lemma RunStep(r: Receiver, run: seq<Event>)
    ensures run == [] ==> Final(r, run) == r && BytesRead(r, run) == 0 && Unchokes(Signals(r, run)) == 0
    ensures run != [] ==>
              var a := Apply(r, run[0]);
              && Final(r, run) == Final(a.rcv, run[1..])
              && BytesRead(r, run) == BytesReadBy(r, run[0]) + BytesRead(a.rcv, run[1..])
              && Signals(r, run) == SignalsIn(a.ctl) + Signals(a.rcv, run[1..])
  {
    hide Apply, BytesReadBy, SignalsIn;
  }

  lemma {:induction false} RunPays(r: Receiver, run: seq<Event>, read: nat, k: nat)
    requires Valid(r) && Paid(r, read, k)
    ensures Paid(Final(r, run), read + BytesRead(r, run), k + Unchokes(Signals(r, run)))
    ensures Final(r, run).buf.size == r.buf.size
    decreases |run|
  {
    hide *;
    RunStep(r, run);
    if run != [] {
      var a := Apply(r, run[0]);
      EventSignals(r, run[0]);
      EventPays(r, run[0], read, k);
      UnchokesAppend(SignalsIn(a.ctl), Signals(a.rcv, run[1..]));
      RunPays(a.rcv, run[1..], read + BytesReadBy(r, run[0]), k + Unchokes(SignalsIn(a.ctl)));
    }
  }

  /** k unchokes (k > 0) mean that the application has read more than k times half the
      buffer size: the two thresholds cannot chatter. */
  lemma UnchokesNeedReads(r: Receiver, run: seq<Event>)
    requires Valid(r) && !r.choking
    ensures var k := Unchokes(Signals(r, run));
            k > 0 ==> 2 * BytesRead(r, run) > r.buf.size * k
  {
    hide *;
    NothingPaid(r);
    RunPays(r, run, 0, 0);
    PaidMeans(Final(r, run), BytesRead(r, run), Unchokes(Signals(r, run)));
  }

  lemma NothingPaid(r: Receiver)
    requires !r.choking
    ensures Paid(r, 0, 0)
  {
  }

  lemma PaidMeans(r: Receiver, read: nat, k: nat)
    requires Paid(r, read, k)
    ensures k > 0 ==> 2 * read > r.buf.size * k
  {
    var product := r.buf.size * k;
  }

  // ----- the buffer-check shortcut -----

  /** "Not choking means at most 8/10 full" holds after the check unless the shortcut is
      taken: the usage equals that of the last check while above the threshold. */
  lemma ShortcutMissesExactly(r: Receiver)
    ensures var m := ManageChoke(r).rcv;
            (!m.choking ==> 10 * |m.buf.log| <= 8 * m.buf.size)
            <==> !(|r.buf.log| == r.lastCheck && !r.choking && 10 * |r.buf.log| > 8 * r.buf.size)
  {
  }

  /** The exception is reachable with every buffer and from every number: a chunk of more than
      8/10 of the buffer arrives (choke), is read whole (unchoke), another one of its length
      arrives, and no choke is sent. */
  lemma ShortcutIsReached(first: u32, size: nat, chunk: seq<byte>, next: seq<byte>)
    requires 8 * size < 10 * |chunk| && |chunk| == |next| <= size
    ensures var p0 := PlainPacket(1, 2, first, 0, [], 0, chunk);
            var p1 := PlainPacket(1, 2, Wrap(first + 1), 0, [], 0, next);
            var r := Receiver(first, map[], {}, Buffer([], size), false, 0);
            var run := [Arrives(p0), Reads(size), Arrives(p1)];
            && Valid(r)
            && Signals(r, run) == [ChokeSignal, UnchokeSignal]
            && !Final(r, run).choking && 10 * |Final(r, run).buf.log| > 8 * size
  {
    var p0 := PlainPacket(1, 2, first, 0, [], 0, chunk);
    var p1 := PlainPacket(1, 2, Wrap(first + 1), 0, [], 0, next);
    var r0 := Receiver(first, map[], {}, Buffer([], size), false, 0);
    var full := Receiver(Wrap(first + 1), map[], {}, Buffer(chunk, size), true, |chunk|);
    var empty := Receiver(Wrap(first + 1), map[], {}, Buffer([], size), false, |chunk|);
    var again := Receiver(Wrap(Wrap(first + 1) + 1), map[], {}, Buffer(next, size), false, |chunk|);
    hide Wrap;
    assert [] + chunk == chunk && [] + next == next;
    FillOnce(r0, p0);
    assert Apply(r0, Arrives(p0)) == Reply(full, [ChokeSignal]) by { hide Accept; }
    assert Consume(full, size) == empty.(choking := true);
    assert Apply(full, Reads(size)) == Reply(empty, [UnchokeSignal]);
    FillOnce(empty, p1);
    assert Apply(empty, Arrives(p1)) == Reply(again, [Acknowledge]) by { hide Accept; }
    ThreeEvents(r0, full, empty, again, Arrives(p0), Reads(size), Arrives(p1));
  }

  lemma FillOnce(r: Receiver, p: Packet)
    requires r.held == map[] && r.nacks == {} && p.sequenceNum == r.recvSeq
    ensures Accept(r, p) == r.(recvSeq := Wrap(r.recvSeq + 1), buf := r.buf.Write(p.payload))
  {
  }

  lemma ThreeEvents(r0: Receiver, r1: Receiver, r2: Receiver, r3: Receiver, e0: Event, e1: Event, e2: Event)
    requires Apply(r0, e0) == Reply(r1, [ChokeSignal])
    requires Apply(r1, e1) == Reply(r2, [UnchokeSignal])
    requires Apply(r2, e2) == Reply(r3, [Acknowledge])
    ensures Final(r0, [e0, e1, e2]) == r3
    ensures Signals(r0, [e0, e1, e2]) == [ChokeSignal, UnchokeSignal]
  {
    hide Apply;
    assert [e0, e1, e2][1..] == [e1, e2] && [e1, e2][1..] == [e2] && [e2][1..] == [];
    assert SignalsIn([Acknowledge]) == [] && SignalsIn([ChokeSignal]) == [ChokeSignal];
    assert SignalsIn([UnchokeSignal]) == [UnchokeSignal];
    assert Final(r3, []) == r3 && Final(r2, [e2]) == r3 && Final(r1, [e1, e2]) == r3;
    assert Signals(r2, [e2]) == [];
    assert Signals(r1, [e1, e2]) == [UnchokeSignal];
  }
}
