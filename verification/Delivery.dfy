/** What holds in every state that two connections and the network can reach. */
module Delivery {
  import opened Serial
  import opened Packets
  import opened Congestion
  import opened Connections
  import opened Protocol
  import opened ProtocolSteps
  import Sending
  import Receiving

  datatype Who = A | B {
    function Other(): Who {
      if this == A then B else A
    }
  }

  datatype World = World(a: Side, b: Side) {
    function Of(side: Who): Side {
      if side == A then a else b
    }

    /** The same state after one side has changed. */
    function With(side: Who, x: Side): World {
      if side == A then World(x, b) else World(a, x)
    }
  }

  /** A side right after the handshake: nothing sent, nothing received. Its first data packet
      and the first it expects are numbered one past the two initial sequence numbers; at
      most the final ACK of the handshake has been sent. */
  ghost predicate Fresh(x: Side, y: Side) {
    && x.log == [] && x.rcvd == 0 && x.acked == 0 && x.fed == [] && x.out == [] && !x.overflowed
    && x.c.snd.sendSeq == Wrap(x.base) && x.c.snd.sent == map[] && x.c.snd.nackCounts == map[]
    && InBounds(x.c.snd.window)
    && (x.c.state == SynRcvd || (x.c.state == Established && x.c.snd.ackThrough == Wrap(x.base - 1)))
    && x.c.rcv.recvSeq == Wrap(y.base) && x.c.rcv.held == map[] && x.c.rcv.nacks == {}
    && x.c.rcv.buf.log == [] && x.c.rcv.buf.size > 0 && !x.c.rcv.choking && x.c.rcv.lastCheck == 0
    && forall m | m in x.ctl :: m.ack == 0 && exists nacks :: m.p == ControlPacket(x.c, Receiving.Acknowledge, nacks) && nacks == []
  }

  ghost predicate Start(w: World) {
    Fresh(w.a, w.b) && Fresh(w.b, w.a)
  }

  ghost predicate Next(w: World, w': World) {
    || (w'.b == w.b && exists act, now :: Step(w.a, w.b, act, now, w'.a))
    || (w'.a == w.a && exists act, now :: Step(w.b, w.a, act, now, w'.b))
  }

  /** Any interleaving of writes, deliveries, losses, duplications, timeouts and reads. */
  ghost predicate IsRun(run: seq<World>) {
    && run != [] && Start(run[0])
    && forall i | 0 <= i < |run| - 1 :: Next(run[i], run[i + 1])
  }

  ghost predicate Reachable(w: World) {
    exists run :: IsRun(run) && run[|run| - 1] == w
  }

  /** x and y are the two sides of w, in either order. */
  ghost predicate Peers(w: World, x: Side, y: Side) {
    (x == w.a && y == w.b) || (x == w.b && y == w.a)
  }

  lemma Sides(w: World, side: Who)
    ensures side == A ==> w.Of(side) == w.a && w.Of(side.Other()) == w.b
    ensures side == B ==> w.Of(side) == w.b && w.Of(side.Other()) == w.a
    ensures Peers(w, w.Of(side), w.Of(side.Other()))
  {
  }

  lemma FreshSound(x: Side, y: Side)
    requires Fresh(x, y) && Fresh(y, x)
    ensures Half(x, y)
  {
    hide *;
    FreshIs(x, y);
    FreshIs(y, x);
    FreshFlight(x.base);
    SendsIs(x.c.snd, x.base, [], 0);
    FreshReceives(x.c.rcv, y.base);
    FedIs([], 0, []);
    IntactIs(x.c.rcv.buf, [], [], false);
    EmptyStream();
    SoundIs(x, y);
    forall m | m in x.log || m in x.ctl ensures Truthful(m, 0, y.base, 0) && m.p.sequenceNum == 0 {
      TruthfulIs(m, 0, y.base, 0);
    }
    MessagesAre(x, y);
    HalfIs(x, y);
  }

  lemma FreshIs(x: Side, y: Side)
    requires Fresh(x, y)
    ensures x.log == [] && x.rcvd == 0 && x.acked == 0 && x.fed == [] && x.out == [] && !x.overflowed
    ensures x.c.snd.sendSeq == Wrap(x.base + 0) && |x.c.snd.sent| == 0 && x.c.snd.sent == map[] && InBounds(x.c.snd.window)
    ensures DataLog([], x.base)
    ensures x.c.state == SynRcvd || (x.c.state == Established && x.c.snd.ackThrough == Wrap(x.base + 0 - 1))
    ensures x.c.rcv.recvSeq == Wrap(y.base) && x.c.rcv.held == map[] && x.c.rcv.nacks == {}
    ensures x.c.rcv.buf.log == [] && x.c.rcv.buf.size > 0 && !x.c.rcv.choking && x.c.rcv.lastCheck == 0
    ensures forall m | m in x.ctl :: m.ack == 0 && m.p.sequenceNum == 0 && m.p.nacks == []
              && m.p.ackThrough == Wrap(y.base + 0 - 1) && !Has(m.p.flags, Flag.Syn) && !Has(m.p.flags, Flag.NoAck)
  {
    AckOfRecvSeq(y.base, 0);
    hide Wrap, InBounds;
  }

  lemma FreshFlight(base: int)
    ensures InFlight(map[], base, 0, [])
  {
    Receiving.SpanStep(Wrap(base), 0);
    hide Wrap, Receiving.Span;
  }

  lemma FreshReceives(r: Receiving.Receiver, base: int)
    requires r.recvSeq == Wrap(base) && r.held == map[] && r.nacks == {} && r.buf.size > 0
    ensures Receives(r, base, 0, [])
  {
    hide Wrap, SeqDiff;
  }

  lemma EmptyStream()
    ensures Receiving.Concat(Payloads([])[..0]) == []
  {
  }

  /** The invariant holds at every point of every run, and what is logged, delivered or
      acknowledged at some point stays so. */
  lemma {:induction false} RunInvariant(run: seq<World>, i: nat, j: nat)
    requires IsRun(run) && i <= j < |run|
    ensures Inv(run[j].a, run[j].b)
    ensures run[i].a.log <= run[j].a.log && run[i].a.rcvd <= run[j].a.rcvd && run[i].a.acked <= run[j].a.acked
    ensures run[i].b.log <= run[j].b.log && run[i].b.rcvd <= run[j].b.rcvd && run[i].b.acked <= run[j].b.acked
    ensures run[i].a.base == run[j].a.base && run[i].b.base == run[j].b.base
    decreases j
  {
    hide *;
    RunIs(run);
    if j == 0 {
      StartInv(run[0]);
    } else if i < j {
      RunInvariant(run, i, j - 1);
      NextKeeps(run[j - 1], run[j]);
    } else {
      RunInvariant(run, i - 1, j - 1);
      NextKeeps(run[j - 1], run[j]);
    }
  }

  lemma RunIs(run: seq<World>)
    requires IsRun(run)
    ensures run != [] && Start(run[0])
    ensures forall i | 1 <= i < |run| :: Next(run[i - 1], run[i])
  {
    hide Start, Next;
    forall i | 1 <= i < |run| ensures Next(run[i - 1], run[i]) {
      assert Next(run[i - 1], run[(i - 1) + 1]);
    }
  }

  lemma StartInv(w: World)
    requires Start(w)
    ensures Inv(w.a, w.b)
  {
    FreshSound(w.a, w.b);
    FreshSound(w.b, w.a);
    hide Half, Fresh;
  }

  lemma InvSwap(x: Side, y: Side)
    requires Inv(x, y)
    ensures Inv(y, x) && Half(x, y)
  {
    hide Half;
  }

  lemma NextKeeps(w: World, w': World)
    requires Inv(w.a, w.b) && Next(w, w')
    ensures Inv(w'.a, w'.b)
    ensures w.a.log <= w'.a.log && w.a.rcvd <= w'.a.rcvd && w.a.acked <= w'.a.acked && w.a.base == w'.a.base
    ensures w.b.log <= w'.b.log && w.b.rcvd <= w'.b.rcvd && w.b.acked <= w'.b.acked && w.b.base == w'.b.base
  {
    hide Inv, Step;
    if w'.b == w.b && exists act, now :: Step(w.a, w.b, act, now, w'.a) {
      var act, now :| Step(w.a, w.b, act, now, w'.a);
      StepKeepsInv(w.a, w.b, act, now, w'.a);
    } else {
      var act, now :| Step(w.b, w.a, act, now, w'.b);
      InvSwap(w.a, w.b);
      StepKeepsInv(w.b, w.a, act, now, w'.b);
      InvSwap(w'.b, w'.a);
    }
  }

  lemma ReachableInv(w: World, x: Side, y: Side)
    requires Reachable(w) && Peers(w, x, y)
    ensures Inv(x, y)
  {
    hide Inv, Start, Next;
    var run :| IsRun(run) && run[|run| - 1] == w;
    RunInvariant(run, |run| - 1, |run| - 1);
    InvSwap(w.a, w.b);
  }

  // ----- end to end -----

  /** For every interleaving of writes, losses, duplicates, reorderings, retransmissions and
      reads: the bytes written to one side's receive buffer are a prefix of the chunks the
      other side's Write sent. What Read returned and what it can still return are all of
      them if and only if the buffer never held more than its size. */
  lemma EndToEnd(w: World, x: Side, y: Side)
    requires Reachable(w) && Peers(w, x, y)
    ensures y.rcvd <= |x.log| && y.fed == Receiving.Concat(Payloads(x.log)[..y.rcvd])
    ensures y.fed <= Receiving.Concat(Payloads(x.log))
    ensures y.out + y.c.rcv.buf.Bytes() == y.fed <==> !y.overflowed
    ensures !y.overflowed ==> y.out <= Receiving.Concat(Payloads(x.log))
  {
    hide *;
    ReachableInv(w, x, y);
    HalfIs(x, y);
    HalfIs(y, x);
    SoundIs(y, x);
    FedIs(y.fed, y.rcvd, x.log);
    IntactIs(y.c.rcv.buf, y.fed, y.out, y.overflowed);
    WholeBuffer(y.c.rcv.buf);
    var s := Payloads(x.log);
    Receiving.ConcatAppend(s[..y.rcvd], s[y.rcvd..]);
    assert s == s[..y.rcvd] + s[y.rcvd..];
  }

  /** The buffer can be read back whole exactly while it holds no more than its size. */
  lemma WholeBuffer(buf: Receiving.Buffer)
    ensures buf.Bytes() == buf.log <==> |buf.log| <= buf.size
  {
    if |buf.log| > buf.size {
      assert |buf.Bytes()| == buf.size;
    }
  }

  // ----- a call of Write -----

  /** The side after sending the chunks one by one. */
  function Written(x: Side, chunks: seq<seq<byte>>, now: int): Side
    decreases |chunks|
  {
    if chunks == [] then x else Written(Acted(x, Write(chunks[0]), now), chunks[1..], now)
  }

  ghost predicate AllEnabled(x: Side, y: Side, chunks: seq<seq<byte>>, now: int)
    decreases |chunks|
  {
    chunks == [] ||
    (Enabled(x, y, Write(chunks[0]), now) && AllEnabled(Acted(x, Write(chunks[0]), now), y, chunks[1..], now))
  }

  /** What Write sends between two waits is a series of protocol steps, and these append
      exactly the bytes taken from its argument to the stream. */
  lemma {:induction false} WriteExtendsStream(x: Side, y: Side, data: seq<byte>, now: int)
    requires x.c.state == Established && NegotiatedMTU(x.c.ids) > 0
    ensures var chunks := Chunks(x.c, data, now);
            && AllEnabled(x, y, chunks, now)
            && Payloads(Written(x, chunks, now).log) == Payloads(x.log) + chunks
            && Receiving.Concat(Payloads(Written(x, chunks, now).log)) == Receiving.Concat(Payloads(x.log)) + Receiving.Concat(chunks)
            && Receiving.Concat(chunks) <= data
    decreases |data|
  {
    hide *;
    var chunks := Chunks(x.c, data, now);
    ChunksArePrefix(x.c, data, now);
    ChunksStep(x, y, data, now);
    WrittenStep(x, y, chunks, now);
    if chunks != [] {
      var z := Acted(x, Write(chunks[0]), now);
      WriteExtendsStream(z, y, data[|chunks[0]|..], now);
      assert chunks == [chunks[0]] + chunks[1..];
      assert Payloads(x.log) + [chunks[0]] + chunks[1..] == Payloads(x.log) + chunks;
    } else {
      assert Payloads(x.log) + chunks == Payloads(x.log);
    }
    Receiving.ConcatAppend(Payloads(x.log), chunks);
  }

  lemma ChunksStep(x: Side, y: Side, data: seq<byte>, now: int)
    requires x.c.state == Established && NegotiatedMTU(x.c.ids) > 0
    ensures var chunks := Chunks(x.c, data, now);
            chunks != [] ==>
              var z := Acted(x, Write(chunks[0]), now);
              && 0 < |chunks[0]| <= |data| && Enabled(x, y, Write(chunks[0]), now)
              && z.c.state == Established && NegotiatedMTU(z.c.ids) > 0
              && chunks[1..] == Chunks(z.c, data[|chunks[0]|..], now)
              && Payloads(z.log) == Payloads(x.log) + [chunks[0]]
  {
    hide DataPacket, Sending.Track;
    var chunks := Chunks(x.c, data, now);
    if chunks != [] {
      PayloadOf(x.c, chunks[0]);
    }
  }

  lemma PayloadOf(c: Conn, chunk: seq<byte>)
    ensures DataPacket(c, chunk).payload == chunk
  {
  }

  lemma WrittenStep(x: Side, y: Side, chunks: seq<seq<byte>>, now: int)
    ensures chunks == [] ==> Written(x, chunks, now) == x && AllEnabled(x, y, chunks, now)
    ensures chunks != [] ==>
              var z := Acted(x, Write(chunks[0]), now);
              && Written(x, chunks, now) == Written(z, chunks[1..], now)
              && (AllEnabled(x, y, chunks, now) <==> Enabled(x, y, Write(chunks[0]), now) && AllEnabled(z, y, chunks[1..], now))
  {
    hide Acted, Enabled;
  }

  // ----- no loss by acknowledgement -----

  /** The tracked packets are always exactly the chunks from the last cleaned one to the last
      sent, at most 128, each as it was first sent; and every chunk no longer tracked has
      already been written to the peer's receive buffer. */
  lemma NothingLost(w: World, x: Side, y: Side)
    requires Reachable(w) && Peers(w, x, y)
    ensures 0 <= Cleaned(x) <= x.acked <= y.rcvd <= |x.log| <= Cleaned(x) + MAX_WINDOW
    ensures forall i: nat | Cleaned(x) <= i < |x.log| :: Stored(x, i)
    ensures forall k | k in x.c.snd.sent :: exists i: nat :: Cleaned(x) <= i && k == Wrap(x.base + i) && Stored(x, i)
  {
    hide *;
    ReachableInv(w, x, y);
    InvBounds(x, y);
    forall i: nat | Cleaned(x) <= i < |x.log| ensures Stored(x, i) {
      TrackedExactly(x.c.snd.sent, x.base, Cleaned(x), x.log, i);
      StoredIs(x, i);
    }
    forall k | k in x.c.snd.sent ensures exists i: nat :: Cleaned(x) <= i && k == Wrap(x.base + i) && Stored(x, i) {
      var i := IndexOf(x, k);
      TrackedExactly(x.c.snd.sent, x.base, Cleaned(x), x.log, i);
      StoredIs(x, i);
    }
  }

  /** Chunk i is tracked, and the packet kept for it is the one it was sent as. */
  ghost predicate Stored(x: Side, i: nat) {
    var k := Wrap(x.base + i);
    i < |x.log| && k in x.c.snd.sent && x.c.snd.sent[k].data == x.log[i].p
  }

  lemma StoredIs(x: Side, i: nat)
    ensures Stored(x, i) <==>
              var k := Wrap(x.base + i);
              i < |x.log| && k in x.c.snd.sent && x.c.snd.sent[k].data == x.log[i].p
  {
    hide Wrap;
  }

  lemma IndexOf(x: Side, k: u32) returns (i: nat)
    requires InFlight(x.c.snd.sent, x.base, Cleaned(x), x.log) && k in x.c.snd.sent
    ensures Cleaned(x) <= i < |x.log| && k == Wrap(x.base + i)
  {
    hide *;
    FlightIs(x.c.snd.sent, x.base, Cleaned(x), x.log);
    FlightIndex(x.c.snd.sent, x.base, Cleaned(x), x.log, k);
    i := Cleaned(x) + SeqDiff(Wrap(x.base + Cleaned(x)), k);
  }

  lemma CleanedIs(x: Side)
    ensures Cleaned(x) == |x.log| - |x.c.snd.sent|
  {
  }

  lemma InvBounds(x: Side, y: Side)
    requires Inv(x, y)
    ensures 0 <= Cleaned(x) <= x.acked <= y.rcvd <= |x.log| <= Cleaned(x) + MAX_WINDOW
    ensures InFlight(x.c.snd.sent, x.base, Cleaned(x), x.log) && DataLog(x.log, x.base)
    ensures Receives(y.c.rcv, x.base, y.rcvd, x.log)
  {
    hide *;
    HalfIs(x, y);
    HalfIs(y, x);
    SoundIs(x, y);
    SoundIs(y, x);
    SendsIs(x.c.snd, x.base, x.log, x.acked);
    ReceivesIs(y.c.rcv, x.base, y.rcvd, x.log);
    CleanedIs(x);
    FlightIs(x.c.snd.sent, x.base, Cleaned(x), x.log);
    Words();
  }

  lemma TrackedExactly(sent: map<u32, Sending.SentPacket>, base: int, cleaned: int, log: seq<Msg>, i: nat)
    requires InFlight(sent, base, cleaned, log) && cleaned <= i < |log|
    ensures Wrap(base + i) in sent && sent[Wrap(base + i)].data == log[i].p
  {
    hide *;
    var k := Wrap(base + i);
    FlightIs(sent, base, cleaned, log);
    FlightIndex(sent, base, cleaned, log, k);
    Words();
    DiffIsExact(base + cleaned, base + i);
    HoldsIs(sent[k].data, i, log);
  }

  lemma HoldsIs(p: Packet, i: int, log: seq<Msg>)
    requires Holds(p, i, log)
    ensures 0 <= i < |log| && p == log[i].p
  {
  }

  /** Over a whole run, for either side: a packet tracked at some point and no longer tracked
      at a later one had its payload written to the peer's receive buffer by then. */
  lemma RemovedWasWritten(run: seq<World>, side: Who, i: nat, j: nat, n: nat)
    requires IsRun(run) && i <= j < |run|
    requires var x := run[i].Of(side); Stored(x, n) && Cleaned(x) <= n
    requires !Stored(run[j].Of(side), n)
    ensures var x', y' := run[j].Of(side), run[j].Of(side.Other());
            && n < y'.rcvd <= |x'.log|
            && y'.fed == Receiving.Concat(Payloads(x'.log)[..y'.rcvd])
            && x'.log[n] == run[i].Of(side).log[n]
  {
    hide *;
    RunInvariant(run, i, j);
    Sides(run[i], side);
    Sides(run[j], side);
    var x, x', y' := run[i].Of(side), run[j].Of(side), run[j].Of(side.Other());
    InvSwap(run[j].a, run[j].b);
    InvBounds(x', y');
    StoredIs(x, n);
    StoredIs(x', n);
    if n >= Cleaned(x') {
      TrackedExactly(x'.c.snd.sent, x'.base, Cleaned(x'), x'.log, n);
    }
    HalfIs(y', x');
    HalfIs(x', y');
    SoundIs(y', x');
    FedIs(y'.fed, y'.rcvd, x'.log);
  }

  /** Whatever a batch of NACKs or a timeout resends is a packet sent before: retransmission
      puts nothing new on the network. */
  lemma {:induction false} ResendsAreOriginals(w: World, x: Side, y: Side, fired: seq<u32>)
    requires Reachable(w) && Peers(w, x, y)
    ensures forall p | p in Resent(x.c.snd.sent, fired) :: exists m :: m in x.log && p == m.p
  {
    hide *;
    ResentStep(x.c.snd.sent, fired);
    if fired != [] {
      ResendsAreOriginals(w, x, y, fired[..|fired| - 1]);
      var k := fired[|fired| - 1];
      if k in x.c.snd.sent {
        ReachableInv(w, x, y);
        InvBounds(x, y);
        var i := IndexOf(x, k);
        TrackedExactly(x.c.snd.sent, x.base, Cleaned(x), x.log, i);
        assert x.log[i] in x.log;
      }
    }
  }

  lemma ResentStep(sent: map<u32, Sending.SentPacket>, fired: seq<u32>)
    ensures fired == [] ==> Resent(sent, fired) == []
    ensures fired != [] ==>
              var k := fired[|fired| - 1];
              Resent(sent, fired) == Resent(sent, fired[..|fired| - 1]) + if k in sent then [sent[k].data] else []
  {
  }

  // ----- retransmission requests -----

  /** Every number that a message requests is serially greater than what the message
      acknowledges, and names a chunk that the requester has by now or that is still tracked. */
  lemma RequestsCanBeServed(w: World, x: Side, y: Side, m: Msg, k: u32) returns (i: nat)
    requires Reachable(w) && Peers(w, x, y) && (m in y.log || m in y.ctl) && k in m.p.nacks
    ensures SeqGreater(k, m.p.ackThrough)
    ensures m.ack <= i < |x.log| && k == Wrap(x.base + i)
    ensures i < y.rcvd || Stored(x, i)
  {
    hide *;
    ReachableInv(w, x, y);
    InvBounds(x, y);
    HalfIs(x, y);
    HalfIs(y, x);
    TruthfulIs(m, y.rcvd, x.base, |x.log|);
    RequestsIs(m, k, x.base, |x.log|);
    i := m.ack + SeqDiff(Wrap(x.base + m.ack), k);
    Receiving.Behind(Wrap(x.base + m.ack), k);
    WrapAdd(x.base + m.ack, SeqDiff(Wrap(x.base + m.ack), k));
    assert x.base + i == x.base + m.ack + SeqDiff(Wrap(x.base + m.ack), k);
    Words();
    SerialIsExact(x.base + i, x.base + m.ack - 1);
    if i >= Cleaned(x) {
      TrackedExactly(x.c.snd.sent, x.base, Cleaned(x), x.log, i);
    }
    StoredIs(x, i);
  }

  /** Chunk i of the peer arrived ahead of its turn. */
  ghost predicate Held(x: Side, y: Side, i: nat) {
    Wrap(y.base + i) in x.c.rcv.held
  }

  /** Chunk i has not arrived although a later one has. */
  ghost predicate Missing(x: Side, y: Side, i: nat) {
    x.rcvd <= i < |y.log| && !Held(x, y, i) && exists j: nat :: i < j < |y.log| && Held(x, y, j)
  }

  /** In every reachable state the NACK list is precisely the missing chunks below the
      highest buffered one, and at most 127 numbers long: no bound of the code ever cuts it. */
  lemma NackListExact(w: World, x: Side, y: Side)
    requires Reachable(w) && Peers(w, x, y)
    ensures forall i: nat | x.rcvd <= i < |y.log| :: (Wrap(y.base + i) in x.c.rcv.nacks) == Missing(x, y, i)
    ensures forall k | k in x.c.rcv.nacks :: exists i: nat :: k == Wrap(y.base + i) && Missing(x, y, i)
    ensures |x.c.rcv.nacks| < MAX_WINDOW
  {
    hide *;
    ReachableInv(w, x, y);
    ReachableInv(w, y, x) by { PeersSwap(w, x, y); }
    InvBounds(y, x);
    Words();
    ReceivesIs(x.c.rcv, y.base, x.rcvd, y.log);
    forall i: nat | x.rcvd <= i < |y.log| ensures (Wrap(y.base + i) in x.c.rcv.nacks) == Missing(x, y, i) {
      NackIsMissing(x, y, i);
    }
    forall k | k in x.c.rcv.nacks ensures exists i: nat :: k == Wrap(y.base + i) && Missing(x, y, i) {
      var i := NackIndex(x, y, k);
      NackIsMissing(x, y, i);
    }
    NacksFit(x, y);
  }

  lemma PeersSwap(w: World, x: Side, y: Side)
    requires Peers(w, x, y)
    ensures Peers(w, y, x)
  {
  }

  lemma NackIndex(x: Side, y: Side, k: u32) returns (i: nat)
    requires Receives(x.c.rcv, y.base, x.rcvd, y.log) && k in x.c.rcv.nacks
    ensures x.rcvd <= i < |y.log| && k == Wrap(y.base + i)
    ensures i == x.rcvd + SeqDiff(x.c.rcv.recvSeq, k)
  {
    hide *;
    ReceivesIs(x.c.rcv, y.base, x.rcvd, y.log);
    NackWasSent(x.c.rcv, y.base, x.rcvd, Payloads(y.log), k);
    Receiving.Behind(x.c.rcv.recvSeq, k);
    WrapAdd(y.base + x.rcvd, SeqDiff(x.c.rcv.recvSeq, k));
    i := x.rcvd + SeqDiff(x.c.rcv.recvSeq, k);
  }

  lemma HeldIndex(r: Receiving.Receiver, base: int, rcvd: nat, log: seq<Msg>, h: u32) returns (j: nat)
    requires Receives(r, base, rcvd, log) && h in r.held
    ensures rcvd <= j < |log| && h == Wrap(base + j) && j == rcvd + Receiving.Ahead(r, h)
  {
    assert Receiving.IsChunk(r.held[h].payload, rcvd + Receiving.Ahead(r, h), Payloads(log));
    j := rcvd + Receiving.Ahead(r, h);
    Receiving.Behind(r.recvSeq, h);
    WrapAdd(base + rcvd, SeqDiff(r.recvSeq, h));
    hide SeqDiff, Wrap, Receiving.Valid, Receiving.Exact;
  }

  lemma NackIsMissing(x: Side, y: Side, i: nat)
    requires Receives(x.c.rcv, y.base, x.rcvd, y.log) && x.rcvd <= i < |y.log| <= x.rcvd + MAX_WINDOW
    ensures (Wrap(y.base + i) in x.c.rcv.nacks) == Missing(x, y, i)
  {
    hide *;
    var r := x.c.rcv;
    var k := Wrap(y.base + i);
    ReceivesIs(r, y.base, x.rcvd, y.log);
    Words();
    DiffIsExact(y.base + x.rcvd, y.base + i);
    ExactIs(r, k);
    MissingIs(x, y, i);
    if Receiving.IsGap(r, k) {
      var h := GapWitness(r, k);
      var j := HeldIndex(r, y.base, x.rcvd, y.log, h);
      HeldIs(x, y, j);
    }
    if Missing(x, y, i) {
      var j: nat :| i < j < |y.log| && Held(x, y, j);
      HeldIs(x, y, j);
      DiffIsExact(y.base + x.rcvd, y.base + j);
      GapFrom(r, k, Wrap(y.base + j));
    }
  }

  lemma HeldIs(x: Side, y: Side, i: nat)
    ensures Held(x, y, i) <==> Wrap(y.base + i) in x.c.rcv.held
  {
  }

  lemma MissingIs(x: Side, y: Side, i: nat)
    ensures Missing(x, y, i) <==>
              x.rcvd <= i < |y.log| && Wrap(y.base + i) !in x.c.rcv.held && exists j: nat :: i < j < |y.log| && Held(x, y, j)
  {
    assert Held(x, y, i) <==> Wrap(y.base + i) in x.c.rcv.held;
    hide Wrap, Held;
  }

  lemma ExactIs(r: Receiving.Receiver, k: u32)
    requires Receiving.Exact(r)
    ensures k in r.nacks <==> Receiving.IsGap(r, k)
    ensures Receiving.IsGap(r, k) ==> k !in r.held
    ensures Receiving.Ahead(r, k) == SeqDiff(r.recvSeq, k)
  {
    hide SeqDiff;
  }

  lemma GapWitness(r: Receiving.Receiver, k: u32) returns (h: u32)
    requires Receiving.IsGap(r, k)
    ensures h in r.held && SeqDiff(r.recvSeq, k) < Receiving.Ahead(r, h)
  {
    hide SeqDiff;
    h :| h in r.held && Receiving.Ahead(r, k) < Receiving.Ahead(r, h);
  }

  lemma GapFrom(r: Receiving.Receiver, k: u32, h: u32)
    requires k !in r.held && h in r.held && SeqDiff(r.recvSeq, k) < SeqDiff(r.recvSeq, h)
    ensures Receiving.IsGap(r, k)
  {
    hide SeqDiff;
    assert Receiving.Ahead(r, k) < Receiving.Ahead(r, h);
  }

  lemma NacksFit(x: Side, y: Side)
    requires Receives(x.c.rcv, y.base, x.rcvd, y.log) && |y.log| <= x.rcvd + MAX_WINDOW
    requires forall k | k in x.c.rcv.nacks :: exists i: nat :: k == Wrap(y.base + i) && Missing(x, y, i)
    ensures |x.c.rcv.nacks| < MAX_WINDOW
  {
    hide *;
    var r := x.c.rcv;
    ReceivesIs(r, y.base, x.rcvd, y.log);
    Words();
    Receiving.SpanAhead(r.recvSeq, 127);
    forall k | k in r.nacks ensures k in Receiving.Span(r.recvSeq, 127) {
      var i: nat :| k == Wrap(y.base + i) && Missing(x, y, i);
      MissingIs(x, y, i);
      DiffIsExact(y.base + x.rcvd, y.base + i);
    }
    Receiving.SubsetSize(r.nacks, Receiving.Span(r.recvSeq, 127));
  }
}
