/** The receiving half of a stream connection: reordering, the NACK list, the receive
    buffer and the choke signals, as functions on values. */
module Receiving {
  import opened Serial
  import opened Packets

  const MAX_NACKS := 255

  /** The circular receive buffer: everything written since the last reset, of which
      only the last `size` bytes can be read back. Writing never fails. */
  datatype Buffer = Buffer(log: seq<byte>, size: nat) {
    function Write(b: seq<byte>): Buffer {
      Buffer(log + b, size)
    }

    function Bytes(): seq<byte> {
      if |log| <= size then log else log[|log| - size..]
    }
  }

  datatype Receiver = Receiver(
    recvSeq: u32,
    held: map<u32, Packet>,
    nacks: set<u32>,
    buf: Buffer,
    choking: bool,
    lastCheck: int)

  /** The packets without payload that a receiver sends. */
  datatype Control = Acknowledge | ChokeSignal | UnchokeSignal

  datatype Reply = Reply(rcv: Receiver, ctl: seq<Control>)

  /** How far a number is ahead of the next expected one. */
  function Ahead(r: Receiver, k: u32): u32 {
    SeqDiff(r.recvSeq, k)
  }

  /** What every handler keeps: a buffered packet sits under its own number, strictly ahead
      and by less than 2^31; a NACKed number is not buffered and is 0 to 254 ahead. */
  ghost predicate Valid(r: Receiver) {
    Ready(r) && r.recvSeq !in r.held
  }

  /** The same while the next expected packet may still sit in the buffer. */
  ghost predicate Ready(r: Receiver) {
    && r.buf.size > 0
    && (forall k | k in r.held :: r.held[k].sequenceNum == k && Ahead(r, k) < HALF)
    && (forall k | k in r.nacks :: k !in r.held && Ahead(r, k) < MAX_NACKS)
  }

  // ----- handleDataLocked and its helpers -----

  /** Delivery of one payload at the expected number. */
  function Push(r: Receiver, payload: seq<byte>): Receiver {
    r.(buf := r.buf.Write(payload), recvSeq := Wrap(r.recvSeq + 1), nacks := r.nacks - {r.recvSeq})
  }

  function Pop(r: Receiver): Receiver
    requires r.recvSeq in r.held
  {
    Push(r, r.held[r.recvSeq].payload).(held := r.held - {r.recvSeq})
  }

  /** deliverBufferedPacketsLocked: the contiguous run of buffered packets is delivered. */
  function Drain(r: Receiver): Receiver
    decreases |r.held|
  {
    if r.recvSeq in r.held then
      PopShrinks(r);
      Drain(Pop(r))
    else r
  }

  /** The length of that run. */
  function RunLength(r: Receiver): nat
    decreases |r.held|
  {
    if r.recvSeq in r.held then
      PopShrinks(r);
      1 + RunLength(Pop(r))
    else 0
  }

  lemma PopShrinks(r: Receiver)
    requires r.recvSeq in r.held
    ensures |Pop(r).held| < |r.held|
  {
    assert r.held.Keys == Pop(r).held.Keys + {r.recvSeq};
    assert |r.held.Keys| == |Pop(r).held.Keys| + 1;
  }

  /** The first `gap` numbers from the expected one on. */
  function Span(first: u32, gap: nat): set<u32> {
    if gap == 0 then {} else Span(first, gap - 1) + {Wrap(first + (gap - 1))}
  }

  function Min(a: int, b: int): int {
    if a < b then a else b
  }

  /** The receiver after a data packet, before choke signals are considered. */
  function Accept(r: Receiver, p: Packet): Receiver {
    var k := p.sequenceNum;
    if k == r.recvSeq then Drain(Push(r, p.payload))
    else if SeqLess(k, r.recvSeq) then r
    else
      var held := r.held[k := p];
      r.(held := held,
         nacks := r.nacks - {k} + (Span(r.recvSeq, Min(Ahead(r, k), MAX_NACKS)) - held.Keys))
  }

  /** manageChokeStateLocked; the usage thresholds 0.8 and 0.3 as exact ratios. */
  function ManageChoke(r: Receiver): Reply {
    var used := |r.buf.log|;
    if used == r.lastCheck then Reply(r, [])
    else
      var r := r.(lastCheck := used);
      if 10 * used > 8 * r.buf.size && !r.choking then Reply(r.(choking := true), [ChokeSignal])
      else if 10 * used < 3 * r.buf.size && r.choking then Reply(r.(choking := false), [UnchokeSignal])
      else Reply(r, [])
  }

  /** handleDataLocked, with the control packets it sends. */
  function OnData(r: Receiver, p: Packet): Reply {
    if p.sequenceNum == r.recvSeq then
      var m := ManageChoke(Accept(r, p));
      Reply(m.rcv, m.ctl + (if !m.rcv.choking || m.rcv.nacks != {} then [Acknowledge] else []))
    else if SeqLess(p.sequenceNum, r.recvSeq) then Reply(r, [])
    else Reply(Accept(r, p), [Acknowledge])
  }

  // ----- Read -----

  /** The bytes that Read returns into a buffer of n bytes. */
  function ReadBytes(r: Receiver, n: nat): seq<byte> {
    r.buf.Bytes()[..Min(n, |r.buf.Bytes()|)]
  }

  function Consume(r: Receiver, n: nat): Receiver {
    r.(buf := Buffer(r.buf.Bytes()[Min(n, |r.buf.Bytes()|)..], r.buf.size))
  }

  /** consumeBufferDataLocked followed by handlePostReadActionsLocked. */
  function OnRead(r: Receiver, n: nat): Reply {
    var c := Drain(Consume(r, n));
    if c.choking && 10 * |c.buf.log| < 3 * c.buf.size
    then Reply(c.(choking := false), [UnchokeSignal])
    else Reply(c, [])
  }

  // ----- what the handlers keep -----

  lemma PushReady(r: Receiver, payload: seq<byte>)
    requires Valid(r)
    ensures Ready(Push(r, payload))
  {
    var q := Push(r, payload);
    forall k | k in q.held ensures Ahead(q, k) < HALF { Step(r.recvSeq, k); }
    forall k | k in q.nacks ensures Ahead(q, k) < MAX_NACKS { Step(r.recvSeq, k); }
  }

  /** Moving on by one brings every other number one nearer. */
  lemma Step(first: u32, k: u32)
    ensures SeqDiff(first, k) == 0 <==> k == first
    ensures SeqDiff(Wrap(first + 1), k) == if k == first then MODULUS - 1 else SeqDiff(first, k) - 1
  {
  }

  lemma PopReady(r: Receiver)
    requires Ready(r) && r.recvSeq in r.held
    ensures Ready(Pop(r))
  {
    var q := Pop(r);
    forall k | k in q.held ensures Ahead(q, k) < HALF { Step(r.recvSeq, k); }
    forall k | k in q.nacks ensures Ahead(q, k) < MAX_NACKS { Step(r.recvSeq, k); }
  }

  lemma {:induction false} DrainValid(r: Receiver)
    requires Ready(r)
    ensures Valid(Drain(r))
    ensures var d := Drain(r);
            d.choking == r.choking && d.lastCheck == r.lastCheck && d.buf.size == r.buf.size && r.buf.log <= d.buf.log
    decreases |r.held|
  {
    if r.recvSeq in r.held {
      PopShrinks(r);
      PopReady(r);
      DrainValid(Pop(r));
    }
  }

  lemma AcceptValid(r: Receiver, p: Packet)
    requires Valid(r)
    ensures Valid(Accept(r, p))
    ensures var d := Accept(r, p);
            d.choking == r.choking && d.lastCheck == r.lastCheck && d.buf.size == r.buf.size && r.buf.log <= d.buf.log
  {
    if p.sequenceNum == r.recvSeq {
      PushReady(r, p.payload);
      DrainValid(Push(r, p.payload));
    } else if !SeqLess(p.sequenceNum, r.recvSeq) {
      SpanAhead(r.recvSeq, Min(Ahead(r, p.sequenceNum), MAX_NACKS));
    }
  }

  /** No data packet whatever, in any state reached so far, breaks the receiver's invariant. */
  lemma OnDataValid(r: Receiver, p: Packet)
    requires Valid(r)
    ensures Valid(OnData(r, p).rcv)
  {
    AcceptValid(r, p);
    hide Accept;
  }

  lemma OnReadValid(r: Receiver, n: nat)
    requires Valid(r)
    ensures Valid(OnRead(r, n).rcv)
    ensures Drain(Consume(r, n)) == Consume(r, n)
  {
  }

  lemma ConsumeValid(r: Receiver, n: nat)
    requires Valid(r)
    ensures Valid(Consume(r, n))
  {
  }

  lemma OnDataNext(r: Receiver, p: Packet)
    requires p.sequenceNum == r.recvSeq
    ensures var m := ManageChoke(Accept(r, p));
            OnData(r, p) == Reply(m.rcv, m.ctl + (if !m.rcv.choking || m.rcv.nacks != {} then [Acknowledge] else []))
  {
  }

  // ----- the NACK list -----

  lemma {:induction false} SpanAhead(first: u32, gap: nat)
    requires gap <= MODULUS
    ensures forall k: u32 :: k in Span(first, gap) <==> SeqDiff(first, k) < gap
    ensures |Span(first, gap)| == gap
  {
    if gap > 0 {
      SpanAhead(first, gap - 1);
      var last := Wrap(first + (gap - 1));
      AheadOf(first, gap - 1);
      forall k: u32 ensures SeqDiff(first, k) == gap - 1 <==> k == last {
        AheadOf(first, SeqDiff(first, k));
        Behind(first, k);
      }
      hide SeqDiff, Wrap;
    }
  }

  lemma SpanStep(first: u32, gap: nat)
    ensures Span(first, 0) == {}
    ensures Span(first, gap + 1) == Span(first, gap) + {Wrap(first + gap)}
  {
  }

  lemma AheadOf(first: u32, d: u32)
    ensures SeqDiff(first, Wrap(first + d)) == d
  {
  }

  lemma Behind(first: u32, k: u32)
    ensures Wrap(first + SeqDiff(first, k)) == k
  {
  }

  lemma SubsetSize<T>(a: set<T>, b: set<T>)
    requires a <= b
    ensures |a| <= |b|
    ensures a != b ==> |a| < |b|
  {
    assert b == a + (b - a);
    assert |b| == |a| + |b - a|;
  }

  /** At most 255 numbers are NACKed, so every acknowledgement can carry the whole list;
      and when the list is full, every number in its window is already on it. */
  lemma NackListBounded(r: Receiver)
    requires Valid(r)
    ensures |r.nacks| <= MAX_NACKS
    ensures |r.nacks| == MAX_NACKS ==> forall k: u32 :: Ahead(r, k) < MAX_NACKS ==> k in r.nacks
  {
    SpanAhead(r.recvSeq, MAX_NACKS);
    SubsetSize(r.nacks, Span(r.recvSeq, MAX_NACKS));
  }

  /** The NACK list extended by what is missing among the next `gap` numbers. */
  function WithSpan(r: Receiver, gap: nat): set<u32> {
    r.nacks + (Span(r.recvSeq, gap) - r.held.Keys)
  }

  lemma WithSpanStep(r: Receiver, gap: nat)
    ensures var k := Wrap(r.recvSeq + gap);
            WithSpan(r, gap + 1) == if k in r.held then WithSpan(r, gap) else WithSpan(r, gap) + {k}
  {
  }

  /** A list that reaches the capacity is already complete for every larger gap. */
  lemma FullListHasAll(r: Receiver, i: nat, gap: nat)
    requires Valid(r) && i <= gap <= MAX_NACKS
    requires |WithSpan(r, i)| >= MAX_NACKS
    ensures WithSpan(r, i) == WithSpan(r, gap)
  {
    hide *;
    Capacity();
    WithSpanIs(r, i);
    WithSpanIs(r, gap);
    SpanAhead(r.recvSeq, MAX_NACKS);
    SubsetSize(WithSpan(r, i), Span(r.recvSeq, MAX_NACKS));
    SubsetSize(WithSpan(r, gap), Span(r.recvSeq, MAX_NACKS));
  }

  lemma Capacity()
    ensures MAX_NACKS == 255 && MAX_NACKS < MODULUS
  {
  }

  lemma WithSpanIs(r: Receiver, gap: nat)
    requires Valid(r) && gap <= MAX_NACKS
    ensures forall k: u32 :: k in WithSpan(r, gap) <==> k in r.nacks || (SeqDiff(r.recvSeq, k) < gap && k !in r.held)
    ensures WithSpan(r, gap) <= Span(r.recvSeq, MAX_NACKS)
  {
    SpanAhead(r.recvSeq, gap);
    SpanAhead(r.recvSeq, MAX_NACKS);
    hide SeqDiff, Span;
  }

  /** A number that is missing below some buffered one. */
  ghost predicate IsGap(r: Receiver, k: u32) {
    k !in r.held && exists h: u32 :: h in r.held && Ahead(r, k) < Ahead(r, h)
  }

  /** The list names precisely the missing numbers below the highest buffered one. */
  ghost predicate Exact(r: Receiver) {
    forall k: u32 :: k in r.nacks <==> IsGap(r, k)
  }

  lemma PushExact(r: Receiver, payload: seq<byte>)
    requires Valid(r) && Exact(r)
    ensures Exact(Push(r, payload))
  {
    Advance(r, Push(r, payload));
  }

  /** Dropping the expected number, buffered or not, keeps the list exact. */
  lemma Advance(r: Receiver, q: Receiver)
    requires Ready(r) && Exact(r)
    requires q.recvSeq == Wrap(r.recvSeq + 1) && q.nacks == r.nacks - {r.recvSeq}
    requires q.held == r.held - {r.recvSeq}
    ensures Exact(q)
  {
    forall k: u32 ensures k in q.nacks <==> IsGap(q, k) {
      AdvanceOne(r, q, k);
    }
  }

  lemma AdvanceOne(r: Receiver, q: Receiver, k: u32)
    requires Exact(r)
    requires q.recvSeq == Wrap(r.recvSeq + 1) && q.nacks == r.nacks - {r.recvSeq}
    requires q.held == r.held - {r.recvSeq}
    ensures k in q.nacks <==> IsGap(q, k)
  {
    Step(r.recvSeq, k);
    forall h: u32 ensures Ahead(q, h) == if h == r.recvSeq then MODULUS - 1 else Ahead(r, h) - 1 {
      Step(r.recvSeq, h);
    }
    hide SeqDiff, Wrap, Ahead;
    if IsGap(r, k) && k != r.recvSeq {
      var h: u32 :| h in r.held && Ahead(r, k) < Ahead(r, h);
      assert h in q.held && Ahead(q, k) < Ahead(q, h);
    }
    if IsGap(q, k) {
      var h: u32 :| h in q.held && Ahead(q, k) < Ahead(q, h);
      assert h in r.held && Ahead(r, k) < Ahead(r, h);
    }
  }

  lemma {:induction false} DrainExact(r: Receiver)
    requires Ready(r) && Exact(r)
    ensures Exact(Drain(r))
    decreases |r.held|
  {
    if r.recvSeq in r.held {
      PopShrinks(r);
      PopReady(r);
      Advance(r, Pop(r));
      DrainExact(Pop(r));
    }
  }

  /** While accepted packets lie within 255 of the expected number, the list stays exact:
      neither the iteration bound nor the capacity break ever drops a missing number. */
  lemma AcceptExact(r: Receiver, p: Packet)
    requires Valid(r) && Exact(r)
    requires SeqGreater(p.sequenceNum, r.recvSeq) ==> Ahead(r, p.sequenceNum) <= MAX_NACKS
    ensures Exact(Accept(r, p))
  {
    if p.sequenceNum == r.recvSeq {
      PushReady(r, p.payload);
      PushExact(r, p.payload);
      DrainExact(Push(r, p.payload));
    } else if !SeqLess(p.sequenceNum, r.recvSeq) {
      BufferExact(r, p);
    }
  }

  lemma BufferExact(r: Receiver, p: Packet)
    requires Valid(r) && Exact(r)
    requires p.sequenceNum != r.recvSeq && !SeqLess(p.sequenceNum, r.recvSeq)
    requires Ahead(r, p.sequenceNum) <= MAX_NACKS
    ensures Exact(Accept(r, p))
  {
    var n := p.sequenceNum;
    var q := Accept(r, p);
    SpanAhead(r.recvSeq, Ahead(r, n));
    assert q.held.Keys == r.held.Keys + {n};
    forall k: u32 ensures k in q.nacks <==> IsGap(q, k) {
      if k in q.nacks && k in r.nacks {
        var h: u32 :| h in r.held && Ahead(r, k) < Ahead(r, h);
        assert h in q.held;
      } else if k in q.nacks {
        assert n in q.held && Ahead(q, k) < Ahead(q, n);
      }
      if IsGap(q, k) {
        var h: u32 :| h in q.held && Ahead(q, k) < Ahead(q, h);
        assert h in r.held || h == n;
      }
    }
  }

  // ----- the byte stream -----

  function Concat(chunks: seq<seq<byte>>): seq<byte> {
    if chunks == [] then [] else chunks[0] + Concat(chunks[1..])
  }

  lemma {:induction false} ConcatAppend(a: seq<seq<byte>>, b: seq<seq<byte>>)
    ensures Concat(a + b) == Concat(a) + Concat(b)
  {
    if a == [] {
      assert a + b == b;
    } else {
      ConcatAppend(a[1..], b);
      assert (a + b)[1..] == a[1..] + b;
      hide Concat;
      Regroup(a[0], Concat(a[1..]), Concat(b));
    }
  }

  /** The receiver expects chunk number `rcvd` of `stream`, whose chunk 0 has wire number
      `base`, and buffers only genuine later chunks. */
  ghost predicate Tracks(r: Receiver, base: int, rcvd: nat, stream: seq<seq<byte>>) {
    && rcvd <= |stream|
    && r.recvSeq == Wrap(base + rcvd)
    && forall k | k in r.held :: IsChunk(r.held[k].payload, rcvd + Ahead(r, k), stream)
  }

  ghost predicate IsChunk(payload: seq<byte>, i: nat, stream: seq<seq<byte>>) {
    i < |stream| && payload == stream[i]
  }

  lemma {:induction false} DrainTracks(r: Receiver, base: int, rcvd: nat, stream: seq<seq<byte>>)
    requires Ready(r) && Tracks(r, base, rcvd, stream)
    ensures rcvd + RunLength(r) <= |stream|
    ensures Tracks(Drain(r), base, rcvd + RunLength(r), stream)
    ensures Drain(r).buf.log == r.buf.log + Concat(stream[rcvd..rcvd + RunLength(r)])
    decreases |r.held|
  {
    hide *;
    DrainStep(r);
    if r.recvSeq in r.held {
      PopShrinks(r);
      PopReady(r);
      PopTracks(r, base, rcvd, stream);
      DrainTracks(Pop(r), base, rcvd + 1, stream);
      ChunkThenRest(r.buf.log, stream, rcvd, rcvd + RunLength(r));
    } else {
      TracksBound(r, base, rcvd, stream);
      NothingMore(r.buf.log, stream, rcvd);
    }
  }

  lemma DrainStep(r: Receiver)
    ensures r.recvSeq in r.held ==> Drain(r) == Drain(Pop(r)) && RunLength(r) == 1 + RunLength(Pop(r))
    ensures r.recvSeq !in r.held ==> Drain(r) == r && RunLength(r) == 0
  {
  }

  lemma TracksBound(r: Receiver, base: int, rcvd: nat, stream: seq<seq<byte>>)
    requires Tracks(r, base, rcvd, stream)
    ensures rcvd <= |stream|
  {
  }

  lemma NothingMore(log: seq<byte>, stream: seq<seq<byte>>, i: nat)
    requires i <= |stream|
    ensures log == log + Concat(stream[i..i])
  {
    assert stream[i..i] == [];
  }

  lemma ChunkThenRest(log: seq<byte>, stream: seq<seq<byte>>, i: nat, j: nat)
    requires i < j <= |stream|
    ensures (log + stream[i]) + Concat(stream[i + 1..j]) == log + Concat(stream[i..j])
  {
    assert stream[i..j][1..] == stream[i + 1..j];
    Regroup(log, stream[i], Concat(stream[i + 1..j]));
  }

  lemma Regroup(a: seq<byte>, b: seq<byte>, c: seq<byte>)
    ensures (a + b) + c == a + (b + c)
  {
  }

  lemma PopTracks(r: Receiver, base: int, rcvd: nat, stream: seq<seq<byte>>)
    requires Ready(r) && Tracks(r, base, rcvd, stream) && r.recvSeq in r.held
    ensures rcvd < |stream| && Tracks(Pop(r), base, rcvd + 1, stream)
    ensures Pop(r).buf.log == r.buf.log + stream[rcvd]
  {
    var q := Pop(r);
    Step(r.recvSeq, r.recvSeq);
    WrapAdd(base + rcvd, 1);
    forall k | k in q.held ensures IsChunk(q.held[k].payload, rcvd + 1 + Ahead(q, k), stream) {
      Step(r.recvSeq, k);
      assert IsChunk(r.held[k].payload, rcvd + Ahead(r, k), stream);
    }
  }

  /** How many chunks one packet makes deliverable. */
  function Delivered(r: Receiver, p: Packet): nat {
    if p.sequenceNum == r.recvSeq then 1 + RunLength(Push(r, p.payload)) else 0
  }

  /** The bytes of the contiguous run of buffered packets. */
  function RunBytes(r: Receiver): seq<byte>
    decreases |r.held|
  {
    if r.recvSeq in r.held then
      PopShrinks(r);
      r.held[r.recvSeq].payload + RunBytes(Pop(r))
    else []
  }

  /** The bytes that one packet makes deliverable. */
  function Arriving(r: Receiver, p: Packet): seq<byte> {
    if p.sequenceNum == r.recvSeq then p.payload + RunBytes(Push(r, p.payload)) else []
  }

  lemma {:induction false} DrainBytes(r: Receiver)
    ensures Drain(r).buf == r.buf.Write(RunBytes(r))
    decreases |r.held|
  {
    if r.recvSeq in r.held {
      PopShrinks(r);
      DrainBytes(Pop(r));
      Regroup(r.buf.log, r.held[r.recvSeq].payload, RunBytes(Pop(r)));
    } else {
      assert r.buf.log + [] == r.buf.log;
    }
  }

  /** They are what the buffer grows by. */
  lemma AcceptBytes(r: Receiver, p: Packet)
    ensures Accept(r, p).buf == r.buf.Write(Arriving(r, p))
  {
    if p.sequenceNum == r.recvSeq {
      DrainBytes(Push(r, p.payload));
      hide Drain, RunBytes;
      Regroup(r.buf.log, p.payload, RunBytes(Push(r, p.payload)));
    } else {
      assert r.buf.log + [] == r.buf.log;
      hide Span, SeqLess;
    }
  }

  /** One arrival, at any distance below 2^31 in either direction: exactly the next
      `Delivered` chunks are appended, in order, and the rest is kept for later. */
  lemma AcceptTracks(r: Receiver, p: Packet, i: nat, base: int, rcvd: nat, stream: seq<seq<byte>>)
    requires Valid(r) && Tracks(r, base, rcvd, stream)
    requires p.sequenceNum == Wrap(base + i) && IsChunk(p.payload, i, stream) && -HALF < i - rcvd < HALF
    ensures rcvd + Delivered(r, p) <= |stream|
    ensures Tracks(Accept(r, p), base, rcvd + Delivered(r, p), stream)
    ensures Accept(r, p).buf.log == r.buf.log + Concat(stream[rcvd..rcvd + Delivered(r, p)])
    ensures Delivered(r, p) > 0 <==> i == rcvd
  {
    SerialIsExact(base + i, base + rcvd);
    if i == rcvd {
      assert p.sequenceNum == r.recvSeq;
      NextTracks(r, p, base, rcvd, stream);
    } else {
      assert p.sequenceNum != r.recvSeq;
      if i > rcvd {
        DiffIsExact(base + rcvd, base + i);
        BufferTracks(r, p, i, base, rcvd, stream);
      }
      assert stream[rcvd..rcvd] == [];
    }
  }

  lemma NextTracks(r: Receiver, p: Packet, base: int, rcvd: nat, stream: seq<seq<byte>>)
    requires Valid(r) && Tracks(r, base, rcvd, stream)
    requires p.sequenceNum == r.recvSeq && IsChunk(p.payload, rcvd, stream)
    ensures rcvd + Delivered(r, p) <= |stream|
    ensures Tracks(Accept(r, p), base, rcvd + Delivered(r, p), stream)
    ensures Accept(r, p).buf.log == r.buf.log + Concat(stream[rcvd..rcvd + Delivered(r, p)])
  {
    hide *;
    NextIs(r, p, rcvd, stream);
    TracksBound(r, base, rcvd, stream);
    PushReady(r, p.payload);
    PushTracks(r, p.payload, base, rcvd, stream);
    DrainTracks(Push(r, p.payload), base, rcvd + 1, stream);
    ChunkThenRest(r.buf.log, stream, rcvd, rcvd + Delivered(r, p));
  }

  lemma NextIs(r: Receiver, p: Packet, rcvd: nat, stream: seq<seq<byte>>)
    requires p.sequenceNum == r.recvSeq && IsChunk(p.payload, rcvd, stream)
    ensures rcvd < |stream|
    ensures Accept(r, p) == Drain(Push(r, p.payload)) && Delivered(r, p) == 1 + RunLength(Push(r, p.payload))
    ensures Push(r, p.payload).buf.log == r.buf.log + stream[rcvd]
  {
  }

  lemma PushTracks(r: Receiver, payload: seq<byte>, base: int, rcvd: nat, stream: seq<seq<byte>>)
    requires Valid(r) && Tracks(r, base, rcvd, stream) && IsChunk(payload, rcvd, stream)
    ensures Tracks(Push(r, payload), base, rcvd + 1, stream)
  {
    var q := Push(r, payload);
    WrapAdd(base + rcvd, 1);
    forall k | k in q.held ensures IsChunk(q.held[k].payload, rcvd + 1 + Ahead(q, k), stream) {
      Step(r.recvSeq, k);
      assert IsChunk(r.held[k].payload, rcvd + Ahead(r, k), stream);
    }
  }

  lemma BufferTracks(r: Receiver, p: Packet, i: nat, base: int, rcvd: nat, stream: seq<seq<byte>>)
    requires Valid(r) && Tracks(r, base, rcvd, stream)
    requires IsChunk(p.payload, i, stream) && i > rcvd && Ahead(r, p.sequenceNum) == i - rcvd
    requires p.sequenceNum != r.recvSeq && !SeqLess(p.sequenceNum, r.recvSeq)
    ensures Tracks(Accept(r, p), base, rcvd, stream)
    ensures Accept(r, p).buf == r.buf
  {
    var q := Accept(r, p);
    forall k | k in q.held ensures IsChunk(q.held[k].payload, rcvd + Ahead(q, k), stream) {
      if k != p.sequenceNum {
        assert IsChunk(r.held[k].payload, rcvd + Ahead(r, k), stream);
      }
    }
  }

  lemma ConcatSplit(log: seq<byte>, stream: seq<seq<byte>>, i: nat, j: nat, k: nat)
    requires i <= j <= k <= |stream|
    ensures (log + Concat(stream[i..j])) + Concat(stream[j..k]) == log + Concat(stream[i..k])
  {
    ConcatAppend(stream[i..j], stream[j..k]);
    assert stream[i..k] == stream[i..j] + stream[j..k];
    Regroup(log, Concat(stream[i..j]), Concat(stream[j..k]));
  }

  // ----- any arrival order -----

  datatype Arrival = Arrival(p: Packet, i: nat)

  function AcceptAll(r: Receiver, arrivals: seq<Arrival>): Receiver
    decreases |arrivals|
  {
    if arrivals == [] then r else AcceptAll(Accept(r, arrivals[0].p), arrivals[1..])
  }

  function DeliveredAll(r: Receiver, arrivals: seq<Arrival>): nat
    decreases |arrivals|
  {
    if arrivals == [] then 0
    else Delivered(r, arrivals[0].p) + DeliveredAll(Accept(r, arrivals[0].p), arrivals[1..])
  }

  /** Each arrival carries a chunk of the stream, less than 2^31 from what is expected then. */
  ghost predicate Genuine(r: Receiver, arrivals: seq<Arrival>, base: int, rcvd: nat, stream: seq<seq<byte>>)
    decreases |arrivals|
  {
    arrivals == [] ||
    var a := arrivals[0];
    && a.p.sequenceNum == Wrap(base + a.i) && IsChunk(a.p.payload, a.i, stream) && -HALF < a.i - rcvd < HALF
    && Genuine(Accept(r, a.p), arrivals[1..], base, rcvd + Delivered(r, a.p), stream)
  }

  /** For any arrival order, with loss, duplicates and gaps: what was written to the buffer
      is the stream from the first chunk up to the expected one, each chunk once and in order. */
  lemma {:induction false} AnyArrivalOrder(r: Receiver, arrivals: seq<Arrival>, base: int, rcvd: nat, stream: seq<seq<byte>>)
    requires Valid(r) && Tracks(r, base, rcvd, stream) && Genuine(r, arrivals, base, rcvd, stream)
    ensures var q := AcceptAll(r, arrivals);
            var n := DeliveredAll(r, arrivals);
            && rcvd + n <= |stream|
            && Valid(q) && Tracks(q, base, rcvd + n, stream)
            && q.buf.log == r.buf.log + Concat(stream[rcvd..rcvd + n])
    decreases |arrivals|
  {
    hide *;
    TracksBound(r, base, rcvd, stream);
    RunStep(r, arrivals);
    if arrivals == [] {
      NothingMore(r.buf.log, stream, rcvd);
    } else {
      var a := arrivals[0];
      GenuineStep(r, arrivals, base, rcvd, stream);
      AcceptValid(r, a.p);
      AcceptTracks(r, a.p, a.i, base, rcvd, stream);
      var d := Delivered(r, a.p);
      AnyArrivalOrder(Accept(r, a.p), arrivals[1..], base, rcvd + d, stream);
      ConcatSplit(r.buf.log, stream, rcvd, rcvd + d, rcvd + DeliveredAll(r, arrivals));
    }
  }

  lemma RunStep(r: Receiver, arrivals: seq<Arrival>)
    ensures arrivals == [] ==> AcceptAll(r, arrivals) == r && DeliveredAll(r, arrivals) == 0
    ensures arrivals != [] ==>
              var q := Accept(r, arrivals[0].p);
              && AcceptAll(r, arrivals) == AcceptAll(q, arrivals[1..])
              && DeliveredAll(r, arrivals) == Delivered(r, arrivals[0].p) + DeliveredAll(q, arrivals[1..])
  {
  }

  lemma GenuineStep(r: Receiver, arrivals: seq<Arrival>, base: int, rcvd: nat, stream: seq<seq<byte>>)
    requires Genuine(r, arrivals, base, rcvd, stream) && arrivals != []
    ensures var a := arrivals[0];
            && a.p.sequenceNum == Wrap(base + a.i) && IsChunk(a.p.payload, a.i, stream) && -HALF < a.i - rcvd < HALF
            && Genuine(Accept(r, a.p), arrivals[1..], base, rcvd + Delivered(r, a.p), stream)
  {
  }
}
