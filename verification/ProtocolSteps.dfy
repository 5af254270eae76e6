/** Every step of either endpoint keeps the protocol's invariant. */
module ProtocolSteps {
  import opened Serial
  import opened Packets
  import opened Congestion
  import Timing
  import opened Connections
  import opened Protocol
  import Sending
  import Receiving

  // ----- the packets in flight -----

  lemma FlightIs(sent: map<u32, Sending.SentPacket>, base: int, cleaned: int, log: seq<Msg>)
    ensures InFlight(sent, base, cleaned, log) <==>
              && 0 <= cleaned <= |log| <= cleaned + MAX_WINDOW
              && sent.Keys == Receiving.Span(Wrap(base + cleaned), |log| - cleaned)
              && forall k | k in sent :: Holds(sent[k].data, cleaned + SeqDiff(Wrap(base + cleaned), k), log)
  {
    hide Wrap, SeqDiff, Holds, Receiving.Span;
  }

  lemma FlightSize(sent: map<u32, Sending.SentPacket>, base: int, cleaned: int, log: seq<Msg>)
    requires InFlight(sent, base, cleaned, log)
    ensures |log| - |sent| == cleaned
  {
    hide *;
    FlightIs(sent, base, cleaned, log);
    Words();
    Receiving.SpanAhead(Wrap(base + cleaned), |log| - cleaned);
    assert |sent| == |sent.Keys|;
  }

  /** Numbers and indices of tracked packets correspond. */
  lemma FlightIndex(sent: map<u32, Sending.SentPacket>, base: int, cleaned: int, log: seq<Msg>, k: u32)
    requires InFlight(sent, base, cleaned, log)
    ensures k in sent <==> SeqDiff(Wrap(base + cleaned), k) < |log| - cleaned
    ensures k == Wrap(base + (cleaned + SeqDiff(Wrap(base + cleaned), k)))
  {
    hide *;
    FlightIs(sent, base, cleaned, log);
    Words();
    Receiving.SpanAhead(Wrap(base + cleaned), |log| - cleaned);
    Receiving.Behind(Wrap(base + cleaned), k);
    WrapAdd(base + cleaned, SeqDiff(Wrap(base + cleaned), k));
    assert base + cleaned + SeqDiff(Wrap(base + cleaned), k) == base + (cleaned + SeqDiff(Wrap(base + cleaned), k));
    assert k in sent <==> k in sent.Keys;
  }

  lemma TrackFlight(sent: map<u32, Sending.SentPacket>, base: int, cleaned: int, log: seq<Msg>, m: Msg, now: int)
    requires InFlight(sent, base, cleaned, log) && |log| < cleaned + MAX_WINDOW
    ensures InFlight(sent[Wrap(base + |log|) := Sending.SentPacket(m.p, now, 0)], base, cleaned, log + [m])
  {
    hide *;
    FlightIs(sent, base, cleaned, log);
    Words();
    var first := Wrap(base + cleaned);
    var n := |log| - cleaned;
    WrapAdd(base + cleaned, n);
    assert base + cleaned + n == base + |log|;
    Receiving.SpanStep(first, n);
    Receiving.AheadOf(first, n);
    TrackOne(sent, first, Wrap(base + |log|), cleaned, log, m, now);
    FlightIs(sent[Wrap(base + |log|) := Sending.SentPacket(m.p, now, 0)], base, cleaned, log + [m]);
  }

  lemma TrackOne(sent: map<u32, Sending.SentPacket>, first: u32, last: u32, cleaned: nat, log: seq<Msg>, m: Msg, now: int)
    requires cleaned <= |log| && SeqDiff(first, last) == |log| - cleaned
    requires forall k | k in sent :: Holds(sent[k].data, cleaned + SeqDiff(first, k), log)
    ensures var sent' := sent[last := Sending.SentPacket(m.p, now, 0)];
            && sent'.Keys == sent.Keys + {last}
            && forall k | k in sent' :: Holds(sent'[k].data, cleaned + SeqDiff(first, k), log + [m])
  {
    hide SeqDiff;
    var sent' := sent[last := Sending.SentPacket(m.p, now, 0)];
    forall k | k in sent' ensures Holds(sent'[k].data, cleaned + SeqDiff(first, k), log + [m]) {
      if k != last {
        assert Holds(sent[k].data, cleaned + SeqDiff(first, k), log);
      }
    }
  }

  /** A new cumulative acknowledgement removes exactly the chunks it covers. */
  lemma CleanFlight(sent: map<u32, Sending.SentPacket>, base: int, cleaned: int, log: seq<Msg>, ack: int)
    requires InFlight(sent, base, cleaned, log) && cleaned <= ack <= |log|
    ensures InFlight(Sending.Unacked(sent, Wrap(base + ack - 1)), base, ack, log)
  {
    hide *;
    var left := Sending.Unacked(sent, Wrap(base + ack - 1));
    FlightIs(sent, base, cleaned, log);
    Words();
    Receiving.SpanAhead(Wrap(base + ack), |log| - ack);
    forall k: u32
      ensures k in left <==> SeqDiff(Wrap(base + ack), k) < |log| - ack
      ensures k in left ==> cleaned + SeqDiff(Wrap(base + cleaned), k) == ack + SeqDiff(Wrap(base + ack), k)
    {
      CleanOne(sent, base, cleaned, log, ack, k);
    }
    forall k | k in left ensures Holds(left[k].data, ack + SeqDiff(Wrap(base + ack), k), log) {
      UnackedIs(sent, Wrap(base + ack - 1), k);
      assert Holds(sent[k].data, cleaned + SeqDiff(Wrap(base + cleaned), k), log);
    }
    FlightIs(left, base, ack, log);
  }

  lemma CleanOne(sent: map<u32, Sending.SentPacket>, base: int, cleaned: int, log: seq<Msg>, ack: int, k: u32)
    requires InFlight(sent, base, cleaned, log) && cleaned <= ack <= |log|
    ensures var left := Sending.Unacked(sent, Wrap(base + ack - 1));
            && (k in left <==> SeqDiff(Wrap(base + ack), k) < |log| - ack)
            && (k in left ==> cleaned + SeqDiff(Wrap(base + cleaned), k) == ack + SeqDiff(Wrap(base + ack), k))
  {
    hide *;
    var i := cleaned + SeqDiff(Wrap(base + cleaned), k);
    var j := ack + SeqDiff(Wrap(base + ack), k);
    FlightIs(sent, base, cleaned, log);
    FlightIndex(sent, base, cleaned, log, k);
    UnackedIs(sent, Wrap(base + ack - 1), k);
    Words();
    Receiving.Behind(Wrap(base + ack), k);
    WrapAdd(base + ack, SeqDiff(Wrap(base + ack), k));
    if i < |log| {
      SerialIsExact(base + i, base + ack - 1);
      if i >= ack { DiffIsExact(base + ack, base + i); }
    }
    if j < |log| { DiffIsExact(base + cleaned, base + j); }
  }

  lemma UnackedIs(sent: map<u32, Sending.SentPacket>, ack: u32, k: u32)
    ensures k in Sending.Unacked(sent, ack) <==> k in sent && !SeqLeq(k, ack)
    ensures k in Sending.Unacked(sent, ack) ==> Sending.Unacked(sent, ack)[k] == sent[k]
  {
    hide SeqLeq;
  }

  lemma ResendFlight(sent: map<u32, Sending.SentPacket>, sent': map<u32, Sending.SentPacket>, base: int, cleaned: int, log: seq<Msg>)
    requires InFlight(sent, base, cleaned, log)
    requires sent'.Keys == sent.Keys && forall k | k in sent :: sent'[k].data == sent[k].data
    ensures InFlight(sent', base, cleaned, log)
  {
    hide Holds, Wrap, SeqDiff, Receiving.Span;
  }

  lemma Words()
    ensures MODULUS == 0x1_0000_0000 && HALF == 0x8000_0000 && MAX_WINDOW == 128 && Receiving.MAX_NACKS == 255
  {
  }

  // ----- the sending half -----

  lemma SendsIs(s: Sending.Sender, base: int, log: seq<Msg>, acked: nat)
    ensures Sends(s, base, log, acked) <==>
              && s.sendSeq == Wrap(base + |log|)
              && InFlight(s.sent, base, |log| - |s.sent|, log)
              && |log| - |s.sent| <= acked <= |log|
              && InBounds(s.window)
  {
    hide InFlight, Wrap, InBounds;
  }

  lemma TrackSends(s: Sending.Sender, base: int, log: seq<Msg>, acked: nat, m: Msg, now: int)
    requires Sends(s, base, log, acked) && |s.sent| < s.window.cwnd
    ensures Sends(Sending.Track(s, m.p, now), base, log + [m], acked)
    ensures |log + [m]| - |Sending.Track(s, m.p, now).sent| == |log| - |s.sent|
  {
    hide *;
    SendsIs(s, base, log, acked);
    var t := Sending.Track(s, m.p, now);
    var cleaned := |log| - |s.sent|;
    TrackIs(s, m.p, now);
    WrapAdd(base + |log|, 1);
    assert base + |log| + 1 == base + |log + [m]|;
    BoundsMean(s.window);
    TrackFlight(s.sent, base, cleaned, log, m, now);
    FlightSize(t.sent, base, cleaned, log + [m]);
    SendsIs(t, base, log + [m], acked);
  }

  lemma TrackIs(s: Sending.Sender, p: Packet, now: int)
    ensures Sending.Track(s, p, now)
            == s.(sent := s.sent[s.sendSeq := Sending.SentPacket(p, now, 0)], sendSeq := Wrap(s.sendSeq + 1))
  {
  }

  lemma BoundsMean(w: Window)
    requires InBounds(w)
    ensures w.cwnd <= MAX_WINDOW
    ensures InBounds(Grow(w)) && InBounds(Reduce(w))
  {
  }

  /** Nothing but times, counts, window and timer changed. */
  lemma SameSends(s: Sending.Sender, t: Sending.Sender, base: int, log: seq<Msg>, acked: nat)
    requires Sends(s, base, log, acked)
    requires t.sendSeq == s.sendSeq && InBounds(t.window)
    requires t.sent.Keys == s.sent.Keys && forall k | k in s.sent :: t.sent[k].data == s.sent[k].data
    ensures Sends(t, base, log, acked) && |t.sent| == |s.sent|
  {
    hide *;
    SendsIs(s, base, log, acked);
    assert |t.sent| == |t.sent.Keys| == |s.sent|;
    ResendFlight(s.sent, t.sent, base, |log| - |s.sent|, log);
    SendsIs(t, base, log, acked);
  }

  /** A cumulative acknowledgement from anywhere less than 2^31 back is judged as the
      unbounded counters judge it, and afterwards exactly the chunks below it are gone. */
  lemma AckSends(s: Sending.Sender, p: Packet, now: int, base: int, log: seq<Msg>, acked: nat, ack: nat)
    requires Sends(s, base, log, acked) && s.ackThrough == Wrap(base + acked - 1)
    requires p.ackThrough == Wrap(base + ack - 1) && ack <= |log| && acked < ack + HALF && !Has(p.flags, Flag.NoAck)
    ensures var t := Sending.OnAck(s, p, now).s;
            var now_acked := if ack > acked then ack else acked;
            && Sends(t, base, log, now_acked) && t.ackThrough == Wrap(base + now_acked - 1)
            && |log| - |t.sent| == (if ack > acked then ack else |log| - |s.sent|)
  {
    hide *;
    SendsIs(s, base, log, acked);
    FlightIs(s.sent, base, |log| - |s.sent|, log);
    Words();
    SerialIsExact(base + ack - 1, base + acked - 1);
    Sending.OnAckIs(s, p, now);
    var a := Sending.Advance(s, p.ackThrough, p.nacks, now);
    if ack > acked {
      AdvanceSends(s, p.ackThrough, p.nacks, now, base, log, acked, ack);
      NacksSend(a, p.nacks, now, base, log, ack);
    } else {
      NacksSend(s, p.nacks, now, base, log, acked);
    }
  }

  lemma AdvanceSends(s: Sending.Sender, ackThrough: u32, nacks: seq<u32>, now: int, base: int, log: seq<Msg>, acked: nat, ack: nat)
    requires Sends(s, base, log, acked)
    requires ackThrough == Wrap(base + ack - 1) && acked < ack <= |log|
    ensures var a := Sending.Advance(s, ackThrough, nacks, now);
            Sends(a, base, log, ack) && a.ackThrough == ackThrough && |log| - |a.sent| == ack
  {
    hide *;
    SendsIs(s, base, log, acked);
    AdvanceIs(s, ackThrough, nacks, now);
    var a := Sending.Advance(s, ackThrough, nacks, now);
    BoundsMean(s.window);
    CleanFlight(s.sent, base, |log| - |s.sent|, log, ack);
    FlightSize(a.sent, base, ack, log);
    SendsIs(a, base, log, ack);
  }

  lemma AdvanceIs(s: Sending.Sender, ack: u32, nacks: seq<u32>, now: int)
    ensures var a := Sending.Advance(s, ack, nacks, now);
            && a.sendSeq == s.sendSeq && a.ackThrough == ack && a.sent == Sending.Unacked(s.sent, ack)
            && a.window == Grow(s.window)
  {
    hide Sending.Unacked, Sending.KeptCounts, Grow, Timing.Measured;
  }

  lemma NacksSend(s: Sending.Sender, nacks: seq<u32>, now: int, base: int, log: seq<Msg>, acked: nat)
    requires Sends(s, base, log, acked)
    ensures var t := Sending.OnNacks(Sending.Batch(s, false, []), nacks, now).s;
            Sends(t, base, log, acked) && t.ackThrough == s.ackThrough && |t.sent| == |s.sent|
  {
    hide *;
    SendsIs(s, base, log, acked);
    Sending.BatchEffects(s, nacks, now);
    BoundsMean(s.window);
    SameSends(s, Sending.OnNacks(Sending.Batch(s, false, []), nacks, now).s, base, log, acked);
  }

  // ----- the receiving half -----

  lemma ReceivesIs(r: Receiving.Receiver, base: int, rcvd: nat, log: seq<Msg>)
    ensures Receives(r, base, rcvd, log) <==>
              Receiving.Valid(r) && Receiving.Exact(r) && Receiving.Tracks(r, base, rcvd, Payloads(log))
    ensures Receives(r, base, rcvd, log) ==> rcvd <= |log| && r.recvSeq == Wrap(base + rcvd)
  {
    hide Receiving.Valid, Receiving.Exact, Payloads, Wrap;
  }

  /** Neither the choke bookkeeping nor the bytes are part of the invariant. */
  lemma SameReceives(r: Receiving.Receiver, q: Receiving.Receiver, base: int, rcvd: nat, log: seq<Msg>)
    requires Receives(r, base, rcvd, log)
    requires q.recvSeq == r.recvSeq && q.held == r.held && q.nacks == r.nacks && q.buf.size == r.buf.size
    ensures Receives(q, base, rcvd, log)
  {
    assert forall k: u32 :: Receiving.IsGap(q, k) == Receiving.IsGap(r, k);
    hide SeqDiff, Payloads;
  }

  lemma OnDataIs(r: Receiving.Receiver, p: Packet)
    ensures var q := Receiving.OnData(r, p).rcv;
            q == Receiving.Accept(r, p).(choking := q.choking, lastCheck := q.lastCheck)
    ensures p.sequenceNum != r.recvSeq ==> Receiving.Delivered(r, p) == 0
  {
  }

  /** The data packet with index i, in any epoch: the code's number comparisons place it
      relative to `rcvd` exactly as the indices do. */
  lemma DataReceives(r: Receiving.Receiver, p: Packet, i: nat, base: int, rcvd: nat, log: seq<Msg>)
    requires Receives(r, base, rcvd, log)
    requires i < |log| && p.sequenceNum == Wrap(base + i) && p.payload == log[i].p.payload
    requires |log| <= rcvd + MAX_WINDOW && rcvd < i + HALF
    ensures var q := Receiving.OnData(r, p).rcv;
            var d := Receiving.Delivered(r, p);
            && rcvd + d <= |log| && Receives(q, base, rcvd + d, log)
            && q.buf.log == r.buf.log + Receiving.Concat(Payloads(log)[rcvd..rcvd + d])
            && q.buf.size == r.buf.size
            && SeqDiff(r.recvSeq, q.recvSeq) == d
            && (d > 0 <==> i == rcvd)
  {
    hide *;
    Words();
    ReceivesIs(r, base, rcvd, log);
    var q := Receiving.OnData(r, p).rcv;
    var a := Receiving.Accept(r, p);
    var d := Receiving.Delivered(r, p);
    IsChunkOf(p, i, log);
    Receiving.AcceptValid(r, p);
    Receiving.AcceptTracks(r, p, i, base, rcvd, Payloads(log));
    DataIsNear(r, p, i, base, rcvd, log);
    Receiving.AcceptExact(r, p);
    ReceivesIs(a, base, rcvd + d, log);
    OnDataIs(r, p);
    SameReceives(a, q, base, rcvd + d, log);
    ReceivesIs(q, base, rcvd + d, log);
    DiffIsExact(base + rcvd, base + rcvd + d);
    assert base + rcvd + d == base + (rcvd + d);
  }

  lemma IsChunkOf(p: Packet, i: nat, log: seq<Msg>)
    requires i < |log| && p.payload == log[i].p.payload
    ensures Receiving.IsChunk(p.payload, i, Payloads(log))
  {
  }

  /** Nothing arrives from more than the window ahead, so no gap is ever too wide to list. */
  lemma DataIsNear(r: Receiving.Receiver, p: Packet, i: nat, base: int, rcvd: nat, log: seq<Msg>)
    requires r.recvSeq == Wrap(base + rcvd) && p.sequenceNum == Wrap(base + i)
    requires i < |log| <= rcvd + MAX_WINDOW && rcvd < i + HALF
    ensures SeqGreater(p.sequenceNum, r.recvSeq) ==> Receiving.Ahead(r, p.sequenceNum) <= Receiving.MAX_NACKS
  {
    SerialIsExact(base + i, base + rcvd);
    if i > rcvd {
      DiffIsExact(base + rcvd, base + i);
    }
    hide Wrap, SeqDiff, SeqGreater;
  }

  lemma IntactIs(buf: Receiving.Buffer, fed: seq<byte>, out: seq<byte>, overflowed: bool)
    ensures Intact(buf, fed, out, overflowed) <==>
              if overflowed then |out| + |buf.Bytes()| < |fed| else |buf.log| <= buf.size && fed == out + buf.log
  {
  }

  lemma FedIs(fed: seq<byte>, rcvd: nat, log: seq<Msg>)
    ensures Fed(fed, rcvd, log) <==> rcvd <= |log| && fed == Receiving.Concat(Payloads(log)[..rcvd])
  {
    hide Receiving.Concat, Payloads;
  }

  /** The next d chunks arrive in the buffer. */
  lemma DataFed(fed: seq<byte>, more: seq<byte>, rcvd: nat, d: nat, log: seq<Msg>)
    requires Fed(fed, rcvd, log) && rcvd + d <= |log| && more == Receiving.Concat(Payloads(log)[rcvd..rcvd + d])
    ensures Fed(fed + more, rcvd + d, log)
  {
    hide *;
    FedIs(fed, rcvd, log);
    FedIs(fed + more, rcvd + d, log);
    var s := Payloads(log);
    Receiving.ConcatAppend(s[..rcvd], s[rcvd..rcvd + d]);
    assert s[..rcvd + d] == s[..rcvd] + s[rcvd..rcvd + d];
  }

  lemma DataIntact(buf: Receiving.Buffer, buf': Receiving.Buffer, fed: seq<byte>, more: seq<byte>, out: seq<byte>, overflowed: bool)
    requires Intact(buf, fed, out, overflowed) && buf'.log == buf.log + more && buf'.size == buf.size
    ensures Intact(buf', fed + more, out, overflowed || |buf'.log| > buf'.size)
    ensures Appended(buf.log, buf'.log) == more
  {
    Receiving.Regroup(out, buf.log, more);
  }

  lemma NothingFed(buf: Receiving.Buffer, fed: seq<byte>, out: seq<byte>, overflowed: bool)
    requires Intact(buf, fed, out, overflowed)
    ensures fed + Appended(buf.log, buf.log) == fed
    ensures Intact(buf, fed, out, overflowed || |buf.log| > buf.size)
  {
    assert Appended(buf.log, buf.log) == [];
  }

  lemma ReadIntact(r: Receiving.Receiver, n: nat, fed: seq<byte>, out: seq<byte>, overflowed: bool)
    requires Intact(r.buf, fed, out, overflowed)
    ensures Intact(Receiving.Consume(r, n).buf, fed, out + Receiving.ReadBytes(r, n), overflowed)
  {
    if !overflowed {
      var taken := Receiving.ReadBytes(r, n);
      var kept := Receiving.Consume(r, n).buf.log;
      assert r.buf.log == taken + kept;
      Receiving.Regroup(out, taken, kept);
    }
  }

  lemma ReadReceives(r: Receiving.Receiver, n: nat, base: int, rcvd: nat, log: seq<Msg>)
    requires Receives(r, base, rcvd, log)
    ensures var q := Receiving.OnRead(r, n).rcv;
            Receives(q, base, rcvd, log) && q.buf == Receiving.Consume(r, n).buf
  {
    hide *;
    ReceivesIs(r, base, rcvd, log);
    Receiving.OnReadValid(r, n);
    OnReadIs(r, n);
    SameReceives(r, Receiving.OnRead(r, n).rcv, base, rcvd, log);
  }

  lemma OnReadIs(r: Receiving.Receiver, n: nat)
    ensures var d := Receiving.Drain(Receiving.Consume(r, n));
            var q := Receiving.OnRead(r, n).rcv;
            q == d.(choking := q.choking, lastCheck := q.lastCheck)
    ensures var c := Receiving.Consume(r, n);
            c.recvSeq == r.recvSeq && c.held == r.held && c.nacks == r.nacks && c.buf.size == r.buf.size
  {
  }

  /** More data sent by the peer changes nothing about what was received. */
  lemma LongerLog(r: Receiving.Receiver, fed: seq<byte>, base: int, rcvd: nat, log: seq<Msg>, log': seq<Msg>)
    requires Receives(r, base, rcvd, log) && Fed(fed, rcvd, log) && log <= log'
    ensures Receives(r, base, rcvd, log') && Fed(fed, rcvd, log')
  {
    hide *;
    ReceivesIs(r, base, rcvd, log);
    ReceivesIs(r, base, rcvd, log');
    FedIs(fed, rcvd, log);
    FedIs(fed, rcvd, log');
    LongerPayloads(log, log');
    LongerTracks(r, base, rcvd, Payloads(log), Payloads(log'));
    assert Payloads(log')[..rcvd] == Payloads(log)[..rcvd];
  }

  lemma LongerPayloads(log: seq<Msg>, log': seq<Msg>)
    requires log <= log'
    ensures Payloads(log) <= Payloads(log')
  {
  }

  lemma LongerTracks(r: Receiving.Receiver, base: int, rcvd: nat, s: seq<seq<byte>>, s': seq<seq<byte>>)
    requires Receiving.Tracks(r, base, rcvd, s) && s <= s'
    ensures Receiving.Tracks(r, base, rcvd, s')
  {
    forall k | k in r.held ensures Receiving.IsChunk(r.held[k].payload, rcvd + Receiving.Ahead(r, k), s') {
      assert Receiving.IsChunk(r.held[k].payload, rcvd + Receiving.Ahead(r, k), s);
    }
  }

  // ----- messages -----

  lemma TruthfulIs(m: Msg, rcvd: nat, base: int, length: nat)
    ensures Truthful(m, rcvd, base, length) <==>
              && m.ack <= rcvd
              && m.p.ackThrough == Wrap(base + m.ack - 1)
              && !Has(m.p.flags, Flag.Syn) && !Has(m.p.flags, Flag.NoAck)
              && forall k | k in m.p.nacks :: Requests(m, k, base, length)
  {
    hide Wrap, Has, Requests;
  }

  /** A statement once true stays true. */
  lemma StillTruthful(m: Msg, rcvd: nat, rcvd': nat, base: int, length: nat, length': nat)
    requires Truthful(m, rcvd, base, length) && rcvd <= rcvd' && length <= length'
    ensures Truthful(m, rcvd', base, length')
  {
    hide Wrap, SeqDiff, Has;
  }

  /** What an acknowledgement requests is ahead of what it acknowledges, and was sent. */
  lemma ControlTruthful(c: Conn, kind: Receiving.Control, m: Msg, base: int, rcvd: nat, log: seq<Msg>)
    requires Receives(c.rcv, base, rcvd, log) && IsControl(c, kind, m.p) && m.ack == rcvd
    ensures Truthful(m, rcvd, base, |log|) && m.p.sequenceNum == 0
  {
    hide *;
    ReceivesIs(c.rcv, base, rcvd, log);
    ControlIs(c, kind, m.p);
    AckOfRecvSeq(base, rcvd);
    forall k | k in m.p.nacks ensures Requests(m, k, base, |log|) {
      NackWasSent(c.rcv, base, rcvd, Payloads(log), k);
      RequestsIs(m, k, base, |log|);
    }
    TruthfulIs(m, rcvd, base, |log|);
  }

  lemma RequestsIs(m: Msg, k: u32, base: int, length: nat)
    ensures Requests(m, k, base, length) <==>
              SeqDiff(Wrap(base + m.ack), k) < Receiving.MAX_NACKS && m.ack + SeqDiff(Wrap(base + m.ack), k) < length
  {
    hide Wrap, SeqDiff;
  }

  lemma ControlIs(c: Conn, kind: Receiving.Control, p: Packet)
    requires IsControl(c, kind, p)
    ensures p.sequenceNum == 0 && p.ackThrough == Wrap(c.rcv.recvSeq - 1)
    ensures !Has(p.flags, Flag.Syn) && !Has(p.flags, Flag.NoAck)
    ensures forall k | k in p.nacks :: k in c.rcv.nacks
  {
    hide Wrap;
  }

  lemma AckOfRecvSeq(base: int, rcvd: int)
    ensures Wrap(Wrap(base + rcvd) - 1) == Wrap(base + rcvd - 1)
  {
    WrapAdd(base + rcvd, -1);
  }

  lemma NackWasSent(r: Receiving.Receiver, base: int, rcvd: nat, stream: seq<seq<byte>>, k: u32)
    requires Receiving.Valid(r) && Receiving.Exact(r) && Receiving.Tracks(r, base, rcvd, stream) && k in r.nacks
    ensures SeqDiff(r.recvSeq, k) < Receiving.MAX_NACKS && rcvd + SeqDiff(r.recvSeq, k) < |stream|
  {
    var h: u32 :| h in r.held && Receiving.Ahead(r, k) < Receiving.Ahead(r, h);
    assert Receiving.IsChunk(r.held[h].payload, rcvd + Receiving.Ahead(r, h), stream);
  }

  lemma DataTruthful(c: Conn, chunk: seq<byte>, i: nat, base: int, rcvd: nat, length: nat, ownBase: int)
    requires c.rcv.recvSeq == Wrap(base + rcvd) && c.snd.sendSeq == Wrap(ownBase + i) && |chunk| > 0
    ensures var m := Msg(DataPacket(c, chunk), i, rcvd);
            Truthful(m, rcvd, base, length) && IsData(m, i, ownBase)
  {
    AckOfRecvSeq(base, rcvd);
    hide Wrap, SeqDiff, Timing.ResendDelay;
  }

  // ----- steps -----

  lemma SoundIs(x: Side, y: Side)
    ensures Sound(x, y) <==>
              && Sends(x.c.snd, x.base, x.log, x.acked)
              && DataLog(x.log, x.base)
              && (x.c.state == Established || (x.c.state == SynRcvd && x.log == []))
              && (x.c.state == Established ==> x.c.snd.ackThrough == Wrap(x.base + x.acked - 1))
              && Receives(x.c.rcv, y.base, x.rcvd, y.log)
              && Fed(x.fed, x.rcvd, y.log)
              && Intact(x.c.rcv.buf, x.fed, x.out, x.overflowed)
              && x.acked <= y.rcvd
  {
    hide Sends, DataLog, Wrap, Receives, Fed, Intact;
  }

  lemma HalfIs(x: Side, y: Side)
    ensures Half(x, y) <==> Sound(x, y) && Messages(x, y)
    ensures Messages(x, y) ==> forall m | m in x.log || m in x.ctl :: Truthful(m, x.rcvd, y.base, |y.log|)
    ensures Messages(x, y) ==> forall m | m in x.ctl :: m.p.sequenceNum == 0
    ensures Inv(x, y) <==> Half(x, y) && Half(y, x)
  {
    hide Sound, Truthful;
  }

  lemma WriteSound(x: Side, y: Side, chunk: seq<byte>, now: int)
    requires Sound(x, y) && x.c.state == Established && WindowOpen(x.c) && |chunk| > 0
    ensures var x' := Acted(x, Write(chunk), now);
            && Sound(x', y)
            && x.log <= x'.log && x'.rcvd == x.rcvd
            && forall m | m in x'.log :: m in x.log || Truthful(m, x'.rcvd, y.base, |y.log|)
  {
    hide *;
    SoundIs(x, y);
    WriteIs(x, chunk, now);
    var m := Msg(DataPacket(x.c, chunk), |x.log|, x.rcvd);
    var x' := Acted(x, Write(chunk), now);
    SendsIs(x.c.snd, x.base, x.log, x.acked);
    ReceivesIs(x.c.rcv, y.base, x.rcvd, y.log);
    DataTruthful(x.c, chunk, |x.log|, y.base, x.rcvd, |y.log|, x.base);
    TrackSends(x.c.snd, x.base, x.log, x.acked, m, now);
    LongerDataLog(x.log, x.base, m);
    SoundIs(x', y);
  }

  lemma WriteIs(x: Side, chunk: seq<byte>, now: int)
    ensures var p := DataPacket(x.c, chunk);
            var snd := Sending.Track(x.c.snd, p, now);
            && Acted(x, Write(chunk), now) == x.(c := x.c.(snd := snd), log := x.log + [Msg(p, |x.log|, x.rcvd)])
            && snd.ackThrough == x.c.snd.ackThrough
    ensures WindowOpen(x.c) ==> |x.c.snd.sent| < x.c.snd.window.cwnd
  {
  }

  lemma LongerDataLog(log: seq<Msg>, base: int, m: Msg)
    requires DataLog(log, base) && IsData(m, |log|, base)
    ensures DataLog(log + [m], base)
  {
    hide IsData;
  }

  lemma TickSound(x: Side, y: Side, done: set<u32>, gaveUp: bool, now: int)
    requires Sound(x, y)
    ensures Sound(Acted(x, Tick(done, gaveUp), now), y)
  {
    hide *;
    SoundIs(x, y);
    SendsIs(x.c.snd, x.base, x.log, x.acked);
    TickIs(x, done, gaveUp, now);
    var x' := Acted(x, Tick(done, gaveUp), now);
    SameSends(x.c.snd, x'.c.snd, x.base, x.log, x.acked);
    SoundIs(x', y);
  }

  lemma TickIs(x: Side, done: set<u32>, gaveUp: bool, now: int)
    ensures var x' := Acted(x, Tick(done, gaveUp), now);
            var s := x.c.snd;
            var t := x'.c.snd;
            && x' == x.(c := x.c.(snd := t))
            && t.sendSeq == s.sendSeq && t.window == s.window && t.ackThrough == s.ackThrough
            && t.sent.Keys == s.sent.Keys && forall k | k in s.sent :: t.sent[k].data == s.sent[k].data
  {
  }

  lemma ReadSound(x: Side, y: Side, n: nat, now: int)
    requires Sound(x, y)
    ensures Sound(Acted(x, Read(n), now), y)
  {
    hide *;
    SoundIs(x, y);
    ReadIs(x, n, now);
    var x' := Acted(x, Read(n), now);
    ReadReceives(x.c.rcv, n, y.base, x.rcvd, y.log);
    ReadIntact(x.c.rcv, n, x.fed, x.out, x.overflowed);
    SoundIs(x', y);
  }

  lemma ReadIs(x: Side, n: nat, now: int)
    ensures Acted(x, Read(n), now)
            == x.(c := x.c.(rcv := Receiving.OnRead(x.c.rcv, n).rcv), out := x.out + Receiving.ReadBytes(x.c.rcv, n))
  {
  }

  // ----- deliveries -----

  lemma OnPacketIs(c: Conn, p: Packet, now: int)
    requires !Has(p.flags, Flag.Syn)
    ensures c.state == SynRcvd ==> OnPacket(c, p, now) == OnFinalAck(c, p)
    ensures c.state != SynRcvd && p.sequenceNum == 0 ==> OnPacket(c, p, now) == OnAck(c, p, now)
    ensures c.state != SynRcvd && p.sequenceNum != 0 && |p.payload| > 0 ==> OnPacket(c, p, now) == OnData(c, p)
    ensures c.state != SynRcvd && p.sequenceNum != 0 && |p.payload| == 0 ==> OnPacket(c, p, now) == Outcome(c, [], [])
  {
    hide Has;
  }

  lemma ReceivedIs(x: Side, o: Outcome)
    ensures Received(x, o)
            == x.(c := o.conn,
                  rcvd := x.rcvd + SeqDiff(x.c.rcv.recvSeq, o.conn.rcv.recvSeq),
                  acked := if x.c.state == SynRcvd then x.acked
                           else x.acked + SeqDiff(x.c.snd.ackThrough, o.conn.snd.ackThrough),
                  fed := x.fed + Appended(x.c.rcv.buf.log, o.conn.rcv.buf.log),
                  overflowed := x.overflowed || |o.conn.rcv.buf.log| > o.conn.rcv.buf.size)
    ensures forall k: u32 :: SeqDiff(k, k) == 0
  {
  }

  /** What a delivered message says, and how near it is. */
  ghost predicate Near(x: Side, y: Side, m: Msg) {
    && m.ack <= |x.log| && m.ack <= y.rcvd && x.acked < m.ack + HALF
    && m.p.ackThrough == Wrap(x.base + m.ack - 1)
    && !Has(m.p.flags, Flag.Syn) && !Has(m.p.flags, Flag.NoAck)
    && (m.p.sequenceNum != 0 ==>
          && m.idx < |y.log| && m == y.log[m.idx] && m.p.sequenceNum == Wrap(y.base + m.idx)
          && |m.p.payload| > 0 && x.rcvd < m.idx + HALF)
  }

  lemma IsNear(x: Side, y: Side, m: Msg)
    requires Inv(x, y) && Deliverable(x, y, m)
    ensures Near(x, y, m) && |y.log| <= x.rcvd + MAX_WINDOW
  {
    hide *;
    HalfIs(x, y);
    HalfIs(y, x);
    SoundIs(y, x);
    SoundIs(x, y);
    SendsIs(x.c.snd, x.base, x.log, x.acked);
    FlightIs(x.c.snd.sent, x.base, |x.log| - |x.c.snd.sent|, x.log);
    DeliverableIs(x, y, m);
    TruthfulIs(m, y.rcvd, x.base, |x.log|);
    ReceivesIs(y.c.rcv, x.base, y.rcvd, x.log);
    SendsIs(y.c.snd, y.base, y.log, y.acked);
    FlightIs(y.c.snd.sent, y.base, |y.log| - |y.c.snd.sent|, y.log);
    Words();
    NearIs(x, y, m);
  }

  lemma DeliverableIs(x: Side, y: Side, m: Msg)
    requires Deliverable(x, y, m)
    ensures m in y.log || m in y.ctl
    ensures |x.log| - |x.c.snd.sent| + MAX_WINDOW < m.ack + HALF
  {
  }

  lemma NearIs(x: Side, y: Side, m: Msg)
    requires DataLog(y.log, y.base) && Deliverable(x, y, m) && x.acked < m.ack + HALF
    requires m in y.ctl ==> m.p.sequenceNum == 0
    requires m.ack <= |x.log| && m.ack <= y.rcvd && m.p.ackThrough == Wrap(x.base + m.ack - 1)
    requires !Has(m.p.flags, Flag.Syn) && !Has(m.p.flags, Flag.NoAck)
    ensures Near(x, y, m)
  {
    if m.p.sequenceNum != 0 {
      var i :| 0 <= i < |y.log| && y.log[i] == m;
      assert IsData(y.log[i], i, y.base);
    }
    hide Wrap, Has;
  }

  lemma FinalAckSound(x: Side, y: Side, m: Msg)
    requires Sound(x, y) && Near(x, y, m) && x.c.state == SynRcvd
    ensures var x' := Received(x, OnFinalAck(x.c, m.p));
            Sound(x', y) && x'.rcvd == x.rcvd && x'.acked == x.acked
  {
    hide *;
    SoundIs(x, y);
    FinalAckIs(x, y, m);
    var o := OnFinalAck(x.c, m.p);
    ReceivedIs(x, o);
    SendsIs(x.c.snd, x.base, x.log, x.acked);
    SameSends(x.c.snd, o.conn.snd, x.base, x.log, x.acked);
    NothingFed(x.c.rcv.buf, x.fed, x.out, x.overflowed);
    SoundIs(Received(x, o), y);
  }

  lemma FinalAckIs(x: Side, y: Side, m: Msg)
    ensures OnFinalAck(x.c, m.p).conn
            == x.c.(snd := x.c.snd.(ackThrough := m.p.ackThrough), state := Established)
    ensures Near(x, y, m) ==> m.p.ackThrough == Wrap(x.base + m.ack - 1) && m.ack <= |x.log|
  {
  }

  lemma AckSound(x: Side, y: Side, m: Msg, now: int)
    requires Sound(x, y) && Near(x, y, m) && x.c.state == Established
    ensures var x' := Received(x, OnAck(x.c, m.p, now));
            && Sound(x', y) && x'.rcvd == x.rcvd
            && x'.acked == (if m.ack > x.acked then m.ack else x.acked)
  {
    hide *;
    SoundIs(x, y);
    NearAck(x, y, m);
    var o := OnAck(x.c, m.p, now);
    AckIs(x.c, m.p, now);
    ReceivedIs(x, o);
    AckSends(x.c.snd, m.p, now, x.base, x.log, x.acked, m.ack);
    AckDistance(x, y, m);
    NothingFed(x.c.rcv.buf, x.fed, x.out, x.overflowed);
    SoundIs(Received(x, o), y);
  }

  lemma NearAck(x: Side, y: Side, m: Msg)
    requires Near(x, y, m)
    ensures m.p.ackThrough == Wrap(x.base + m.ack - 1) && m.ack <= |x.log| && m.ack <= y.rcvd
    ensures x.acked < m.ack + HALF && !Has(m.p.flags, Flag.NoAck) && !Has(m.p.flags, Flag.Syn)
  {
    hide Wrap, Has;
  }

  lemma AckIs(c: Conn, p: Packet, now: int)
    ensures var o := OnAck(c, p, now);
            && o.conn == c.(snd := Sending.OnAck(c.snd, p, now).s, choke := OnDelay(c.choke, p, now))
  {
    hide Sending.OnAck, OnDelay;
  }

  /** A fresh acknowledgement is at most a window ahead of the last one. */
  lemma AckDistance(x: Side, y: Side, m: Msg)
    requires Sends(x.c.snd, x.base, x.log, x.acked) && Near(x, y, m)
    ensures m.ack > x.acked ==> SeqDiff(Wrap(x.base + x.acked - 1), Wrap(x.base + m.ack - 1)) == m.ack - x.acked
  {
    hide *;
    NearAck(x, y, m);
    SendsIs(x.c.snd, x.base, x.log, x.acked);
    FlightIs(x.c.snd.sent, x.base, |x.log| - |x.c.snd.sent|, x.log);
    Words();
    if m.ack > x.acked {
      DiffIsExact(x.base + x.acked - 1, x.base + m.ack - 1);
    }
  }

  lemma DataSound(x: Side, y: Side, m: Msg)
    requires Sound(x, y) && Near(x, y, m) && x.c.state == Established
    requires m.p.sequenceNum != 0 && |y.log| <= x.rcvd + MAX_WINDOW
    ensures var x' := Received(x, OnData(x.c, m.p));
            && Sound(x', y)
            && x'.rcvd == x.rcvd + Receiving.Delivered(x.c.rcv, m.p)
            && (x'.rcvd > x.rcvd <==> m.idx == x.rcvd)
            && x'.acked == (if m.idx == x.rcvd && m.ack > x.acked then m.ack else x.acked)
  {
    hide *;
    SoundIs(x, y);
    NearData(x, y, m);
    var o := OnData(x.c, m.p);
    DataIs(x.c, m.p);
    ReceivedIs(x, o);
    Words();
    ReceivesIs(x.c.rcv, y.base, x.rcvd, y.log);
    SerialIsExact(y.base + m.idx, y.base + x.rcvd);
    DataReceives(x.c.rcv, m.p, m.idx, y.base, x.rcvd, y.log);
    var d := Receiving.Delivered(x.c.rcv, m.p);
    var more := Receiving.Concat(Payloads(y.log)[x.rcvd..x.rcvd + d]);
    DataIntact(x.c.rcv.buf, o.conn.rcv.buf, x.fed, more, x.out, x.overflowed);
    DataFed(x.fed, more, x.rcvd, d, y.log);
    NearAck(x, y, m);
    AckDistance(x, y, m);
    PiggybackSends(x.c.snd, m.p, x.base, x.log, x.acked, m.ack);
    SoundIs(Received(x, o), y);
  }

  lemma NearData(x: Side, y: Side, m: Msg)
    requires Near(x, y, m) && m.p.sequenceNum != 0
    ensures m.idx < |y.log| && m == y.log[m.idx] && m.p.sequenceNum == Wrap(y.base + m.idx)
    ensures |m.p.payload| > 0 && x.rcvd < m.idx + HALF
  {
    hide Wrap, Has;
  }

  lemma DataIs(c: Conn, p: Packet)
    ensures OnData(c, p).conn
            == c.(snd := if p.sequenceNum == c.rcv.recvSeq then Sending.Piggyback(c.snd, p) else c.snd,
                  rcv := Receiving.OnData(c.rcv, p).rcv)
  {
    hide Sending.Piggyback, Receiving.OnData;
  }

  lemma PiggybackSends(s: Sending.Sender, p: Packet, base: int, log: seq<Msg>, acked: nat, ack: nat)
    requires Sends(s, base, log, acked) && s.ackThrough == Wrap(base + acked - 1)
    requires p.ackThrough == Wrap(base + ack - 1) && ack <= |log| && acked < ack + HALF && !Has(p.flags, Flag.NoAck)
    ensures var t := Sending.Piggyback(s, p);
            var now_acked := if ack > acked then ack else acked;
            Sends(t, base, log, now_acked) && t.ackThrough == Wrap(base + now_acked - 1)
  {
    hide *;
    SendsIs(s, base, log, acked);
    FlightIs(s.sent, base, |log| - |s.sent|, log);
    Words();
    SerialIsExact(base + ack - 1, base + acked - 1);
    PiggybackIs(s, p);
    SendsIs(Sending.Piggyback(s, p), base, log, if ack > acked then ack else acked);
  }

  lemma PiggybackIs(s: Sending.Sender, p: Packet)
    ensures Sending.Piggyback(s, p)
            == if !Has(p.flags, Flag.NoAck) && SeqGreater(p.ackThrough, s.ackThrough)
               then s.(ackThrough := p.ackThrough) else s
  {
    hide Has, SeqGreater;
  }

  lemma DeliverSound(x: Side, y: Side, m: Msg, now: int)
    requires Inv(x, y) && Deliverable(x, y, m)
    ensures var x' := Acted(x, Deliver(m), now);
            Sound(x', y) && x.rcvd <= x'.rcvd && x.acked <= x'.acked && x'.log == x.log && x'.base == x.base
  {
    hide *;
    IsNear(x, y, m);
    NearAck(x, y, m);
    HalfIs(x, y);
    SoundIs(x, y);
    OnPacketIs(x.c, m.p, now);
    DeliverIs(x, m, now);
    ReceivedIs(x, OnPacket(x.c, m.p, now));
    if x.c.state == SynRcvd {
      FinalAckSound(x, y, m);
    } else if m.p.sequenceNum == 0 {
      AckSound(x, y, m, now);
    } else {
      NearData(x, y, m);
      DataSound(x, y, m);
    }
  }

  lemma DeliverIs(x: Side, m: Msg, now: int)
    ensures Acted(x, Deliver(m), now) == Received(x, OnPacket(x.c, m.p, now))
  {
    hide Received, OnPacket;
  }

  lemma EnabledIs(x: Side, y: Side, act: Action, now: int)
    requires Enabled(x, y, act, now)
    ensures act.Write? ==> x.c.state == Established && WindowOpen(x.c) && |act.chunk| > 0
    ensures act.Deliver? ==> Deliverable(x, y, act.m)
    ensures act.KeepAlive? ==> Acted(x, act, now) == x
  {
    hide Deliverable, WindowOpen, Sending.TickOutcome, NegotiatedMTU;
  }

  lemma ActedSound(x: Side, y: Side, act: Action, now: int)
    requires Inv(x, y) && Enabled(x, y, act, now)
    ensures var x' := Acted(x, act, now);
            && Sound(x', y) && x.log <= x'.log && x.rcvd <= x'.rcvd && x.acked <= x'.acked
            && x'.base == x.base && x'.ctl == x.ctl
            && forall m | m in x'.log :: m in x.log || Truthful(m, x'.rcvd, y.base, |y.log|)
  {
    hide *;
    EnabledIs(x, y, act, now);
    HalfIs(x, y);
    match act
    case Write(chunk) => WriteSound(x, y, chunk, now); WriteIs(x, chunk, now);
    case Deliver(m) => DeliverSound(x, y, m, now); DeliverIs(x, m, now); ReceivedIs(x, OnPacket(x.c, m.p, now));
    case Tick(done, gaveUp) => TickSound(x, y, done, gaveUp, now); TickIs(x, done, gaveUp, now);
    case Read(n) => ReadSound(x, y, n, now); ReadIs(x, n, now);
    case KeepAlive =>
  }

  lemma StepIs(x: Side, y: Side, act: Action, now: int, x': Side)
    requires Step(x, y, act, now, x')
    ensures Enabled(x, y, act, now) && x' == Acted(x, act, now).(ctl := x'.ctl)
    ensures forall m | m in x'.ctl && m !in x.ctl ::
              m.ack == x'.rcvd && exists kind :: IsControl(x'.c, kind, m.p)
    ensures x.ctl <= x'.ctl
  {
    hide Enabled, Acted, IsControl, Kinds;
  }

  lemma CtlIrrelevant(x: Side, x': Side, y: Side)
    requires Sound(x, y) && x' == x.(ctl := x'.ctl)
    ensures Sound(x', y)
  {
    hide *;
    SoundIs(x, y);
    SoundIs(x', y);
  }

  lemma MessagesKept(x: Side, x': Side, y: Side)
    requires Messages(x, y) && Sound(x', y) && x.rcvd <= x'.rcvd
    requires forall m | m in x'.log :: m in x.log || Truthful(m, x'.rcvd, y.base, |y.log|)
    requires forall m | m in x'.ctl && m !in x.ctl :: m.ack == x'.rcvd && exists kind :: IsControl(x'.c, kind, m.p)
    ensures Messages(x', y)
  {
    hide *;
    HalfIs(x, y);
    SoundIs(x', y);
    forall m | m in x'.log ensures Truthful(m, x'.rcvd, y.base, |y.log|) {
      if m in x.log { StillTruthful(m, x.rcvd, x'.rcvd, y.base, |y.log|, |y.log|); }
    }
    forall m | m in x'.ctl ensures Truthful(m, x'.rcvd, y.base, |y.log|) && m.p.sequenceNum == 0 {
      if m in x.ctl {
        StillTruthful(m, x.rcvd, x'.rcvd, y.base, |y.log|, |y.log|);
      } else {
        var kind :| IsControl(x'.c, kind, m.p);
        ControlTruthful(x'.c, kind, m, y.base, x'.rcvd, y.log);
      }
    }
    MessagesAre(x', y);
  }

  lemma MessagesAre(x: Side, y: Side)
    requires forall m | m in x.log :: Truthful(m, x.rcvd, y.base, |y.log|)
    requires forall m | m in x.ctl :: Truthful(m, x.rcvd, y.base, |y.log|) && m.p.sequenceNum == 0
    ensures Messages(x, y)
  {
    hide Truthful;
  }

  /** What a step of the peer may do to the facts about the other side. */
  lemma PeerStep(y: Side, x: Side, x': Side)
    requires Half(y, x) && x'.base == x.base && x.log <= x'.log && x.rcvd <= x'.rcvd
    ensures Half(y, x')
  {
    hide *;
    HalfIs(y, x);
    SoundIs(y, x);
    LongerLog(y.c.rcv, y.fed, x.base, y.rcvd, x.log, x'.log);
    SoundIs(y, x');
    forall m | m in y.log || m in y.ctl ensures Truthful(m, y.rcvd, x'.base, |x'.log|) {
      StillTruthful(m, y.rcvd, y.rcvd, x.base, |x.log|, |x'.log|);
    }
    MessagesAre(y, x');
    HalfIs(y, x');
  }

  /** Every step of either side keeps the invariant of both, and nothing acknowledged,
      delivered or logged is ever taken back. */
  lemma StepKeepsInv(x: Side, y: Side, act: Action, now: int, x': Side)
    requires Inv(x, y) && Step(x, y, act, now, x')
    ensures Inv(x', y)
    ensures x'.base == x.base && x.log <= x'.log && x.rcvd <= x'.rcvd && x.acked <= x'.acked
  {
    hide *;
    HalfIs(x, y);
    StepIs(x, y, act, now, x');
    var z := Acted(x, act, now);
    ActedSound(x, y, act, now);
    CtlIrrelevant(z, x', y);
    MessagesKept(x, x', y);
    PeerStep(y, x, x');
    HalfIs(x', y);
  }
}
