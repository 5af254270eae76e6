/** The packets themselves: what every acknowledgement asks for, and how data is labelled. */
module Requests {
  import opened Serial
  import opened Packets
  import opened Connections
  import opened Protocol
  import opened ProtocolSteps
  import opened Delivery
  import Receiving
  import Runs
  import Sending
  import Timing

  // ----- control packets -----

  /** Whatever a step sends besides data is numbered 0, has no payload, goes from the own stream
      to the peer's, acknowledges everything delivered so far, and requests exactly the chunks
      that are missing below the highest one buffered, each once. */
  lemma RequestsExactly(x: Side, y: Side, act: Action, now: int, x': Side, m: Msg)
    requires Inv(x, y) && Step(x, y, act, now, x') && m in x'.ctl && m !in x.ctl
    ensures m.p.sequenceNum == 0 && m.p.payload == []
    ensures m.p.sendStreamID == x.c.ids.localStreamID && m.p.recvStreamID == x.c.ids.remoteStreamID
    ensures m.ack == x'.rcvd && m.p.ackThrough == Wrap(y.base + x'.rcvd - 1)
    ensures forall k: u32 :: k in m.p.nacks <==> exists i: nat :: k == Wrap(y.base + i) && Missing(x', y, i)
    ensures NoRepeats(m.p.nacks)
    ensures |m.p.nacks| < 128
  {
    hide *;
    StepIs(x, y, act, now, x');
    var kind :| IsControl(x'.c, kind, m.p);
    StepKeepsInv(x, y, act, now, x');
    InvSwap(x', y);
    InvBounds(y, x');
    Words();
    ListedNacks(x'.c, kind, m.p);
    IdsStay(x, y, act, now, x');
    ReceivesIs(x'.c.rcv, y.base, x'.rcvd, y.log);
    AckOfRecvSeq(y.base, x'.rcvd);
    forall k: u32 ensures k in m.p.nacks <==> exists i: nat :: k == Wrap(y.base + i) && Missing(x', y, i) {
      if k in m.p.nacks {
        var i := NackIndex(x', y, k);
        NackIsMissing(x', y, i);
      } else if i: nat :| k == Wrap(y.base + i) && Missing(x', y, i) {
        MissingIs(x', y, i);
        NackIsMissing(x', y, i);
      }
    }
    NacksFit(x', y);
  }

  predicate NoRepeats(ks: seq<u32>) {
    forall i, j | 0 <= i < j < |ks| :: ks[i] != ks[j]
  }

  /** What a control packet looks like, field by field. */
  lemma ListedNacks(c: Conn, kind: Receiving.Control, p: Packet)
    requires IsControl(c, kind, p)
    ensures p.sequenceNum == 0 && p.payload == [] && p.ackThrough == Wrap(c.rcv.recvSeq - 1)
    ensures p.sendStreamID == c.ids.localStreamID && p.recvStreamID == c.ids.remoteStreamID
    ensures p.resendDelay == 0 && p.from.None? && p.offline.None? && p.signature == [] && p.maxPacketSize == 0
    ensures forall k: u32 :: k in p.nacks <==> k in c.rcv.nacks
    ensures |p.nacks| == |c.rcv.nacks|
    ensures NoRepeats(p.nacks)
    ensures match kind
            case Acknowledge => p.flags == 0 && p.optionalDelay == 0
            case ChokeSignal => p.flags == 64 && p.optionalDelay == 61000
            case UnchokeSignal => p.flags == 64 && p.optionalDelay == 0
  {
    hide Wrap;
    ListedOnce(p.nacks, c.rcv.nacks);
  }

  /** A listing of the size of its set repeats nothing. */
  lemma ListedOnce(listing: seq<u32>, s: set<u32>)
    requires Lists(listing, s)
    ensures NoRepeats(listing)
  {
    forall i, j | 0 <= i < j < |listing| ensures listing[i] != listing[j] {
      if listing[i] == listing[j] {
        var shorter := listing[..j] + listing[j + 1..];
        forall k | k in s ensures k in shorter {
          var n :| 0 <= n < |listing| && listing[n] == k;
          if n == j { assert shorter[i] == k; } else { assert shorter[if n < j then n else n - 1] == k; }
        }
        AtMostItsLength(shorter, s);
      }
    }
  }

  lemma {:induction false} AtMostItsLength(ks: seq<u32>, s: set<u32>)
    requires forall k | k in s :: k in ks
    ensures |s| <= |ks|
  {
    if ks == [] {
      assert s == {};
    } else {
      var k := ks[0];
      AtMostItsLength(ks[1..], s - {k});
      if k in s { assert s == s - {k} + {k}; } else { assert s == s - {k}; }
    }
  }

  lemma IdsStay(x: Side, y: Side, act: Action, now: int, x': Side)
    requires Step(x, y, act, now, x')
    ensures x'.c.ids == x.c.ids
  {
    StepIs(x, y, act, now, x');
    hide Step, Sending.OnAck, Sending.Ticked, Receiving.OnData, Receiving.OnRead, Enabled, Kinds, DataPacket, Has;
  }

  /** The packets that a handler hands to the session for a list of kinds: one for each, in order,
      after everything sent before. */
  lemma EmittedExactly(before: seq<Packet>, after: seq<Packet>, c: Conn, kinds: seq<Receiving.Control>)
    requires Emits(before, after, c, kinds)
    ensures |after| == |before| + |kinds| && after[..|before|] == before
    ensures forall i | 0 <= i < |kinds| ::
              var p, kind := after[|before| + i], kinds[i];
              && p.sequenceNum == 0 && p.payload == [] && p.ackThrough == Wrap(c.rcv.recvSeq - 1)
              && p.sendStreamID == c.ids.localStreamID && p.recvStreamID == c.ids.remoteStreamID
              && (forall k: u32 :: k in p.nacks <==> k in c.rcv.nacks) && |p.nacks| == |c.rcv.nacks|
              && p.flags == (if kind == Receiving.Acknowledge then 0 else 64)
              && p.optionalDelay == if kind == Receiving.ChokeSignal then 61000 else 0
  {
    hide Wrap, ControlPacket, IsControl;
    forall i | 0 <= i < |kinds|
      ensures var p, kind := after[|before| + i], kinds[i];
              && p.sequenceNum == 0 && p.payload == [] && p.ackThrough == Wrap(c.rcv.recvSeq - 1)
              && p.sendStreamID == c.ids.localStreamID && p.recvStreamID == c.ids.remoteStreamID
              && (forall k: u32 :: k in p.nacks <==> k in c.rcv.nacks) && |p.nacks| == |c.rcv.nacks|
              && p.flags == (if kind == Receiving.Acknowledge then 0 else 64)
              && p.optionalDelay == if kind == Receiving.ChokeSignal then 61000 else 0
    {
      assert after[|before|..][i] == after[|before| + i];
      ListedNacks(c, kinds[i], after[|before| + i]);
    }
  }

  // ----- data packets -----

  /** A data packet is tracked from now on, goes from the own stream to the peer's, is numbered by
      its place in the stream, acknowledges everything delivered so far, requests nothing, and announces the
      timeout in whole seconds, at least 1 and at most 255. */
  lemma WrittenExactly(x: Side, y: Side, chunk: seq<byte>, now: int, x': Side)
    requires Inv(x, y) && Step(x, y, Write(chunk), now, x')
    ensures |x'.log| == |x.log| + 1
    ensures var p := x'.log[|x.log|].p;
            && p.sendStreamID == x.c.ids.localStreamID && p.recvStreamID == x.c.ids.remoteStreamID
            && p.sequenceNum == Wrap(x.base + |x.log|) && p.ackThrough == Wrap(y.base + x.rcvd - 1)
            && p.flags == 0 && p.nacks == [] && p.payload == chunk
            && 1 <= p.resendDelay <= 255
            && (1 < p.resendDelay < 255 ==>
                  p.resendDelay * 1_000_000_000 <= x.c.snd.timer.rto < (p.resendDelay + 1) * 1_000_000_000)
            && (p.resendDelay == 1 <==> x.c.snd.timer.rto < 2_000_000_000)
            && x'.c.snd.sent == x.c.snd.sent[p.sequenceNum := Sending.SentPacket(p, now, 0)]
  {
    hide *;
    StepIs(x, y, Write(chunk), now, x');
    Runs.Wrote(x, y, chunk, now);
    HalfIs(x, y);
    SoundIs(x, y);
    ReceivesIs(x.c.rcv, y.base, x.rcvd, y.log);
    AckOfRecvSeq(y.base, x.rcvd);
    DataPacketFields(x.c, chunk);
    DelayIsSeconds(x.c.snd.timer.rto);
    WriteIs(x, chunk, now);
    TrackIs(x.c.snd, DataPacket(x.c, chunk), now);
  }

  lemma DelayIsSeconds(rto: int)
    ensures var d := Timing.ResendDelay(rto);
            && 1 <= d <= 255
            && (1 < d < 255 ==> d * 1_000_000_000 <= rto < (d + 1) * 1_000_000_000)
            && (d == 1 <==> rto < 2_000_000_000) && (d == 255 <==> rto >= 255_000_000_000)
  {
  }

  // ----- what the signals do to the peer -----

  /** A choke signal that an established peer handles stops it for one second, an unchoke signal
      frees it, an acknowledgement leaves it as it was: the two ends agree on what is a choke. */
  lemma SignalsReach(c: Conn, kind: Receiving.Control, p: Packet, peer: Conn, now: int)
    requires IsControl(c, kind, p) && peer.state == Established
    ensures OnPacket(peer, p, now).conn.choke
            == match kind
               case Acknowledge => peer.choke
               case ChokeSignal => Choke(true, now + 1_000_000_000)
               case UnchokeSignal => Choke(false, 0)
  {
    ListedNacks(c, kind, p);
    ControlFlags(p);
    hide Wrap, IsControl, Sending.OnAck;
  }

  lemma ControlFlags(p: Packet)
    ensures p.flags == 0 ==> !Has(p.flags, Flag.Syn) && !Has(p.flags, Flag.Delay)
    ensures p.flags == 64 ==> !Has(p.flags, Flag.Syn) && Has(p.flags, Flag.Delay)
  {
  }

  /** For any packet: a requested delay of more than 60000 ms chokes, any other unchokes, and
      without one nothing changes. */
  lemma DelayExactly(c: Choke, p: Packet, now: int)
    ensures OnDelay(c, p, now).choked == (if Has(p.flags, Flag.Delay) then p.optionalDelay > 60000 else c.choked)
    ensures OnDelay(c, p, now).until
            == if !Has(p.flags, Flag.Delay) then c.until else if p.optionalDelay > 60000 then now + 1_000_000_000 else 0
  {
  }
}
