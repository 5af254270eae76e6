/** One established stream connection as a value: what each event handler of stream.go
    makes of it, and which packets it hands to the session. */
module Connections {
  import opened Serial
  import opened Packets
  import opened Timing
  import opened Congestion
  import Sending
  import Receiving

  const MIN_DELAY_CHOKE: u16 := 60001
  const SEND_DELAY_CHOKE: u16 := 61000
  const SECOND := 1_000_000_000

  datatype ConnState = Init | SynSent | SynRcvd | Established | CloseWait | Closing | Closed

  datatype Ids = Ids(localStreamID: u32, remoteStreamID: u32, localMTU: u16, remoteMTU: u16)

  /** Whether the peer has choked us, and until when. */
  datatype Choke = Choke(choked: bool, until: int)

  datatype Conn = Conn(snd: Sending.Sender, rcv: Receiving.Receiver, choke: Choke, state: ConnState, ids: Ids)

  /** A handler's result: the connection, the control packets it sent and the numbers it
      retransmitted, both in order. */
  datatype Outcome = Outcome(conn: Conn, ctl: seq<Receiving.Control>, fired: seq<u32>)

  /** getNegotiatedMTULocked. */
  function NegotiatedMTU(ids: Ids): u16 {
    if ids.remoteMTU == 0 then ids.localMTU
    else if ids.localMTU < ids.remoteMTU then ids.localMTU else ids.remoteMTU
  }

  // ----- packets sent -----

  function DataPacket(c: Conn, chunk: seq<byte>): Packet {
    PlainPacket(c.ids.localStreamID, c.ids.remoteStreamID, c.snd.sendSeq, Wrap(c.rcv.recvSeq - 1), [],
                ResendDelay(c.snd.timer.rto), chunk)
  }

  /** The flag word with only DELAY_REQUESTED set. */
  const DELAY_ONLY: u16 := 64

  function ControlPacket(c: Conn, kind: Receiving.Control, nacks: seq<u32>): Packet {
    var plain := PlainPacket(c.ids.localStreamID, c.ids.remoteStreamID, 0, Wrap(c.rcv.recvSeq - 1), nacks, 0, []);
    match kind
    case Acknowledge => plain
    case ChokeSignal => plain.(flags := DELAY_ONLY, optionalDelay := SEND_DELAY_CHOKE)
    case UnchokeSignal => plain.(flags := DELAY_ONLY, optionalDelay := 0)
  }

  /** The order of a map iteration is not fixed: any listing of the set without repetition. */
  ghost predicate Lists(listing: seq<u32>, s: set<u32>) {
    && |listing| == |s|
    && forall k: u32 :: k in listing <==> k in s
  }

  ghost predicate IsControl(c: Conn, kind: Receiving.Control, p: Packet) {
    Lists(p.nacks, c.rcv.nacks) && p == ControlPacket(c, kind, p.nacks)
  }

  ghost predicate AreControls(c: Conn, kinds: seq<Receiving.Control>, packets: seq<Packet>) {
    && |packets| == |kinds|
    && forall i | 0 <= i < |kinds| :: IsControl(c, kinds[i], packets[i])
  }

  /** The session was handed control packets of the given kinds, and nothing else. */
  ghost predicate Emits(before: seq<Packet>, after: seq<Packet>, c: Conn, kinds: seq<Receiving.Control>) {
    && |before| <= |after| && after[..|before|] == before
    && AreControls(c, kinds, after[|before|..])
  }

  lemma EmitsMore(w0: seq<Packet>, w1: seq<Packet>, w2: seq<Packet>, c: Conn,
                  a: seq<Receiving.Control>, b: seq<Receiving.Control>)
    requires Emits(w0, w1, c, a) && Emits(w1, w2, c, b)
    ensures Emits(w0, w2, c, a + b)
  {
    hide IsControl;
    assert w2[|w0|..] == w1[|w0|..] + w2[|w1|..];
  }

  /** The stored packets resent for a list of numbers; those already cleaned up are skipped. */
  function Resent(sent: map<u32, Sending.SentPacket>, fired: seq<u32>): seq<Packet> {
    if fired == [] then []
    else
      var k := fired[|fired| - 1];
      Resent(sent, fired[..|fired| - 1]) + (if k in sent then [sent[k].data] else [])
  }

  // ----- writing -----

  /** One chunk: tracked, sent, numbered. */
  function SendChunk(c: Conn, chunk: seq<byte>, now: int): Conn {
    c.(snd := Sending.Track(c.snd, DataPacket(c, chunk), now))
  }

  /** sendDataChunk for any chunk: an empty one is sent and numbered, but not tracked. */
  function SendAny(c: Conn, chunk: seq<byte>, now: int): Conn {
    if chunk == [] then c.(snd := c.snd.(sendSeq := Wrap(c.snd.sendSeq + 1))) else SendChunk(c, chunk, now)
  }

  predicate WindowOpen(c: Conn) {
    |c.snd.sent| < c.snd.window.cwnd
  }

  function NextChunk(c: Conn, data: seq<byte>): seq<byte> {
    var mtu := NegotiatedMTU(c.ids);
    if |data| > mtu then data[..mtu] else data
  }

  /** writeChunksLocked up to the point where it would wait for window space: the chunks
      it sends. A negotiated MTU of 0 would make it spin without progress. */
  function Chunks(c: Conn, data: seq<byte>, now: int): seq<seq<byte>>
    requires NegotiatedMTU(c.ids) > 0
    decreases |data|
  {
    if data == [] || !WindowOpen(c) then []
    else
      var chunk := NextChunk(c, data);
      [chunk] + Chunks(SendChunk(c, chunk, now), data[|chunk|..], now)
  }

  function SendAll(c: Conn, chunks: seq<seq<byte>>, now: int): Conn {
    if chunks == [] then c
    else SendChunk(SendAll(c, chunks[..|chunks| - 1], now), chunks[|chunks| - 1], now)
  }

  function DataPackets(c: Conn, chunks: seq<seq<byte>>, now: int): seq<Packet> {
    if chunks == [] then []
    else
      var before := chunks[..|chunks| - 1];
      DataPackets(c, before, now) + [DataPacket(SendAll(c, before, now), chunks[|chunks| - 1])]
  }

  // ----- receiving -----

  /** handleOptionalDelayLocked. */
  function OnDelay(choke: Choke, p: Packet, now: int): Choke {
    if !Has(p.flags, Flag.Delay) then choke
    else if p.optionalDelay >= MIN_DELAY_CHOKE then Choke(true, now + SECOND)
    else Choke(false, 0)
  }

  /** handleAckLocked. */
  function OnAck(c: Conn, p: Packet, now: int): Outcome {
    var b := Sending.OnAck(c.snd, p, now);
    Outcome(c.(snd := b.s, choke := OnDelay(c.choke, p, now)), [], b.fired)
  }

  /** handleDataLocked. */
  function OnData(c: Conn, p: Packet): Outcome {
    var r := Receiving.OnData(c.rcv, p);
    var snd := if p.sequenceNum == c.rcv.recvSeq then Sending.Piggyback(c.snd, p) else c.snd;
    Outcome(c.(snd := snd, rcv := r.rcv), r.ctl, [])
  }

  /** handleFinalAckLocked: any packet without SYN, CLOSE and RESET will do, and its payload is
      not looked at. */
  function OnFinalAck(c: Conn, p: Packet): Outcome {
    Outcome(c.(snd := c.snd.(ackThrough := p.ackThrough), state := Established), [], [])
  }

  /** dispatchPacketByFlags, for packets without CLOSE and RESET, once the receive loop runs. */
  function OnPacket(c: Conn, p: Packet, now: int): Outcome {
    if Has(p.flags, Flag.Syn) && p.sendStreamID > 0 then Outcome(c, [], [])
    else if c.state == SynRcvd && !Has(p.flags, Flag.Syn) then OnFinalAck(c, p)
    else if p.sequenceNum == 0 && !Has(p.flags, Flag.Syn) then OnAck(c, p, now)
    else if |p.payload| > 0 then OnData(c, p)
    else Outcome(c, [], [])
  }

  function OnRead(c: Conn, n: nat): Outcome {
    var r := Receiving.OnRead(c.rcv, n);
    Outcome(c.(rcv := r.rcv), r.ctl, [])
  }

  // ----- what holds of a connection throughout -----

  ghost predicate Valid(c: Conn) {
    && Receiving.Valid(c.rcv)
    && Sending.CountsLow(c.snd)
    && InBounds(c.snd.window)
  }

  lemma OnPacketValid(c: Conn, p: Packet, now: int)
    requires Valid(c)
    ensures Valid(OnPacket(c, p, now).conn)
  {
    AckValid(c.snd, p, now);
    Receiving.OnDataValid(c.rcv, p);
    hide Sending.OnAck, Receiving.OnData, Receiving.Valid, Sending.CountsLow, InBounds;
    PiggybackKeeps(c.snd, p);
  }

  lemma PiggybackKeeps(s: Sending.Sender, p: Packet)
    ensures Sending.CountsLow(Sending.Piggyback(s, p)) == Sending.CountsLow(s)
    ensures Sending.Piggyback(s, p).window == s.window
  {
  }

  lemma AckValid(s: Sending.Sender, p: Packet, now: int)
    requires Sending.CountsLow(s) && InBounds(s.window)
    ensures var t := Sending.OnAck(s, p, now).s; Sending.CountsLow(t) && InBounds(t.window)
  {
    var s1 := if !Has(p.flags, Flag.NoAck) && SeqGreater(p.ackThrough, s.ackThrough)
              then Sending.Advance(s, p.ackThrough, p.nacks, now) else s;
    Sending.AckClears(s, p.ackThrough, p.nacks, now, 0);
    Sending.BatchInPairs(s1, p.nacks, now, 0);
    Sending.BatchEffects(s1, p.nacks, now);
  }

  // ----- what Write sends -----

  /** The chunks are nonempty, fit the MTU, and joined together are a prefix of the data. */
  lemma {:induction false} ChunksArePrefix(c: Conn, data: seq<byte>, now: int)
    requires NegotiatedMTU(c.ids) > 0
    ensures var chunks := Chunks(c, data, now);
            && Receiving.Concat(chunks) <= data
            && (forall i | 0 <= i < |chunks| :: 0 < |chunks[i]| <= NegotiatedMTU(c.ids))
    decreases |data|
  {
    hide *;
    ChunksUnfold(c, data, now);
    if data != [] && WindowOpen(c) {
      var chunk := NextChunk(c, data);
      var rest := Chunks(SendChunk(c, chunk, now), data[|chunk|..], now);
      ChunksArePrefix(SendChunk(c, chunk, now), data[|chunk|..], now);
      Receiving.ConcatAppend([chunk], rest);
      assert data == chunk + data[|chunk|..];
      var chunks := [chunk] + rest;
      assert forall i | 0 < i < |chunks| :: chunks[i] == rest[i - 1];
    }
  }

  lemma ChunksUnfold(c: Conn, data: seq<byte>, now: int)
    requires NegotiatedMTU(c.ids) > 0
    ensures var chunk := NextChunk(c, data);
            if data != [] && WindowOpen(c)
            then && 0 < |chunk| <= |data| && |chunk| <= NegotiatedMTU(c.ids) && chunk == data[..|chunk|]
                 && SendChunk(c, chunk, now).ids == c.ids
                 && Chunks(c, data, now) == [chunk] + Chunks(SendChunk(c, chunk, now), data[|chunk|..], now)
                 && Receiving.Concat([chunk]) == chunk
            else Chunks(c, data, now) == [] && Receiving.Concat(Chunks(c, data, now)) == []
  {
    hide DataPacket, Sending.Track;
    var chunk := NextChunk(c, data);
    assert Receiving.Concat([chunk]) == chunk + Receiving.Concat([]);
  }

  /** Bytes i * mtu to (i + 1) * mtu, as far as there are any. */
  function Piece(data: seq<byte>, mtu: nat, i: nat): seq<byte> {
    var first, last := i * mtu, (i + 1) * mtu;
    if first >= |data| then [] else if last >= |data| then data[first..] else data[first..last]
  }

  lemma PieceZero(data: seq<byte>, mtu: nat)
    ensures Piece(data, mtu, 0) == if |data| > mtu then data[..mtu] else data
  {
  }

  lemma PieceLater(data: seq<byte>, mtu: nat, i: nat)
    requires mtu <= |data|
    ensures Piece(data[mtu..], mtu, i) == Piece(data, mtu, i + 1)
  {
    assert (i + 1) * mtu == i * mtu + mtu && (i + 2) * mtu == (i + 1) * mtu + mtu;
    var rest, a, b := data[mtu..], i * mtu, (i + 1) * mtu;
    if b < |rest| {
      assert rest[a..b] == data[mtu + a..mtu + b];
    } else if a < |rest| {
      assert rest[a..] == data[mtu + a..];
    }
  }

  /** The negotiated MTU is the smaller one of both sides', or the own one while the peer's is
      not known. */
  lemma NegotiatedIsSmaller(ids: Ids)
    ensures NegotiatedMTU(ids) <= ids.localMTU
    ensures ids.remoteMTU != 0 ==> NegotiatedMTU(ids) <= ids.remoteMTU
    ensures NegotiatedMTU(ids) == ids.localMTU || (NegotiatedMTU(ids) == ids.remoteMTU && ids.remoteMTU != 0)
  {
  }

  /** Write cuts its data at every multiple of the negotiated MTU and nowhere else: chunk i is
      bytes i * mtu to min((i + 1) * mtu, |data|). */
  lemma {:induction false} ChunksAreCut(c: Conn, data: seq<byte>, now: int, i: nat)
    requires NegotiatedMTU(c.ids) > 0 && i < |Chunks(c, data, now)|
    ensures Chunks(c, data, now)[i] == Piece(data, NegotiatedMTU(c.ids), i) != []
    decreases |data|
  {
    hide *;
    ChunksUnfold(c, data, now);
    var mtu := NegotiatedMTU(c.ids);
    var chunk := NextChunk(c, data);
    NextChunkIs(c, data);
    PieceZero(data, mtu);
    if i > 0 {
      var d := SendChunk(c, chunk, now);
      ChunksUnfold(d, data[|chunk|..], now);
      ChunksAreCut(d, data[|chunk|..], now, i - 1);
      PieceLater(data, mtu, i - 1);
    }
  }

  lemma NextChunkIs(c: Conn, data: seq<byte>)
    ensures NextChunk(c, data) == if |data| > NegotiatedMTU(c.ids) then data[..NegotiatedMTU(c.ids)] else data
  {
    hide NegotiatedMTU;
  }

  /** The packets that carry the chunks, one for each, numbered one after the other. */
  lemma {:induction false} DataPacketsAre(c: Conn, chunks: seq<seq<byte>>, now: int, i: nat)
    requires i < |chunks|
    ensures |DataPackets(c, chunks, now)| == |chunks|
    ensures var p := DataPackets(c, chunks, now)[i];
            && p.payload == chunks[i] && p.sequenceNum == Wrap(c.snd.sendSeq + i)
            && p.ackThrough == Wrap(c.rcv.recvSeq - 1) && p.flags == 0 && p.nacks == []
            && p.sendStreamID == c.ids.localStreamID && p.recvStreamID == c.ids.remoteStreamID
  {
    hide *;
    var n := |chunks| - 1;
    DataPacketsStep(c, chunks, now);
    SendAllFields(c, chunks[..n], now);
    DataPacketFields(SendAll(c, chunks[..n], now), chunks[n]);
    if n > 0 {
      DataPacketsAre(c, chunks[..n], now, if i < n then i else 0);
    }
  }

  lemma {:induction false} DataPacketsCount(c: Conn, chunks: seq<seq<byte>>, now: int)
    ensures |DataPackets(c, chunks, now)| == |chunks|
  {
    hide SendAll, DataPacket;
    if chunks != [] { DataPacketsCount(c, chunks[..|chunks| - 1], now); }
  }

  lemma DataPacketsStep(c: Conn, chunks: seq<seq<byte>>, now: int)
    requires chunks != []
    ensures var n := |chunks| - 1;
            DataPackets(c, chunks, now)
            == DataPackets(c, chunks[..n], now) + [DataPacket(SendAll(c, chunks[..n], now), chunks[n])]
    ensures DataPackets(c, [], now) == []
  {
    hide SendAll, DataPacket;
  }

  lemma {:induction false} SendAllFields(c: Conn, chunks: seq<seq<byte>>, now: int)
    ensures var d := SendAll(c, chunks, now);
            && d.snd.sendSeq == Wrap(c.snd.sendSeq + |chunks|)
            && d.rcv == c.rcv && d.ids == c.ids
  {
    hide DataPacket, Wrap;
    if chunks != [] {
      SendAllFields(c, chunks[..|chunks| - 1], now);
      WrapAdd(c.snd.sendSeq + (|chunks| - 1), 1);
    } else {
      WrapAdd(c.snd.sendSeq, 0);
      WrapOf(c.snd.sendSeq);
    }
  }

  lemma WrapOf(k: u32)
    ensures Wrap(k) == k && Wrap(k + 0) == k
  {
  }

  lemma DataPacketFields(c: Conn, chunk: seq<byte>)
    ensures var p := DataPacket(c, chunk);
            && p.payload == chunk && p.sequenceNum == c.snd.sendSeq && p.ackThrough == Wrap(c.rcv.recvSeq - 1)
            && p.flags == 0 && p.nacks == [] && p.resendDelay == ResendDelay(c.snd.timer.rto)
            && p.sendStreamID == c.ids.localStreamID && p.recvStreamID == c.ids.remoteStreamID
  {
    hide Wrap, ResendDelay;
  }

  /** Every firing of a tracked number, and nothing else, puts the stored packet on the wire. */
  lemma {:induction false} ResentExactly(sent: map<u32, Sending.SentPacket>, a: seq<u32>, b: seq<u32>, k: u32)
    ensures Resent(sent, []) == []
    ensures Resent(sent, [k]) == if k in sent then [sent[k].data] else []
    ensures Resent(sent, a + b) == Resent(sent, a) + Resent(sent, b)
  {
    assert [k][..0] == [];
    if b == [] {
      assert a + b == a;
    } else {
      ResentExactly(sent, a, b[..|b| - 1], k);
      assert (a + b)[..|a + b| - 1] == a + b[..|b| - 1];
    }
  }

  // ----- when Write comes to an end -----

  /** The loop of writeChunksLocked after some rounds: the connection and the data left. */
  datatype Loop = Loop(conn: Conn, rest: seq<byte>)

  /** The loop is done, or waits for window space. */
  predicate Stopped(l: Loop) {
    l.rest == [] || !WindowOpen(l.conn)
  }

  function Round(l: Loop, now: int): Loop {
    var chunk := NextChunk(l.conn, l.rest);
    Loop(SendAny(l.conn, chunk, now), l.rest[|chunk|..])
  }

  function Rounds(l: Loop, now: int, k: nat): Loop {
    if k == 0 then l
    else
      var m := Rounds(l, now, k - 1);
      if Stopped(m) then m else Round(m, now)
  }

  lemma RoundIs(l: Loop, now: int)
    requires !Stopped(l)
    ensures Round(l, now).conn.ids == l.conn.ids
    ensures NegotiatedMTU(l.conn.ids) > 0 ==> |Round(l, now).rest| < |l.rest|
    ensures NegotiatedMTU(l.conn.ids) == 0 ==>
              Round(l, now) == Loop(l.conn.(snd := l.conn.snd.(sendSeq := Wrap(l.conn.snd.sendSeq + 1))), l.rest)
  {
    hide DataPacket, Sending.Track, NegotiatedMTU, Wrap;
    if NegotiatedMTU(l.conn.ids) == 0 {
      assert NextChunk(l.conn, l.rest) == [] && l.rest[0..] == l.rest;
    }
  }

  lemma RoundsStep(l: Loop, now: int, k: nat)
    ensures Rounds(l, now, 0) == l
    ensures var m := Rounds(l, now, k); Rounds(l, now, k + 1) == if Stopped(m) then m else Round(m, now)
  {
    hide Stopped, Round;
  }

  /** With a negotiated MTU of 0 every round sends an empty packet and uses up a number. */
  lemma {:induction false} Spins(l: Loop, now: int, k: nat)
    requires NegotiatedMTU(l.conn.ids) == 0 && !Stopped(l)
    ensures Rounds(l, now, k) == Loop(l.conn.(snd := l.conn.snd.(sendSeq := Wrap(l.conn.snd.sendSeq + k))), l.rest)
    ensures !Stopped(Rounds(l, now, k))
  {
    hide NegotiatedMTU, Rounds, Round;
    if k == 0 {
      RoundsStep(l, now, 0);
    } else {
      Spins(l, now, k - 1);
      RoundsStep(l, now, k - 1);
      RoundIs(Rounds(l, now, k - 1), now);
      WrapAdd(l.conn.snd.sendSeq + (k - 1), 1);
    }
  }

  lemma {:induction false} RoundsTake(l: Loop, now: int, k: nat)
    requires NegotiatedMTU(l.conn.ids) > 0
    ensures Rounds(l, now, k).conn.ids == l.conn.ids
    ensures Stopped(Rounds(l, now, k)) || |Rounds(l, now, k).rest| + k <= |l.rest|
  {
    hide *;
    if k == 0 {
      RoundsStep(l, now, 0);
    } else {
      RoundsTake(l, now, k - 1);
      RoundsStep(l, now, k - 1);
      var m := Rounds(l, now, k - 1);
      if !Stopped(m) { RoundIs(m, now); }
    }
  }

  /** Write gets to the end of its data or to a full window if and only if there is nothing to
      do for it or the negotiated MTU is not 0. */
  lemma WriteStopsExactly(c: Conn, data: seq<byte>, now: int)
    ensures (exists k: nat :: Stopped(Rounds(Loop(c, data), now, k)))
            <==> data == [] || !WindowOpen(c) || NegotiatedMTU(c.ids) > 0
  {
    hide NegotiatedMTU, Rounds, WindowOpen;
    var l := Loop(c, data);
    if Stopped(l) {
      RoundsStep(l, now, 0);
      assert Stopped(Rounds(l, now, 0));
    } else if NegotiatedMTU(c.ids) > 0 {
      RoundsTake(l, now, |data| + 1);
      assert Stopped(Rounds(l, now, |data| + 1));
    } else {
      forall k: nat ensures !Stopped(Rounds(l, now, k)) { Spins(l, now, k); }
    }
  }
}
