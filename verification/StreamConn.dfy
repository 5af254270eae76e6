/** The connection object of stream.go: its own maps and counters, updated in place by
    methods that are proved equal to the functions on values. Each method runs under the
    connection's lock; packets handed to the session are appended to `wire`. */
module Stream {
  import opened Serial
  import opened Packets
  import opened Timing
  import opened Congestion
  import opened Connections
  import Handshake
  import Sending
  import Teardown
  import Receiving

  class StreamConn {
    // sequence tracking
    var sendSeq: u32
    var recvSeq: u32
    var ackThrough: u32
    // congestion control
    var windowSize: nat
    var cwnd: nat
    var ssthresh: nat
    var rtt: int
    var rto: int
    var srtt: int
    var rttVariance: int
    // choking, in both directions
    var choked: bool
    var chokedUntil: int
    var sendingChoke: bool
    var lastBufferCheck: int
    // reordering and retransmission
    var outOfOrderPackets: map<u32, Packet>
    var nackList: set<u32>
    var sentPackets: map<u32, Sending.SentPacket>
    var nackCounts: map<u32, nat>
    var recvBuf: Receiving.Buffer
    // identity
    var localStreamID: u32
    var remoteStreamID: u32
    var localMTU: u16
    var remoteMTU: u16
    var state: ConnState
    var closed: bool
    // everything sent so far
    var wire: seq<Packet>

    function Timer(): Timing.Timer
      reads `rtt, `srtt, `rttVariance, `rto
    {
      Timing.Timer(rtt, srtt, rttVariance, rto)
    }

    function Snd(): Sending.Sender
      reads `sendSeq, `ackThrough, `sentPackets, `nackCounts, `cwnd, `ssthresh, `windowSize, `rtt, `srtt, `rttVariance, `rto
    {
      Sending.Sender(sendSeq, ackThrough, sentPackets, nackCounts, Window(cwnd, ssthresh, windowSize), Timer())
    }

    function Rcv(): Receiving.Receiver
      reads `recvSeq, `outOfOrderPackets, `nackList, `recvBuf, `sendingChoke, `lastBufferCheck
    {
      Receiving.Receiver(recvSeq, outOfOrderPackets, nackList, recvBuf, sendingChoke, lastBufferCheck)
    }

    function Conn(): Connections.Conn reads this {
      Connections.Conn(Snd(), Rcv(), Choke(choked, chokedUntil), state,
                       Ids(localStreamID, remoteStreamID, localMTU, remoteMTU))
    }

    ghost predicate Valid() reads this {
      Connections.Valid(Conn())
    }

    // ----- handshake -----

    /** initializeStreamConn; window and timer may already carry cached control-block data. */
    constructor Dial(p: Handshake.Party)
      ensures Conn() == Handshake.NewClient(p) && wire == []
    {
      sendSeq, recvSeq, ackThrough := p.isn, 0, 0;
      windowSize, cwnd, ssthresh := p.window.windowSize, p.window.cwnd, p.window.ssthresh;
      rtt, rto, srtt, rttVariance := p.timer.rtt, p.timer.rto, p.timer.srtt, p.timer.rttVariance;
      choked, chokedUntil, sendingChoke, lastBufferCheck := false, 0, false, 0;
      outOfOrderPackets, nackList, sentPackets, nackCounts := map[], {}, map[], map[];
      recvBuf := Receiving.Buffer([], Handshake.RECEIVE_BUFFER);
      localStreamID, remoteStreamID := p.id, 0;
      localMTU, remoteMTU := Handshake.Uint16(p.mtu), 0;
      state := Init;
      closed := false;
      wire := [];
    }

    /** initConnectionState for a SYN that passed the listener's checks. */
    constructor Accept(p: Handshake.Party, syn: Packet)
      ensures Conn() == Handshake.NewServer(p, syn) && wire == []
    {
      sendSeq, recvSeq, ackThrough := p.isn, Wrap(syn.sequenceNum + 1), 0;
      windowSize, cwnd, ssthresh := p.window.windowSize, p.window.cwnd, p.window.ssthresh;
      rtt, rto, srtt, rttVariance := p.timer.rtt, p.timer.rto, p.timer.srtt, p.timer.rttVariance;
      choked, chokedUntil, sendingChoke, lastBufferCheck := false, 0, false, 0;
      outOfOrderPackets, nackList, sentPackets, nackCounts := map[], {}, map[], map[];
      recvBuf := Receiving.Buffer([], Handshake.RECEIVE_BUFFER);
      localStreamID, remoteStreamID := p.id, syn.recvStreamID;
      localMTU, remoteMTU := Handshake.Uint16(p.mtu), Handshake.OfferedMTU(syn);
      state := Init;
      closed := false;
      wire := [];
    }

    /** applyTCBDataToConnection. */
    method ApplyCachedData(data: Cached)
      modifies `srtt, `rtt, `rttVariance, `cwnd, `ssthresh, `rto
      ensures Window(cwnd, ssthresh, windowSize) == AppliedWindow(old(Window(cwnd, ssthresh, windowSize)), data)
      ensures Timer() == AppliedTimer(old(Timer()), data)
    {
      if data.rtt > 0 { srtt, rtt := data.rtt, data.rtt; }
      if data.rttVariance > 0 { rttVariance := data.rttVariance; }
      if data.windowSize > 0 && data.windowSize > cwnd {
        cwnd := data.windowSize;
        ssthresh := data.windowSize * 2;
        if ssthresh > MAX_WINDOW { ssthresh := MAX_WINDOW; }
      }
      if data.rtt > 0 || data.rttVariance > 0 {
        rto := CalculateRtoFromValues(srtt, rttVariance);
      }
    }

    static method CalculateRtoFromValues(srtt: int, rttVariance: int) returns (rto: int)
      ensures rto == CacheRto(srtt, rttVariance)
    {
      var k := rttVariance * 4;
      if k < GRANULARITY { k := GRANULARITY; }
      rto := srtt + k;
      if rto < MIN_RTO { rto := MIN_RTO; }
      if rto > MAX_RTO { rto := MAX_RTO; }
    }

    method SendSyn(p: Handshake.Party, hash: seq<u32>)
      modifies `sendSeq, `state, `wire
      ensures Conn() == Handshake.Numbered(old(Conn()), SynSent)
      ensures wire == old(wire) + [Handshake.SynPacket(old(Conn()), p, hash)]
      ensures Handshake.Announces(wire[|old(wire)|], Conn())
    {
      hide Rcv, Timer, Wrap, Handshake.SynPacket, Handshake.Announces;
      Handshake.SynAnnounces(Conn(), p, hash);
      wire := wire + [Handshake.SynPacket(Conn(), p, hash)];
      sendSeq := Wrap(sendSeq + 1);
      state := SynSent;
    }

    method SendSynAck(p: Handshake.Party)
      modifies `sendSeq, `state, `wire
      ensures Conn() == Handshake.Numbered(old(Conn()), SynRcvd)
      ensures wire == old(wire) + [Handshake.SynAckPacket(old(Conn()), p)]
      ensures Handshake.Answers(wire[|old(wire)|], Conn())
    {
      hide Rcv, Timer, Wrap, Handshake.SynAckPacket, Handshake.Answers;
      Handshake.SynAckAnswers(Conn(), p);
      wire := wire + [Handshake.SynAckPacket(Conn(), p)];
      sendSeq := Wrap(sendSeq + 1);
      state := SynRcvd;
    }

    method ExtractRemoteMTU(p: Packet)
      modifies `remoteMTU
      ensures remoteMTU == Handshake.OfferedMTU(p)
    {
      if Has(p.flags, Flag.MaxSize) && p.maxPacketSize > 0 {
        remoteMTU := p.maxPacketSize;
      } else {
        remoteMTU := Handshake.DEFAULT_MTU;
      }
    }

    method ProcessSynAck(p: Packet) returns (ok: bool)
      modifies `recvSeq, `remoteStreamID, `ackThrough, `remoteMTU
      ensures ok == Handshake.OnSynAck(old(Conn()), p).Some?
      ensures Conn() == if ok then Handshake.OnSynAck(old(Conn()), p).value else old(Conn())
    {
      hide *;
      ConnFields();
      SndFields();
      Handshake.OnSynAckIs(Conn(), p);
      if p.ackThrough != Wrap(sendSeq - 1) { return false; }
      TakeOver(p);
      ok := true;
    }

    method TakeOver(p: Packet)
      modifies `recvSeq, `remoteStreamID, `ackThrough, `remoteMTU
      ensures Conn() == old(Conn()).(rcv := old(Conn()).rcv.(recvSeq := Wrap(p.sequenceNum + 1)),
                                     snd := old(Conn()).snd.(ackThrough := p.ackThrough),
                                     ids := old(Conn()).ids.(remoteStreamID := p.sendStreamID,
                                                             remoteMTU := Handshake.OfferedMTU(p)))
    {
      hide *;
      ConnFields();
      TakeNumbers(p);
      remoteStreamID := p.sendStreamID;
      ExtractRemoteMTU(p);
      ConnFields();
    }

    method TakeNumbers(p: Packet)
      modifies `recvSeq, `ackThrough
      ensures Rcv() == old(Rcv()).(recvSeq := Wrap(p.sequenceNum + 1))
      ensures Snd() == old(Snd()).(ackThrough := p.ackThrough)
    {
      hide *;
      SndFields();
      RcvFields();
      recvSeq := Wrap(p.sequenceNum + 1);
      ackThrough := p.ackThrough;
      SndFields();
      RcvFields();
    }

    /** performHandshake, given the SYN-ACK that arrives. */
    method PerformHandshake(p: Handshake.Party, hash: seq<u32>, synAck: Packet) returns (ok: bool)
      modifies `sendSeq, `recvSeq, `remoteStreamID, `ackThrough, `remoteMTU, `state, `wire
      ensures var sent := Handshake.Numbered(old(Conn()), SynSent);
              && ok == Handshake.OnSynAck(sent, synAck).Some?
              && (ok ==> Conn() == Handshake.OnSynAck(sent, synAck).value.(state := Established))
              && (!ok ==> Conn() == sent)
      ensures wire == old(wire) + [Handshake.SynPacket(old(Conn()), p, hash)]
                      + if ok then [Handshake.FinalAckPacket(Conn())] else []
    {
      hide *;
      SendSyn(p, hash);
      ok := CompleteHandshake(synAck);
      Handshake.FinalAckIgnoresState(Conn());
    }

    /** completeHandshake once a SYN-ACK is there. */
    method CompleteHandshake(synAck: Packet) returns (ok: bool)
      modifies `recvSeq, `remoteStreamID, `ackThrough, `remoteMTU, `state, `wire
      ensures ok == Handshake.OnSynAck(old(Conn()), synAck).Some?
      ensures ok ==>
                var c := Handshake.OnSynAck(old(Conn()), synAck).value;
                Conn() == c.(state := Established) && wire == old(wire) + [Handshake.FinalAckPacket(Conn())]
      ensures !ok ==> Conn() == old(Conn()) && wire == old(wire)
    {
      hide Handshake.OnSynAck;
      ok := ProcessSynAck(synAck);
      if ok {
        wire := wire + [PlainPacket(localStreamID, remoteStreamID, 0, Wrap(recvSeq - 1), [], 0, [])];
        state := Established;
      }
    }

    // ----- NACK list -----

    method RemoveFromNackList(k: u32)
      modifies `nackList
      ensures nackList == old(nackList) - {k}
    {
      if k in nackList {
        nackList := nackList - {k};
      }
    }

    method CalculateSequenceGap(receivedSeq: u32) returns (gap: nat)
      ensures gap == Receiving.Min(Receiving.Ahead(Rcv(), receivedSeq), Receiving.MAX_NACKS)
    {
      gap := Wrap(receivedSeq - recvSeq);
      if gap > Receiving.MAX_NACKS { return Receiving.MAX_NACKS; }
    }

    /** The capacity break never costs a number: a full list already holds the whole window. */
    method AddMissingSequences(gap: nat)
      requires gap <= Receiving.MAX_NACKS && Receiving.Valid(Rcv())
      modifies `nackList
      ensures nackList == Receiving.WithSpan(old(Rcv()), gap)
    {
      ghost var r := Rcv();
      SameFields();
      hide *;
      for i := 0 to gap
        invariant nackList == Receiving.WithSpan(r, i)
      {
        if |nackList| >= Receiving.MAX_NACKS {
          Receiving.FullListHasAll(r, i, gap);
          return;
        }
        Receiving.WithSpanStep(r, i);
        var k := Wrap(recvSeq + i);
        var add := ShouldAddToNackList(k);
        if add {
          nackList := nackList + {k};
        }
      }
    }

    lemma SameFields()
      ensures Rcv().nacks == nackList && Rcv().held == outOfOrderPackets && Rcv().recvSeq == recvSeq
      ensures Receiving.WithSpan(Rcv(), 0) == nackList
      ensures Rcv().choking == sendingChoke && Rcv().buf == recvBuf
      ensures Snd().sent == sentPackets && Snd().ackThrough == ackThrough
      ensures Conn().snd == Snd() && Conn().rcv == Rcv() && Conn().choke == Choke(choked, chokedUntil)
      ensures Conn().state == state && Conn().ids == Ids(localStreamID, remoteStreamID, localMTU, remoteMTU)
    {
    }

    lemma ConnFields()
      ensures Conn() == Connections.Conn(Snd(), Rcv(), Choke(choked, chokedUntil), state,
                                         Ids(localStreamID, remoteStreamID, localMTU, remoteMTU))
    {
      hide Snd, Rcv;
    }

    lemma SndFields()
      ensures Snd() == Sending.Sender(sendSeq, ackThrough, sentPackets, nackCounts, Window(cwnd, ssthresh, windowSize), Timer())
      ensures Timer().rto == rto
    {
    }

    lemma RcvFields()
      ensures Rcv() == Receiving.Receiver(recvSeq, outOfOrderPackets, nackList, recvBuf, sendingChoke, lastBufferCheck)
    {
    }

    method ShouldAddToNackList(k: u32) returns (add: bool)
      ensures add <==> k !in outOfOrderPackets && k !in nackList
    {
      if k in outOfOrderPackets { return false; }
      add := k !in nackList;
    }

    /** Up to `max` numbers of the list, in the order of some iteration. */
    method GetNackListSlice(max: nat) returns (result: seq<u32>)
      ensures |result| == Receiving.Min(|nackList|, max)
      ensures forall k | k in result :: k in nackList
      ensures |nackList| <= max ==> Lists(result, nackList)
    {
      result := [];
      var left := nackList;
      while left != {} && |result| < max
        invariant left <= nackList && |result| + |left| == |nackList| && |result| <= max
        invariant forall k: u32 :: k in result <==> k in nackList && k !in left
        decreases left
      {
        var k :| k in left;
        left := left - {k};
        result := result + [k];
      }
      if left == {} { assert |left| == 0; }
    }

    // ----- control packets -----

    method SendAck()
      requires Receiving.Valid(Rcv())
      modifies `wire
      ensures Emits(old(wire), wire, Conn(), [Receiving.Acknowledge])
      ensures |wire| == |old(wire)| + 1 && wire[..|old(wire)|] == old(wire)
      ensures var p := wire[|old(wire)|];
              && p.sequenceNum == 0 && p.ackThrough == Wrap(recvSeq - 1) && p.flags == 0 && p.optionalDelay == 0
              && (forall k: u32 :: k in p.nacks <==> k in nackList) && |p.nacks| == |nackList|
    {
      Receiving.NackListBounded(Rcv());
      var nacks := GetNackListSlice(Receiving.MAX_NACKS);
      wire := wire + [PlainPacket(localStreamID, remoteStreamID, 0, Wrap(recvSeq - 1), nacks, 0, [])];
    }

    method SendChokeSignal()
      requires Receiving.Valid(Rcv())
      modifies `wire, `sendingChoke
      ensures sendingChoke
      ensures Emits(old(wire), wire, Conn(), [Receiving.ChokeSignal])
      ensures |wire| == |old(wire)| + 1 && wire[..|old(wire)|] == old(wire)
      ensures var p := wire[|old(wire)|];
              && p.sequenceNum == 0 && p.ackThrough == Wrap(recvSeq - 1) && p.flags == 64 && p.optionalDelay == 61000
              && (forall k: u32 :: k in p.nacks <==> k in nackList) && |p.nacks| == |nackList|
    {
      Receiving.NackListBounded(Rcv());
      var nacks := GetNackListSlice(Receiving.MAX_NACKS);
      var p := PlainPacket(localStreamID, remoteStreamID, 0, Wrap(recvSeq - 1), nacks, 0, []);
      p := p.(flags := DELAY_ONLY, optionalDelay := SEND_DELAY_CHOKE);
      sendingChoke := true;
      wire := wire + [p];
    }

    method SendUnchokeSignal()
      requires Receiving.Valid(Rcv())
      modifies `wire, `sendingChoke
      ensures !sendingChoke
      ensures Emits(old(wire), wire, Conn(), [Receiving.UnchokeSignal])
      ensures |wire| == |old(wire)| + 1 && wire[..|old(wire)|] == old(wire)
      ensures var p := wire[|old(wire)|];
              && p.sequenceNum == 0 && p.ackThrough == Wrap(recvSeq - 1) && p.flags == 64 && p.optionalDelay == 0
              && (forall k: u32 :: k in p.nacks <==> k in nackList) && |p.nacks| == |nackList|
    {
      Receiving.NackListBounded(Rcv());
      var nacks := GetNackListSlice(Receiving.MAX_NACKS);
      var p := PlainPacket(localStreamID, remoteStreamID, 0, Wrap(recvSeq - 1), nacks, 0, []);
      p := p.(flags := DELAY_ONLY, optionalDelay := 0);
      sendingChoke := false;
      wire := wire + [p];
    }

    // ----- incoming data -----

    method DeliverBufferedPackets()
      requires Receiving.Ready(Rcv())
      modifies `recvSeq, `recvBuf, `outOfOrderPackets, `nackList
      ensures Rcv() == Receiving.Drain(old(Rcv()))
    {
      hide *;
      while true
        invariant Receiving.Ready(Rcv())
        invariant Receiving.Drain(Rcv()) == Receiving.Drain(old(Rcv()))
        decreases |outOfOrderPackets|
      {
        SameFields();
        Receiving.DrainStep(Rcv());
        if recvSeq !in outOfOrderPackets { break; }
        Receiving.PopShrinks(Rcv());
        Receiving.PopReady(Rcv());
        DeliverOne();
        SameFields();
      }
    }

    method DeliverOne()
      requires recvSeq in outOfOrderPackets && Receiving.Ready(Rcv())
      modifies `recvSeq, `recvBuf, `outOfOrderPackets, `nackList
      ensures Rcv() == Receiving.Pop(old(Rcv()))
    {
      var p := outOfOrderPackets[recvSeq];
      recvBuf := recvBuf.Write(p.payload);
      recvSeq := Wrap(recvSeq + 1);
      outOfOrderPackets := outOfOrderPackets - {p.sequenceNum};
      RemoveFromNackList(p.sequenceNum);
    }

    method UpdateChokeStateForUsage(used: nat)
      requires Receiving.Valid(Rcv()) && used == |recvBuf.log| && used != lastBufferCheck
      modifies `wire, `sendingChoke, `lastBufferCheck
      ensures Rcv() == Receiving.ManageChoke(old(Rcv())).rcv
      ensures Emits(old(wire), wire, Conn(), Receiving.ManageChoke(old(Rcv())).ctl)
    {
      lastBufferCheck := used;
      if 10 * used > 8 * recvBuf.size && !sendingChoke {
        SendChokeSignal();
      } else if 10 * used < 3 * recvBuf.size && sendingChoke {
        SendUnchokeSignal();
      }
    }

    method ManageChokeState()
      requires Receiving.Valid(Rcv())
      modifies `wire, `sendingChoke, `lastBufferCheck
      ensures Rcv() == Receiving.ManageChoke(old(Rcv())).rcv
      ensures Emits(old(wire), wire, Conn(), Receiving.ManageChoke(old(Rcv())).ctl)
    {
      var used := |recvBuf.log|;
      if used == lastBufferCheck { return; }
      UpdateChokeStateForUsage(used);
    }

    method AcceptInSequence(p: Packet)
      requires Receiving.Valid(Rcv()) && p.sequenceNum == recvSeq
      modifies `recvSeq, `recvBuf, `outOfOrderPackets, `nackList
      ensures Rcv() == Receiving.Accept(old(Rcv()), p)
    {
      Receiving.PushReady(Rcv(), p.payload);
      hide Receiving.Ready, Receiving.Valid, Receiving.Drain;
      recvBuf := recvBuf.Write(p.payload);
      recvSeq := Wrap(recvSeq + 1);
      RemoveFromNackList(p.sequenceNum);
      DeliverBufferedPackets();
    }

    method PiggybackAck(p: Packet)
      modifies `ackThrough
      ensures Snd() == Sending.Piggyback(old(Snd()), p)
    {
      if !Has(p.flags, Flag.NoAck) && SeqGreater(p.ackThrough, ackThrough) {
        ackThrough := p.ackThrough;
      }
    }

    method ProcessInSequencePacket(p: Packet)
      requires Receiving.Valid(Rcv()) && p.sequenceNum == recvSeq
      modifies `recvSeq, `recvBuf, `outOfOrderPackets, `nackList, `ackThrough, `wire, `sendingChoke, `lastBufferCheck
      ensures Rcv() == Receiving.OnData(old(Rcv()), p).rcv
      ensures Snd() == Sending.Piggyback(old(Snd()), p)
      ensures Emits(old(wire), wire, Conn(), Receiving.OnData(old(Rcv()), p).ctl)
    {
      hide *;
      SameFields();
      Receiving.AcceptValid(Rcv(), p);
      Receiving.OnDataNext(Rcv(), p);
      AcceptInSequence(p);
      PiggybackAck(p);
      FinishInSequence();
    }

    /** The choke check and the acknowledgement after a delivery. */
    method FinishInSequence()
      requires Receiving.Valid(Rcv())
      modifies `wire, `sendingChoke, `lastBufferCheck
      ensures Rcv() == Receiving.ManageChoke(old(Rcv())).rcv
      ensures var m := Receiving.ManageChoke(old(Rcv()));
              Emits(old(wire), wire, Conn(),
                    m.ctl + (if !m.rcv.choking || m.rcv.nacks != {} then [Receiving.Acknowledge] else []))
    {
      ghost var before := Rcv();
      ghost var wire0 := wire;
      ManageChokeState();
      ghost var kinds := Receiving.ManageChoke(before).ctl;
      assert Receiving.Valid(Rcv()) by { ChokeKeepsValid(before); }
      assert kinds + [] == kinds;
      hide Receiving.ManageChoke, Receiving.Valid, Emits;
      if !sendingChoke || |nackList| > 0 {
        ghost var wire1 := wire;
        SendAck();
        EmitsMore(wire0, wire1, wire, Conn(), kinds, [Receiving.Acknowledge]);
      }
    }

    lemma ChokeKeepsValid(r: Receiving.Receiver)
      requires Receiving.Valid(r)
      ensures Receiving.Valid(Receiving.ManageChoke(r).rcv)
    {
    }

    method HandleOutOfOrderPacket(p: Packet)
      requires Receiving.Valid(Rcv()) && p.sequenceNum != recvSeq && !SeqLess(p.sequenceNum, recvSeq)
      modifies `outOfOrderPackets, `nackList, `wire
      ensures Rcv() == Receiving.Accept(old(Rcv()), p)
      ensures Emits(old(wire), wire, Conn(), [Receiving.Acknowledge])
    {
      ghost var before := Rcv();
      Receiving.AcceptValid(before, p);
      var k := p.sequenceNum;
      outOfOrderPackets := outOfOrderPackets[k := p];
      RemoveFromNackList(k);
      var gap := CalculateSequenceGap(k);
      AddMissingSequences(gap);
      assert Rcv() == Receiving.Accept(before, p);
      SendAck();
    }

    method HandleData(p: Packet)
      requires Receiving.Valid(Rcv())
      modifies `recvSeq, `recvBuf, `outOfOrderPackets, `nackList, `ackThrough, `wire, `sendingChoke, `lastBufferCheck
      ensures Conn() == OnData(old(Conn()), p).conn
      ensures Emits(old(wire), wire, Conn(), OnData(old(Conn()), p).ctl)
    {
      hide Receiving.Accept, Receiving.Valid, SeqLess, Receiving.ManageChoke, Sending.Piggyback, IsControl;
      if p.sequenceNum == recvSeq {
        ProcessInSequencePacket(p);
      } else if SeqLess(p.sequenceNum, recvSeq) {
      } else {
        HandleOutOfOrderPacket(p);
      }
    }

    // ----- Read -----

    method ConsumeBufferData(n: nat) returns (bytes: seq<byte>)
      modifies `recvBuf
      ensures bytes == Receiving.ReadBytes(old(Rcv()), n)
      ensures Rcv() == Receiving.Consume(old(Rcv()), n)
    {
      var data := recvBuf.Bytes();
      var count := Receiving.Min(n, |data|);
      bytes := data[..count];
      recvBuf := Receiving.Buffer([], recvBuf.size);
      if count < |data| {
        recvBuf := recvBuf.Write(data[count..]);
      }
      assert recvBuf.log == data[count..];
    }

    method HandlePostReadActions(ghost r: Receiving.Receiver, ghost n: nat)
      requires Receiving.Valid(Rcv()) && Rcv() == Receiving.Consume(r, n)
      modifies `recvSeq, `recvBuf, `outOfOrderPackets, `nackList, `wire, `sendingChoke
      ensures Rcv() == Receiving.OnRead(r, n).rcv
      ensures Emits(old(wire), wire, Conn(), Receiving.OnRead(r, n).ctl)
    {
      Receiving.DrainValid(Rcv());
      ghost var before := wire;
      if |outOfOrderPackets| > 0 {
        DeliverBufferedPackets();
      }
      hide Receiving.Consume, Receiving.Drain, IsControl, Receiving.Valid;
      if sendingChoke {
        if 10 * |recvBuf.log| < 3 * recvBuf.size {
          SendUnchokeSignal();
        }
      }
    }

    /** Read once data is there: waiting for it is not a step. */
    method Read(n: nat) returns (bytes: seq<byte>)
      requires Receiving.Valid(Rcv()) && |recvBuf.log| > 0
      modifies `recvSeq, `recvBuf, `outOfOrderPackets, `nackList, `wire, `sendingChoke
      ensures bytes == Receiving.ReadBytes(old(Rcv()), n)
      ensures Conn() == OnRead(old(Conn()), n).conn
      ensures Emits(old(wire), wire, Conn(), OnRead(old(Conn()), n).ctl)
    {
      hide *;
      ghost var r, c := Rcv(), Conn();
      ConnFields();
      Receiving.OnReadValid(r, n);
      Receiving.ConsumeValid(r, n);
      bytes := ConsumeBufferData(n);
      HandlePostReadActions(r, n);
      ConnFields();
      OnReadIs(c, n);
    }

    lemma OnReadIs(c: Connections.Conn, n: nat)
      ensures OnRead(c, n).conn == c.(rcv := Receiving.OnRead(c.rcv, n).rcv) && OnRead(c, n).ctl == Receiving.OnRead(c.rcv, n).ctl
    {
      hide Receiving.OnRead;
    }

    // ----- RTT, timeout, window -----

    method UpdateRttEstimate(sample: int)
      modifies `rtt, `srtt, `rttVariance
      ensures Timer() == Sampled(old(Timer()), sample)
    {
      rtt := sample;
      if srtt == 0 {
        srtt := sample;
        rttVariance := Truncate(sample, 2);
        return;
      }
      var diff := if srtt > sample then srtt - sample else sample - srtt;
      rttVariance := Truncate(3 * rttVariance + diff, 4);
      srtt := Truncate(7 * srtt + sample, 8);
    }

    method CalculateRto()
      modifies `rto
      ensures rto == ConnectionRto(srtt, rttVariance)
    {
      rto := srtt + 4 * rttVariance;
      if rto < MIN_RTO { rto := MIN_RTO; }
      if rto > MAX_RTO { rto := MAX_RTO; }
    }

    method MeasureRtt(sample: int)
      modifies `rtt, `srtt, `rttVariance, `rto
      ensures Timer() == Measured(old(Timer()), sample)
    {
      UpdateRttEstimate(sample);
      hide Sampled, ConnectionRto;
      CalculateRto();
    }

    method MeasureRttFromAck(ack: u32, now: int)
      modifies `rtt, `srtt, `rttVariance, `rto
      ensures Snd() == Sending.MeasureRtt(old(Snd()), ack, now)
    {
      hide Measured;
      if ack !in sentPackets { return; }
      MeasureRtt(now - sentPackets[ack].sentTime);
    }

    method UpdateCongestionWindow()
      modifies `cwnd, `windowSize
      ensures Window(cwnd, ssthresh, windowSize) == Grow(old(Window(cwnd, ssthresh, windowSize)))
    {
      if cwnd < ssthresh {
        cwnd := MinNat(cwnd * 2, ssthresh);
      } else {
        cwnd := MinNat(cwnd + 1, MAX_WINDOW);
      }
      windowSize := cwnd;
    }

    method ReduceCongestionWindow()
      modifies `cwnd, `ssthresh, `windowSize
      ensures Window(cwnd, ssthresh, windowSize) == Reduce(old(Window(cwnd, ssthresh, windowSize)))
    {
      ssthresh := if cwnd / 2 < 2 then 2 else cwnd / 2;
      cwnd := ssthresh;
      windowSize := cwnd;
    }

    // ----- acknowledgements -----

    method CleanupAckedPackets(newAck: u32, nacks: seq<u32>)
      modifies `sentPackets, `nackCounts
      ensures Snd() == Sending.Cleanup(old(Snd()), newAck, nacks)
      ensures forall k: u32 :: k in sentPackets <==> k in old(sentPackets) && !SeqLeq(k, newAck)
      ensures forall k: u32 :: k in nackCounts <==> k in old(nackCounts) && (!SeqLeq(k, newAck) || k in nacks)
    {
      CleanupSentPackets(newAck);
      CleanupNackCounts(newAck, nacks);
    }

    method CleanupSentPackets(newAck: u32)
      modifies `sentPackets
      ensures sentPackets == Sending.Unacked(old(sentPackets), newAck)
    {
      var todo := sentPackets.Keys;
      while todo != {}
        invariant todo <= sentPackets.Keys
        invariant forall k | k in sentPackets :: k in old(sentPackets) && sentPackets[k] == old(sentPackets)[k]
        invariant forall k | k in old(sentPackets) :: k in sentPackets <==> k in todo || !SeqLeq(k, newAck)
        decreases todo
      {
        var k :| k in todo;
        todo := todo - {k};
        if SeqLeq(k, newAck) { sentPackets := sentPackets - {k}; }
      }
    }

    method CleanupNackCounts(newAck: u32, nacks: seq<u32>)
      modifies `nackCounts
      ensures nackCounts == Sending.KeptCounts(old(nackCounts), newAck, nacks)
    {
      var todo := nackCounts.Keys;
      while todo != {}
        invariant todo <= nackCounts.Keys
        invariant forall k | k in nackCounts :: k in old(nackCounts) && nackCounts[k] == old(nackCounts)[k]
        invariant forall k | k in old(nackCounts) ::
                    k in nackCounts <==> k in todo || k in nacks || !SeqLeq(k, newAck)
        decreases todo
      {
        var k :| k in todo;
        todo := todo - {k};
        if k in nacks { continue; }
        if SeqLeq(k, newAck) { nackCounts := nackCounts - {k}; }
      }
    }

    method RetransmitPacket(k: u32, now: int)
      modifies `sentPackets, `wire
      ensures sentPackets == Sending.Retransmit(old(sentPackets), k, now)
      ensures wire == old(wire) + (if k in old(sentPackets) then [old(sentPackets)[k].data] else [])
      ensures wire == old(wire) + Resent(old(sentPackets), [k])
    {
      assert [k][..0] == [] && Resent(sentPackets, []) == [];
      if k !in sentPackets { return; }
      wire := wire + [sentPackets[k].data];
      var info := sentPackets[k];
      info := info.(retryCount := info.retryCount + 1);
      info := info.(sentTime := now);
      sentPackets := sentPackets[k := info];
    }

    method HandleNack(k: u32, halved: bool, now: int, ghost fired: seq<u32>) returns (fires: bool)
      modifies `nackCounts, `sentPackets, `cwnd, `ssthresh, `windowSize, `wire
      ensures Sending.OnNack(Sending.Batch(old(Snd()), halved, fired), k, now)
              == Sending.Batch(Snd(), halved || fires, if fires then fired + [k] else fired)
      ensures wire == old(wire) + if fires then Resent(old(sentPackets), [k]) else []
    {
      hide Resent, Sending.Retransmit, Reduce;
      var count := Sending.Count(nackCounts, k) + 1;
      nackCounts := nackCounts[k := count];
      fires := count >= Sending.FAST_RETRANSMIT_THRESHOLD;
      if fires {
        if !halved {
          ReduceCongestionWindow();
        }
        RetransmitPacket(k, now);
        nackCounts := nackCounts - {k};
        assert nackCounts == old(nackCounts) - {k};
      }
    }

    method HandleNacks(nacks: seq<u32>, now: int) returns (ghost fired: seq<u32>)
      modifies `nackCounts, `sentPackets, `cwnd, `ssthresh, `windowSize, `wire
      ensures Sending.OnNacks(Sending.Batch(old(Snd()), false, []), nacks, now).s == Snd()
      ensures Sending.OnNacks(Sending.Batch(old(Snd()), false, []), nacks, now).fired == fired
      ensures wire == old(wire) + Resent(old(sentPackets), fired)
    {
      hide *;
      fired := [];
      ghost var start := Sending.Batch(Snd(), false, []);
      ghost var sent0 := sentPackets;
      var retransmitTriggered := false;
      SndFields();
      BatchStarts(start, nacks, now);
      for i := 0 to |nacks|
        invariant Sending.OnNacks(start, nacks[..i], now) == Sending.Batch(Snd(), retransmitTriggered, fired)
        invariant SameData(sent0, sentPackets)
        invariant wire == old(wire) + Resent(sent0, fired)
      {
        ghost var sent, resent := sentPackets, Resent(sent0, fired);
        SndFields();
        BatchGoesOn(start, nacks, i, now);
        var fires := HandleNack(nacks[i], retransmitTriggered, now, fired);
        SndFields();
        KeepsData(sent0, sent, sentPackets);
        ResentOne(sent0, sent, fired, nacks[i]);
        if fires {
          retransmitTriggered := true;
          fired := fired + [nacks[i]];
        }
        JoinWire(old(wire), resent, if fires then Resent(sent, [nacks[i]]) else []);
      }
      assert nacks[..|nacks|] == nacks;
    }

    lemma BatchStarts(start: Sending.Batch, nacks: seq<u32>, now: int)
      requires start.fired == []
      ensures Sending.OnNacks(start, nacks[..0], now) == start
      ensures Resent(start.s.sent, []) == [] && SameData(start.s.sent, start.s.sent)
    {
    }

    /** One more NACK of the batch; it changes no stored packet. */
    lemma BatchGoesOn(start: Sending.Batch, nacks: seq<u32>, i: nat, now: int)
      requires i < |nacks|
      ensures var b := Sending.OnNacks(start, nacks[..i], now);
              && Sending.OnNacks(start, nacks[..i + 1], now) == Sending.OnNack(b, nacks[i], now)
              && SameData(b.s.sent, Sending.OnNack(b, nacks[i], now).s.sent)
    {
      assert nacks[..i + 1][..i] == nacks[..i];
    }

    lemma KeepsData(a: map<u32, Sending.SentPacket>, b: map<u32, Sending.SentPacket>, c: map<u32, Sending.SentPacket>)
      requires SameData(a, b) && SameData(b, c)
      ensures SameData(a, c)
    {
    }

    lemma JoinWire(a: seq<Packet>, b: seq<Packet>, c: seq<Packet>)
      ensures (a + b) + c == a + (b + c) && b + [] == b
    {
    }

    static ghost predicate SameData(a: map<u32, Sending.SentPacket>, b: map<u32, Sending.SentPacket>) {
      a.Keys == b.Keys && forall k | k in a :: b[k].data == a[k].data
    }

    lemma ResentOne(first: map<u32, Sending.SentPacket>, later: map<u32, Sending.SentPacket>, fired: seq<u32>, k: u32)
      requires SameData(first, later)
      ensures Resent(first, fired + [k]) == Resent(first, fired) + Resent(later, [k])
    {
      assert (fired + [k])[..|fired|] == fired && [k][..0] == [];
      assert Resent(later, []) == [];
    }

    method HandleOptionalDelay(p: Packet, now: int)
      modifies `choked, `chokedUntil
      ensures Choke(choked, chokedUntil) == OnDelay(old(Choke(choked, chokedUntil)), p, now)
    {
      if !Has(p.flags, Flag.Delay) { return; }
      if p.optionalDelay >= MIN_DELAY_CHOKE {
        choked := true;
        chokedUntil := now + SECOND;
      } else {
        choked := false;
        chokedUntil := 0;
      }
    }

    method AdvanceAck(ack: u32, nacks: seq<u32>, now: int)
      modifies `ackThrough, `rtt, `srtt, `rttVariance, `rto, `sentPackets, `nackCounts, `cwnd, `windowSize
      ensures Snd() == Sending.Advance(old(Snd()), ack, nacks, now)
    {
      ghost var s := Snd();
      ackThrough := ack;
      assert Snd() == s.(ackThrough := ack);
      MeasureRttFromAck(ack, now);
      CleanupAckedPackets(ack, nacks);
      UpdateCongestionWindow();
    }

    method HandleAck(p: Packet, now: int) returns (ghost fired: seq<u32>)
      modifies `ackThrough, `rtt, `srtt, `rttVariance, `rto, `sentPackets, `nackCounts, `cwnd, `ssthresh, `windowSize,
               `wire, `choked, `chokedUntil
      ensures Outcome(Conn(), [], fired) == OnAck(old(Conn()), p, now)
      ensures wire == old(wire) + Resent(sentPackets, fired)
    {
      hide *;
      ghost var c := Conn();
      ConnFields();
      fired := HandleAckNumbers(p, now);
      HandleOptionalDelay(p, now);
      ConnFields();
      OnAckIs(c, p, now, Conn());
    }

    lemma OnAckIs(c: Connections.Conn, p: Packet, now: int, d: Connections.Conn)
      requires d.snd == Sending.OnAck(c.snd, p, now).s && d.choke == OnDelay(c.choke, p, now)
      requires d.rcv == c.rcv && d.state == c.state && d.ids == c.ids
      ensures Outcome(d, [], Sending.OnAck(c.snd, p, now).fired) == OnAck(c, p, now)
    {
      hide Sending.OnAck, OnDelay;
    }

    /** handleAckLocked up to the choke field. */
    method HandleAckNumbers(p: Packet, now: int) returns (ghost fired: seq<u32>)
      modifies `ackThrough, `rtt, `srtt, `rttVariance, `rto, `sentPackets, `nackCounts, `cwnd, `ssthresh, `windowSize, `wire
      ensures Snd() == Sending.OnAck(old(Snd()), p, now).s && fired == Sending.OnAck(old(Snd()), p, now).fired
      ensures wire == old(wire) + Resent(sentPackets, fired)
    {
      hide *;
      SameFields();
      ghost var s := Snd();
      if Has(p.flags, Flag.NoAck) {
      } else if SeqGreater(p.ackThrough, ackThrough) {
        AdvanceAck(p.ackThrough, p.nacks, now);
      }
      Sending.OnAckIs(s, p, now);
      ghost var s1 := Snd();
      SameFields();
      fired := HandleNacks(p.nacks, now);
      SameFields();
      Sending.BatchEffects(s1, p.nacks, now);
      SameResent(s1.sent, sentPackets, fired);
    }

    lemma {:induction false} SameResent(a: map<u32, Sending.SentPacket>, b: map<u32, Sending.SentPacket>, fired: seq<u32>)
      requires a.Keys == b.Keys && forall j | j in a :: b[j].data == a[j].data
      ensures Resent(a, fired) == Resent(b, fired)
    {
      if fired != [] {
        SameResent(a, b, fired[..|fired| - 1]);
      }
    }

    method HandleFinalAck(p: Packet)
      modifies `ackThrough, `state
      ensures Conn() == OnFinalAck(old(Conn()), p).conn
    {
      ackThrough := p.ackThrough;
      state := Established;
    }

    /** The handler of the receive loop, which runs once a SYN was answered or the handshake is
        complete. `verified` is the outcome of checking the packet's signature,
        `dest` and `signature` go into a CLOSE sent in return. */
    method ProcessPacket(p: Packet, now: int, verified: bool, dest: Destination, signature: seq<byte>)
      returns (ghost fired: seq<u32>)
      requires Valid() && state != SynSent
      modifies this
      ensures Valid() && state != SynSent
      ensures Conn() == Teardown.Dispatch(old(Conn()), p, now, verified)
      ensures closed == (old(closed) || Teardown.Ends(old(Conn()), p, verified))
      ensures !Has(p.flags, Flag.Close) && !Has(p.flags, Flag.Reset) ==>
                var o := OnPacket(old(Conn()), p, now);
                && Conn() == o.conn && fired == o.fired
                && (o.fired == [] ==> Emits(old(wire), wire, Conn(), o.ctl))
                && (o.ctl == [] ==> wire == old(wire) + Resent(sentPackets, fired))
      ensures Has(p.flags, Flag.Close) && !Handshake.IsSynAck(p) ==>
                wire == old(wire) + if Teardown.Ends(old(Conn()), p, verified) && old(state) == Established
                                    then [Teardown.ClosePacket(old(Conn()), dest, signature)] else []
    {
      hide *;
      ghost var c, wire0 := Conn(), wire;
      ConnFields();
      ValidIs();
      Teardown.DispatchValid(c, p, now, verified);
      Teardown.DispatchIs(c, p, now, verified);
      NothingSent(wire, Conn());
      fired := [];
      if Has(p.flags, Flag.Syn) && p.sendStreamID > 0 {
      } else if state == SynRcvd && !Has(p.flags, Flag.Syn) && !Has(p.flags, Flag.Close) && !Has(p.flags, Flag.Reset) {
        HandleFinalAck(p);
      } else if Has(p.flags, Flag.Close) {
        HandleClose(p, verified, dest, signature);
      } else if Has(p.flags, Flag.Reset) {
        HandleReset(p, verified);
      } else if p.sequenceNum == 0 && !Has(p.flags, Flag.Syn) {
        fired := HandleAck(p, now);
      } else if |p.payload| > 0 {
        HandleData(p);
      }
      ConnFields();
      ValidIs();
      NothingSent(wire, Conn());
      NothingResent(sentPackets, wire0);
    }

    /** handleCloseLocked. */
    method HandleClose(p: Packet, verified: bool, dest: Destination, signature: seq<byte>)
      modifies `state, `closed, `wire
      ensures Conn() == Teardown.OnClose(old(Conn()), p, verified)
      ensures var ends := Teardown.Genuine(p, verified) && (old(state) == Established || old(state) == Closing);
              && closed == (old(closed) || ends)
              && wire == old(wire) + if ends && old(state) == Established
                                     then [Teardown.ClosePacket(old(Conn()), dest, signature)] else []
    {
      hide Snd, Rcv, Has, Teardown.ClosePacket;
      if Has(p.flags, Flag.Signed) && !verified { return; }
      match state
      case Established =>
        wire := wire + [Teardown.ClosePacket(Conn(), dest, signature)];
        state := ConnState.Closed;
        closed := true;
      case Closing =>
        state := ConnState.Closed;
        closed := true;
      case _ =>
    }

    /** handleResetLocked. */
    method HandleReset(p: Packet, verified: bool)
      modifies `state, `closed
      ensures Conn() == Teardown.OnReset(old(Conn()), p, verified)
      ensures closed == (old(closed) || Teardown.Genuine(p, verified))
    {
      hide Snd, Rcv, Has;
      if Has(p.flags, Flag.Signed) && !verified { return; }
      state := ConnState.Closed;
      closed := true;
    }

    lemma ValidIs()
      ensures Valid() <==> Connections.Valid(Conn())
      ensures Valid() ==> Receiving.Valid(Rcv())
    {
    }

    lemma NothingSent(wire: seq<Packet>, c: Connections.Conn)
      ensures Emits(wire, wire, c, [])
    {
    }

    lemma NothingResent(sent: map<u32, Sending.SentPacket>, before: seq<Packet>)
      ensures Resent(sent, []) == [] && before + [] == before
      ensures forall after: seq<Packet>, c: Connections.Conn :: Emits(before, after, c, []) ==> after == before
    {
      forall after: seq<Packet>, c: Connections.Conn | Emits(before, after, c, []) ensures after == before {
        assert after == after[..|before|] + after[|before|..];
      }
    }

    // ----- Write -----

    method SendDataChunk(chunk: seq<byte>, now: int)
      modifies `sendSeq, `sentPackets, `wire
      ensures Conn() == SendAny(old(Conn()), chunk, now)
      ensures wire == old(wire) + [DataPacket(old(Conn()), chunk)]
      ensures |sentPackets| <= |old(sentPackets)| + 1
    {
      hide *;
      ghost var c := Conn();
      NextPacketIs(chunk);
      var p := PlainPacket(localStreamID, remoteStreamID, sendSeq, Wrap(recvSeq - 1), [], ResendDelay(rto), chunk);
      TrackPacketForRetransmission(p, now);
      wire := wire + [p];
      sendSeq := Wrap(sendSeq + 1);
      ConnFields();
      SndFields();
      NowSent(c, p, chunk, now);
    }

    lemma NextPacketIs(chunk: seq<byte>)
      ensures DataPacket(Conn(), chunk)
              == PlainPacket(localStreamID, remoteStreamID, sendSeq, Wrap(recvSeq - 1), [], ResendDelay(rto), chunk)
      ensures DataPacket(Conn(), chunk).payload == chunk && DataPacket(Conn(), chunk).sequenceNum == sendSeq
      ensures Conn().snd.sent == sentPackets && Conn().snd.sendSeq == sendSeq
      ensures Conn() == Connections.Conn(Snd(), Rcv(), Choke(choked, chokedUntil), state,
                                         Ids(localStreamID, remoteStreamID, localMTU, remoteMTU))
      ensures Snd() == Sending.Sender(sendSeq, ackThrough, sentPackets, nackCounts, Window(cwnd, ssthresh, windowSize), Timer())
    {
      hide ResendDelay, Wrap;
    }

    /** The connection once the packet is tracked and the number has moved on. */
    lemma NowSent(c: Connections.Conn, p: Packet, chunk: seq<byte>, now: int)
      requires p == DataPacket(c, chunk)
      requires sentPackets == if chunk == [] then c.snd.sent else c.snd.sent[c.snd.sendSeq := Sending.SentPacket(p, now, 0)]
      requires sendSeq == Wrap(c.snd.sendSeq + 1)
      requires Conn() == c.(snd := Snd()) && Snd() == c.snd.(sent := sentPackets, sendSeq := sendSeq)
      ensures Conn() == SendAny(c, chunk, now)
    {
      hide DataPacket, Wrap;
    }

    /** Only packets with a payload are tracked. */
    method TrackPacketForRetransmission(p: Packet, now: int)
      modifies `sentPackets
      ensures sentPackets == if |p.payload| == 0 then old(sentPackets)
                             else old(sentPackets)[p.sequenceNum := Sending.SentPacket(p, now, 0)]
      ensures |sentPackets| <= |old(sentPackets)| + 1
    {
      if |p.payload| == 0 { return; }
      sentPackets := sentPackets[p.sequenceNum := Sending.SentPacket(p, now, 0)];
      assert sentPackets.Keys == old(sentPackets).Keys + {p.sequenceNum};
    }

    /** The stretch of Write between two waits for window space; returns the bytes taken. */
    method WriteChunks(data: seq<byte>, now: int) returns (written: nat, ghost chunks: seq<seq<byte>>)
      requires NegotiatedMTU(Conn().ids) > 0
      modifies `sendSeq, `sentPackets, `wire
      ensures chunks == Chunks(old(Conn()), data, now)
      ensures Conn() == SendAll(old(Conn()), chunks, now)
      ensures wire == old(wire) + DataPackets(old(Conn()), chunks, now)
      ensures written <= |data| && Receiving.Concat(chunks) == data[..written]
      ensures written == |data| || |sentPackets| >= cwnd
      ensures |sentPackets| <= |old(sentPackets)| || |sentPackets| <= cwnd
      ensures |wire| == |old(wire)| + |chunks|
      ensures forall i | 0 <= i < |chunks| ::
                && wire[|old(wire)| + i].payload == chunks[i] == Piece(data, NegotiatedMTU(old(Conn()).ids), i) != []
                && wire[|old(wire)| + i].sequenceNum == Wrap(old(sendSeq) + i)
    {
      hide *;
      var rest := data;
      ghost var start := Conn();
      ghost var added := [];
      ConnFields();
      SndFields();
      chunks := [];
      written := 0;
      NothingTaken(start, data, now);
      while |rest| > 0 && |sentPackets| < cwnd
        invariant written <= |data| && rest == data[written..]
        invariant Taken(start, data, now, chunks, written, Conn(), added)
        invariant wire == old(wire) + added
        invariant |sentPackets| <= |old(sentPackets)| || |sentPackets| <= cwnd
        decreases |rest|
      {
        ghost var c := Conn();
        OpenWindow();
        TakenMeans(start, data, now, chunks, written, c, added);
        var chunk := SendNextChunk(rest, now);
        TakeOne(start, data, now, chunks, written, c, added, chunk);
        added := added + [DataPacket(c, chunk)];
        chunks := chunks + [chunk];
        written := written + |chunk|;
        rest := rest[|chunk|..];
      }
      OpenWindow();
      AllTaken(start, data, now, chunks, written, Conn(), added);
      DataPacketsCount(start, chunks, now);
      forall i | 0 <= i < |chunks|
        ensures |added| == |chunks| && added[i].payload == chunks[i] == Piece(data, NegotiatedMTU(start.ids), i) != []
        ensures added[i].sequenceNum == Wrap(old(sendSeq) + i)
      {
        ChunksAreCut(start, data, now, i);
        DataPacketsAre(start, chunks, now, i);
      }
    }

    /** The loop of Write in progress: so far `written` bytes went out as `chunks`. */
    static ghost predicate Taken(start: Connections.Conn, data: seq<byte>, now: int, chunks: seq<seq<byte>>,
                                 written: nat, c: Connections.Conn, added: seq<Packet>)
    {
      && written <= |data| && Receiving.Concat(chunks) == data[..written]
      && c == SendAll(start, chunks, now) && added == DataPackets(start, chunks, now)
      && NegotiatedMTU(c.ids) > 0 && NegotiatedMTU(start.ids) > 0
      && chunks + Chunks(c, data[written..], now) == Chunks(start, data, now)
    }

    lemma NothingTaken(start: Connections.Conn, data: seq<byte>, now: int)
      requires NegotiatedMTU(start.ids) > 0
      ensures Taken(start, data, now, [], 0, start, [])
    {
      hide NegotiatedMTU, Chunks;
      assert data[0..] == data && [] + Chunks(start, data, now) == Chunks(start, data, now);
    }

    lemma TakenMeans(start: Connections.Conn, data: seq<byte>, now: int, chunks: seq<seq<byte>>,
                     written: nat, c: Connections.Conn, added: seq<Packet>)
      requires Taken(start, data, now, chunks, written, c, added)
      ensures NegotiatedMTU(c.ids) > 0
    {
      hide NegotiatedMTU, Chunks;
    }

    lemma TakeOne(start: Connections.Conn, data: seq<byte>, now: int, chunks: seq<seq<byte>>,
                  written: nat, c: Connections.Conn, added: seq<Packet>, chunk: seq<byte>)
      requires Taken(start, data, now, chunks, written, c, added) && written < |data| && WindowOpen(c)
      requires chunk == NextChunk(c, data[written..]) && 0 < |chunk| <= |data| - written
      ensures data[written..][|chunk|..] == data[written + |chunk|..]
      ensures Taken(start, data, now, chunks + [chunk], written + |chunk|, SendChunk(c, chunk, now),
                    added + [DataPacket(c, chunk)])
    {
      hide *;
      var d := SendChunk(c, chunk, now);
      TakenIs(start, data, now, chunks, written, c, added);
      ChunksStep(c, data[written..], now);
      OneMoreChunk(start, chunks, chunk, now);
      assert data[written..][|chunk|..] == data[written + |chunk|..];
      AppendChunk(chunks, chunk, Chunks(d, data[written + |chunk|..], now));
      JoinChunk(chunks, chunk, data, written);
      TakenIs(start, data, now, chunks + [chunk], written + |chunk|, d, added + [DataPacket(c, chunk)]);
    }

    lemma TakenIs(start: Connections.Conn, data: seq<byte>, now: int, chunks: seq<seq<byte>>,
                  written: nat, c: Connections.Conn, added: seq<Packet>)
      ensures Taken(start, data, now, chunks, written, c, added) <==>
                && written <= |data| && Receiving.Concat(chunks) == data[..written]
                && c == SendAll(start, chunks, now) && added == DataPackets(start, chunks, now)
                && NegotiatedMTU(c.ids) > 0 && NegotiatedMTU(start.ids) > 0
                && chunks + Chunks(c, data[written..], now) == Chunks(start, data, now)
    {
      hide Receiving.Concat, SendAll, DataPackets, NegotiatedMTU, Chunks;
    }

    lemma AllTaken(start: Connections.Conn, data: seq<byte>, now: int, chunks: seq<seq<byte>>,
                   written: nat, c: Connections.Conn, added: seq<Packet>)
      requires Taken(start, data, now, chunks, written, c, added) && (written == |data| || !WindowOpen(c))
      ensures chunks == Chunks(start, data, now) && c == SendAll(start, chunks, now)
      ensures added == DataPackets(start, chunks, now)
      ensures written <= |data| && Receiving.Concat(chunks) == data[..written]
    {
      hide *;
      TakenIs(start, data, now, chunks, written, c, added);
      NoChunks(c, data[written..], now);
      assert chunks + [] == chunks;
    }

    method SendNextChunk(rest: seq<byte>, now: int) returns (chunk: seq<byte>)
      requires NegotiatedMTU(Conn().ids) > 0 && |rest| > 0
      modifies `sendSeq, `sentPackets, `wire
      ensures chunk == NextChunk(old(Conn()), rest) && 0 < |chunk| <= |rest| && chunk == rest[..|chunk|]
      ensures Conn() == SendChunk(old(Conn()), chunk, now)
      ensures NegotiatedMTU(Conn().ids) == NegotiatedMTU(old(Conn()).ids)
      ensures wire == old(wire) + [DataPacket(old(Conn()), chunk)]
      ensures |sentPackets| <= |old(sentPackets)| + 1
    {
      var mtu := NegotiatedMTU(Ids(localStreamID, remoteStreamID, localMTU, remoteMTU));
      hide DataPacket, Sending.Track;
      chunk := rest;
      if |chunk| > mtu { chunk := rest[..mtu]; }
      SendDataChunk(chunk, now);
    }

    lemma OpenWindow()
      ensures WindowOpen(Conn()) <==> |sentPackets| < cwnd
    {
    }

    lemma ChunksStep(c: Connections.Conn, rest: seq<byte>, now: int)
      requires NegotiatedMTU(c.ids) > 0 && rest != [] && WindowOpen(c)
      ensures var chunk := NextChunk(c, rest);
              && |chunk| <= |rest| && chunk == rest[..|chunk|] && NegotiatedMTU(SendChunk(c, chunk, now).ids) > 0
              && Chunks(c, rest, now) == [chunk] + Chunks(SendChunk(c, chunk, now), rest[|chunk|..], now)
    {
    }

    lemma NoChunks(c: Connections.Conn, rest: seq<byte>, now: int)
      requires NegotiatedMTU(c.ids) > 0 && (rest == [] || !WindowOpen(c))
      ensures Chunks(c, rest, now) == []
    {
    }

    lemma OneMoreChunk(c: Connections.Conn, chunks: seq<seq<byte>>, x: seq<byte>, now: int)
      ensures SendAll(c, chunks + [x], now) == SendChunk(SendAll(c, chunks, now), x, now)
      ensures DataPackets(c, chunks + [x], now) == DataPackets(c, chunks, now) + [DataPacket(SendAll(c, chunks, now), x)]
    {
      assert (chunks + [x])[..|chunks|] == chunks;
    }

    lemma JoinChunk(chunks: seq<seq<byte>>, x: seq<byte>, data: seq<byte>, written: nat)
      requires written + |x| <= |data| && x == data[written..][..|x|]
      requires Receiving.Concat(chunks) == data[..written]
      ensures Receiving.Concat(chunks + [x]) == data[..written + |x|]
    {
      Receiving.ConcatAppend(chunks, [x]);
      assert Receiving.Concat([x]) == x;
    }

    lemma AppendChunk(a: seq<seq<byte>>, x: seq<byte>, b: seq<seq<byte>>)
      ensures a + ([x] + b) == (a + [x]) + b
    {
    }

    // ----- timeouts -----

    method FindTimedOutPackets(now: int) returns (due: set<u32>)
      ensures due == Sending.TimedOut(Snd(), now)
    {
      due := {};
      var todo := sentPackets.Keys;
      while todo != {}
        invariant todo <= sentPackets.Keys
        invariant forall k | k in sentPackets && k !in todo ::
                    k in due <==> now - sentPackets[k].sentTime > rto
        invariant due <= sentPackets.Keys - todo
        decreases todo
      {
        var k :| k in todo;
        todo := todo - {k};
        if now - sentPackets[k].sentTime > rto { due := due + {k}; }
      }
    }

    method ApplyExponentialBackoff()
      modifies `rto
      ensures rto == Backoff(old(rto))
    {
      rto := rto * 2;
      if rto > MAX_RTO { rto := MAX_RTO; }
    }

    /** Resends in the order of some iteration, each packet once; stops at a packet that has been
        resent eight times. */
    method RetransmitTimedOutPackets(due: set<u32>, now: int) returns (gaveUp: bool, ghost done: set<u32>, ghost order: seq<u32>)
      requires due <= sentPackets.Keys
      modifies `sentPackets, `wire
      ensures done <= due && sentPackets == Sending.Resend(old(sentPackets), done, now)
      ensures forall k | k in done :: old(sentPackets)[k].retryCount < 8
      ensures if gaveUp then exists k :: k in due && old(sentPackets)[k].retryCount >= 8 else done == due
      ensures forall k: u32 :: k in order <==> k in done
      ensures forall i, j | 0 <= i < j < |order| :: order[i] != order[j]
      ensures |wire| == |old(wire)| + |order| && wire[..|old(wire)|] == old(wire)
      ensures forall i | 0 <= i < |order| :: wire[|old(wire)| + i] == old(sentPackets)[order[i]].data
    {
      var todo := due;
      done := {};
      order := [];
      gaveUp := false;
      ghost var before := sentPackets;
      NothingSentYet(wire, before);
      while todo != {}
        invariant todo <= due && done == due - todo
        invariant sentPackets == Sending.Resend(before, done, now)
        invariant forall k | k in done :: before[k].retryCount < 8
        invariant Listed(order, done) && SentInOrder(old(wire), wire, before, order)
        decreases todo
      {
        var k :| k in todo;
        todo := todo - {k};
        if sentPackets[k].retryCount >= Sending.MAX_RETRANSMISSIONS {
          gaveUp := true;
          return;
        }
        SentOneMore(old(wire), wire, before, order, k);
        ListedOneMore(order, done, k);
        RetransmitPacket(k, now);
        order := order + [k];
        done := done + {k};
      }
    }

    /** `after` is `before` followed by the packets stored under the listed numbers. */
    static ghost predicate SentInOrder(before: seq<Packet>, after: seq<Packet>, sent: map<u32, Sending.SentPacket>, order: seq<u32>) {
      && |after| == |before| + |order| && after[..|before|] == before
      && forall i | 0 <= i < |order| :: order[i] in sent && after[|before| + i] == sent[order[i]].data
    }

    static ghost predicate Listed(order: seq<u32>, done: set<u32>) {
      && (forall k: u32 :: k in order <==> k in done)
      && forall i, j | 0 <= i < j < |order| :: order[i] != order[j]
    }

    lemma NothingSentYet(before: seq<Packet>, sent: map<u32, Sending.SentPacket>)
      ensures SentInOrder(before, before, sent, [])
      ensures Listed([], {})
    {
    }

    lemma SentOneMore(before: seq<Packet>, after: seq<Packet>, sent: map<u32, Sending.SentPacket>, order: seq<u32>, k: u32)
      requires SentInOrder(before, after, sent, order) && k in sent
      ensures SentInOrder(before, after + [sent[k].data], sent, order + [k])
    {
    }

    lemma ListedOneMore(order: seq<u32>, done: set<u32>, k: u32)
      requires Listed(order, done) && k !in done
      ensures Listed(order + [k], done + {k})
    {
    }

    /** One tick. Unless it gives up, it puts exactly the overdue packets on the wire, each once;
        it gives up exactly at an overdue packet that has been resent eight times. */
    method CheckRetransmissions(now: int) returns (gaveUp: bool, ghost done: set<u32>, ghost order: seq<u32>)
      modifies `rto, `sentPackets, `wire
      ensures old(rto) == 0 ==> Snd() == old(Snd()) && wire == old(wire) && !gaveUp
      ensures old(rto) != 0 ==>
                Sending.TickOutcome(old(Snd()), now, done, gaveUp) && Snd() == Sending.Ticked(old(Snd()), now, done)
      ensures forall i, j | 0 <= i < j < |order| :: order[i] != order[j]
      ensures |wire| == |old(wire)| + |order| && wire[..|old(wire)|] == old(wire)
      ensures forall i | 0 <= i < |order| :: order[i] in done && wire[|old(wire)| + i] == old(sentPackets)[order[i]].data
      ensures forall k | k in done :: k in order && k in old(sentPackets) && now - old(sentPackets)[k].sentTime > old(rto)
      ensures old(rto) != 0 && !gaveUp ==>
                forall k: u32 :: k in order <==> k in old(sentPackets) && now - old(sentPackets)[k].sentTime > old(rto)
      ensures old(rto) != 0 ==>
                (gaveUp <==> exists k :: k in old(sentPackets) && now - old(sentPackets)[k].sentTime > old(rto)
                                         && old(sentPackets)[k].retryCount >= 8)
    {
      if rto == 0 { return false, {}, []; }
      var due := FindTimedOutPackets(now);
      if |due| == 0 { return false, {}, []; }
      ApplyExponentialBackoff();
      gaveUp, done, order := RetransmitTimedOutPackets(due, now);
    }
  }
}
