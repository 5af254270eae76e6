/** The three-way handshake: what each side makes of SYN, SYN-ACK and the final ACK, and
    what they agree on afterwards. */
module Handshake {
  import opened Serial
  import opened Packets
  import opened Timing
  import opened Congestion
  import opened Connections
  import Codec
  import CodecProofs
  import Delivery
  import Protocol
  import Receiving
  import Sending

  const DEFAULT_MTU: u16 := 1730
  const ECIES_MTU: u16 := 1812
  const MIN_MTU: u16 := 512
  const RECEIVE_BUFFER := 65536

  // SYN | SIGNED | FROM | MAX_SIZE | NO_ACK, and without NO_ACK; PROFILE_INTERACTIVE adds 256.
  const SYN_FLAGS: u16 := 1193
  const SYN_ACK_FLAGS: u16 := 169

  /** The MTUs that Dial takes; a listener takes anything from the minimum on. */
  predicate DialAccepts(mtu: int) {
    mtu >= MIN_MTU && (mtu <= DEFAULT_MTU || mtu == ECIES_MTU)
  }

  function Uint16(x: int): u16 {
    x % 0x1_0000
  }

  /** Everything random, configured or cached that one side brings along. */
  datatype Party = Party(isn: u32, id: u32, mtu: int, dest: Destination, signature: seq<byte>,
                         interactive: bool, window: Window, timer: Timer)

  function NewConn(p: Party, recvSeq: u32, remoteID: u32, remoteMTU: u16): Conn {
    Conn(Sending.Sender(p.isn, 0, map[], map[], p.window, p.timer),
         Receiving.Receiver(recvSeq, map[], {}, Receiving.Buffer([], RECEIVE_BUFFER), false, 0),
         Choke(false, 0), Init, Ids(p.id, remoteID, Uint16(p.mtu), remoteMTU))
  }

  /** initializeStreamConn. */
  function NewClient(p: Party): Conn {
    NewConn(p, 0, 0, 0)
  }

  /** Sending a SYN or SYN-ACK uses up one sequence number. */
  function Numbered(c: Conn, state: ConnState): Conn {
    c.(snd := c.snd.(sendSeq := Wrap(c.snd.sendSeq + 1)), state := state)
  }

  function SynPacket(c: Conn, p: Party, nacks: seq<u32>): Packet {
    Packet(0, c.ids.localStreamID, c.snd.sendSeq, 0, SYN_FLAGS + (if p.interactive then 256 else 0), nacks,
           0, 0, c.ids.localMTU, Some(p.dest), p.signature, None, [])
  }

  /** extractRemoteMTU; extractRemoteMTUFromSynAck decides the same way. */
  function OfferedMTU(p: Packet): u16 {
    if Has(p.flags, Flag.MaxSize) && p.maxPacketSize > 0 then p.maxPacketSize else DEFAULT_MTU
  }

  /** initConnectionState. */
  function NewServer(p: Party, syn: Packet): Conn {
    NewConn(p, Wrap(syn.sequenceNum + 1), syn.recvStreamID, OfferedMTU(syn))
  }

  function SynAckPacket(c: Conn, p: Party): Packet {
    Packet(c.ids.localStreamID, c.ids.remoteStreamID, c.snd.sendSeq, Wrap(c.rcv.recvSeq - 1),
           SYN_ACK_FLAGS + (if p.interactive then 256 else 0), [],
           0, 0, c.ids.localMTU, Some(p.dest), p.signature, None, [])
  }

  predicate IsSyn(p: Packet) {
    Has(p.flags, Flag.Syn) && p.sendStreamID == 0
  }

  predicate IsSynAck(p: Packet) {
    Has(p.flags, Flag.Syn) && p.sendStreamID > 0
  }

  /** processSynAck: nothing if it does not acknowledge our SYN. */
  function OnSynAck(c: Conn, p: Packet): Option<Conn> {
    if p.ackThrough != Wrap(c.snd.sendSeq - 1) then None
    else Some(c.(rcv := c.rcv.(recvSeq := Wrap(p.sequenceNum + 1)),
                 snd := c.snd.(ackThrough := p.ackThrough),
                 ids := c.ids.(remoteStreamID := p.sendStreamID, remoteMTU := OfferedMTU(p))))
  }

  lemma OnSynAckIs(c: Conn, p: Packet)
    ensures OnSynAck(c, p).Some? <==> p.ackThrough == Wrap(c.snd.sendSeq - 1)
    ensures OnSynAck(c, p).Some? ==>
              OnSynAck(c, p).value == c.(rcv := c.rcv.(recvSeq := Wrap(p.sequenceNum + 1)),
                                         snd := c.snd.(ackThrough := p.ackThrough),
                                         ids := c.ids.(remoteStreamID := p.sendStreamID, remoteMTU := OfferedMTU(p)))
  {
    hide Wrap, OfferedMTU;
  }

  /** sendACK: the list of missing numbers is still empty. */
  function FinalAckPacket(c: Conn): Packet {
    PlainPacket(c.ids.localStreamID, c.ids.remoteStreamID, 0, Wrap(c.rcv.recvSeq - 1), [], 0, [])
  }

  lemma FinalAckIgnoresState(c: Conn)
    ensures forall state :: FinalAckPacket(c.(state := state)) == FinalAckPacket(c)
  {
    hide Wrap;
  }

  // ----- what SYN and SYN-ACK tell the other side -----

  /** A SYN that announces c, which has just sent it: it asks for no acknowledgement to be read,
      and whatever listener opens a connection for it expects the number that c will send next
      and knows c's stream identifier and MTU. */
  ghost predicate Announces(syn: Packet, c: Conn) {
    && IsSyn(syn) && Has(syn.flags, Flag.NoAck)
    && forall b: Party ::
         var s := NewServer(b, syn);
         && s.rcv.recvSeq == c.snd.sendSeq && s.ids.remoteStreamID == c.ids.localStreamID
         && s.ids.remoteMTU == if c.ids.localMTU > 0 then c.ids.localMTU else DEFAULT_MTU
  }

  lemma SynAnnounces(c: Conn, p: Party, hash: seq<u32>)
    ensures Announces(SynPacket(c, p, hash), Numbered(c, SynSent))
  {
    var syn := SynPacket(c, p, hash);
    forall b: Party
      ensures var s := NewServer(b, syn);
              && s.rcv.recvSeq == Wrap(c.snd.sendSeq + 1) && s.ids.remoteStreamID == c.ids.localStreamID
              && s.ids.remoteMTU == OfferedMTU(syn)
    {
    }
    hide Wrap, NewServer;
  }

  /** A SYN-ACK that answers for c, which has just sent it: a client takes it if and only if c
      expects the number that the client will send next, and then expects what c will send. */
  ghost predicate Answers(synAck: Packet, c: Conn) {
    && (c.ids.localStreamID > 0 ==> IsSynAck(synAck)) && !Has(synAck.flags, Flag.NoAck)
    && forall d: Conn ::
         && (OnSynAck(d, synAck).Some? <==> c.rcv.recvSeq == d.snd.sendSeq)
         && (OnSynAck(d, synAck).Some? ==>
               var e := OnSynAck(d, synAck).value;
               && e.rcv.recvSeq == c.snd.sendSeq && e.ids.remoteStreamID == c.ids.localStreamID
               && e.ids.remoteMTU == if c.ids.localMTU > 0 then c.ids.localMTU else DEFAULT_MTU)
  }

  lemma SynAckAnswers(c: Conn, p: Party)
    ensures Answers(SynAckPacket(c, p), Numbered(c, SynRcvd))
  {
    var synAck := SynAckPacket(c, p);
    assert OfferedMTU(synAck) == if c.ids.localMTU > 0 then c.ids.localMTU else DEFAULT_MTU;
    forall d: Conn
      ensures OnSynAck(d, synAck).Some? <==> c.rcv.recvSeq == d.snd.sendSeq
      ensures OnSynAck(d, synAck).Some? ==>
                var e := OnSynAck(d, synAck).value;
                && e.rcv.recvSeq == Wrap(c.snd.sendSeq + 1) && e.ids.remoteStreamID == c.ids.localStreamID
                && e.ids.remoteMTU == OfferedMTU(synAck)
    {
      PredecessorsAgree(c.rcv.recvSeq, d.snd.sendSeq);
      OnSynAckIs(d, synAck);
    }
    hide Wrap, OnSynAck, OfferedMTU;
  }

  lemma PredecessorsAgree(j: u32, k: u32)
    ensures Wrap(j - 1) == Wrap(k - 1) <==> j == k
  {
  }

  // ----- client, one listener, and the network between them -----

  datatype Setup = Setup(a: Party, b: Party, hash: seq<u32>)

  /** Packets stay deliverable for ever; the client gives up if it refuses a SYN-ACK. */
  datatype Net = Net(client: Conn, server: Option<Conn>, toServer: set<Packet>, toClient: set<Packet>, failed: bool)

  function Begin(s: Setup): Net {
    Net(NewClient(s.a), None, {}, {}, false)
  }

  function SynSentBy(s: Setup, n: Net): Net {
    n.(client := Numbered(n.client, SynSent), toServer := n.toServer + {SynPacket(n.client, s.a, s.hash)})
  }

  function ServerOpened(s: Setup, n: Net, syn: Packet): Net {
    var c := NewServer(s.b, syn);
    n.(server := Some(Numbered(c, SynRcvd)), toClient := n.toClient + {SynAckPacket(c, s.b)})
  }

  function ClientDone(n: Net, p: Packet): Net {
    match OnSynAck(n.client, p)
    case None => n.(failed := true)
    case Some(c) => n.(client := c.(state := Established), toServer := n.toServer + {FinalAckPacket(c)})
  }

  /** One SYN, one listener; every packet may be lost, repeated or reordered. Once its receive
      loop runs, a side handles packets by dispatchPacketByFlags. */
  ghost predicate Next(s: Setup, n: Net, n': Net) {
    || (n.client.state == Init && n' == SynSentBy(s, n))
    || (n.server.None? && exists p :: p in n.toServer && IsSyn(p) && n' == ServerOpened(s, n, p))
    || (n.client.state == SynSent && !n.failed && exists p :: p in n.toClient && IsSynAck(p) && n' == ClientDone(n, p))
    || (n.client.state == Established
        && exists p, now :: p in n.toClient && n' == n.(client := OnPacket(n.client, p, now).conn))
    || (n.server.Some?
        && exists p, now :: p in n.toServer && !IsSyn(p) && n' == n.(server := Some(OnPacket(n.server.value, p, now).conn)))
  }

  ghost predicate IsRun(s: Setup, run: seq<Net>) {
    && run != [] && run[0] == Begin(s)
    && forall i | 0 <= i < |run| - 1 :: Next(s, run[i], run[i + 1])
  }

  /** Random stream identifiers of listeners are never 0; cached windows are within bounds. */
  predicate Sensible(s: Setup) {
    && s.b.id > 0 && DialAccepts(s.a.mtu) && s.b.mtu >= MIN_MTU
    && InBounds(s.a.window) && InBounds(s.b.window)
  }

  // ----- the five states -----

  function SynOf(s: Setup): Packet {
    SynPacket(NewClient(s.a), s.a, s.hash)
  }

  function ServerOf(s: Setup): Conn {
    Numbered(NewServer(s.b, SynOf(s)), SynRcvd)
  }

  function SynAckOf(s: Setup): Packet {
    SynAckPacket(NewServer(s.b, SynOf(s)), s.b)
  }

  function ClientOf(s: Setup): Conn {
    var c := Numbered(NewClient(s.a), SynSent);
    c.(rcv := c.rcv.(recvSeq := Wrap(s.b.isn + 1)),
       snd := c.snd.(ackThrough := s.a.isn),
       ids := c.ids.(remoteStreamID := s.b.id, remoteMTU := OfferedMTU(SynAckOf(s))),
       state := Established)
  }

  function ServerDone(s: Setup): Conn {
    var c := ServerOf(s);
    c.(snd := c.snd.(ackThrough := s.b.isn), state := Established)
  }

  /** Nothing sent; SYN sent; SYN answered; client established; both established. */
  function Phase(s: Setup, i: nat): Net {
    if i == 0 then Begin(s)
    else if i == 1 then Net(Numbered(NewClient(s.a), SynSent), None, {SynOf(s)}, {}, false)
    else if i == 2 then Net(Numbered(NewClient(s.a), SynSent), Some(ServerOf(s)), {SynOf(s)}, {SynAckOf(s)}, false)
    else if i == 3 then Net(ClientOf(s), Some(ServerOf(s)), {SynOf(s), FinalAckPacket(ClientOf(s))}, {SynAckOf(s)}, false)
    else Net(ClientOf(s), Some(ServerDone(s)), {SynOf(s), FinalAckPacket(ClientOf(s))}, {SynAckOf(s)}, false)
  }

  lemma SynAckAccepted(s: Setup)
    requires Sensible(s)
    ensures IsSyn(SynOf(s)) && IsSynAck(SynAckOf(s)) && !IsSynAck(SynOf(s))
    ensures var c := Numbered(NewClient(s.a), SynSent);
            && OnSynAck(c, SynAckOf(s)).Some?
            && OnSynAck(c, SynAckOf(s)).value.(state := Established) == ClientOf(s)
            && FinalAckPacket(OnSynAck(c, SynAckOf(s)).value) == FinalAckPacket(ClientOf(s))
  {
    WrapAdd(s.a.isn, 1);
    assert Wrap(Wrap(s.a.isn + 1) - 1) == s.a.isn by { WrapAdd(s.a.isn + 1, -1); }
    hide Wrap;
  }

  /** The final ACK establishes the server; coming again it changes nothing. */
  lemma FinalAckAccepted(s: Setup, now: int)
    ensures OnPacket(ServerOf(s), FinalAckPacket(ClientOf(s)), now).conn == ServerDone(s)
    ensures OnPacket(ServerDone(s), FinalAckPacket(ClientOf(s)), now).conn == ServerDone(s)
    ensures !IsSyn(FinalAckPacket(ClientOf(s)))
  {
    assert Wrap(Wrap(s.b.isn + 1) - 1) == s.b.isn by { WrapAdd(s.b.isn + 1, -1); }
    assert !SeqGreater(s.b.isn, s.b.isn);
    hide Wrap, SeqGreater, OfferedMTU, Uint16;
  }

  lemma SynAckAgain(s: Setup, now: int)
    requires Sensible(s)
    ensures OnPacket(ClientOf(s), SynAckOf(s), now).conn == ClientOf(s)
  {
    hide Wrap, OfferedMTU, Uint16;
  }

  lemma StepFrom0(s: Setup, n': Net)
    requires Next(s, Phase(s, 0), n')
    ensures n' == Phase(s, 1)
  {
    hide SynPacket, OnPacket;
    assert {} + {SynOf(s)} == {SynOf(s)};
  }

  lemma StepFrom1(s: Setup, n': Net)
    requires Sensible(s) && Next(s, Phase(s, 1), n')
    ensures n' == Phase(s, 2)
  {
    hide SynPacket, SynAckPacket, OnPacket, NewServer;
    assert {} + {SynAckOf(s)} == {SynAckOf(s)};
  }

  lemma StepFrom2(s: Setup, n': Net)
    requires Sensible(s) && Next(s, Phase(s, 2), n')
    ensures n' == Phase(s, 3)
  {
    SynAckAccepted(s);
    hide SynOf, SynAckOf, OnPacket, ServerOf, ClientOf, OnSynAck, IsSyn, IsSynAck, FinalAckPacket, Sensible;
    assert {SynOf(s)} + {FinalAckPacket(ClientOf(s))} == {SynOf(s), FinalAckPacket(ClientOf(s))};
  }

  lemma StatesOf(s: Setup)
    ensures ClientOf(s).state == Established && ServerOf(s).state == SynRcvd && ServerDone(s).state == Established
  {
  }

  lemma StepFrom34(s: Setup, i: nat, n': Net)
    requires Sensible(s) && (i == 3 || i == 4) && Next(s, Phase(s, i), n')
    ensures n' == Phase(s, 3) || n' == Phase(s, 4)
  {
    SynAckAccepted(s);
    StatesOf(s);
    forall now: int ensures OnPacket(ClientOf(s), SynAckOf(s), now).conn == ClientOf(s) { SynAckAgain(s, now); }
    forall now: int
      ensures OnPacket(ServerOf(s), FinalAckPacket(ClientOf(s)), now).conn == ServerDone(s)
      ensures OnPacket(ServerDone(s), FinalAckPacket(ClientOf(s)), now).conn == ServerDone(s)
    {
      FinalAckAccepted(s, now);
    }
    hide SynOf, SynAckOf, OnPacket, ServerOf, ServerDone, ClientOf, OnSynAck, IsSyn, IsSynAck, FinalAckPacket, Sensible;
  }

  /** Every run stays within the five states: in particular no client ever refuses the
      SYN-ACK, and the server is established only after the client. */
  lemma {:induction false} RunPhases(s: Setup, run: seq<Net>, i: nat) returns (phase: nat)
    requires Sensible(s) && IsRun(s, run) && i < |run|
    ensures phase <= 4 && run[i] == Phase(s, phase)
  {
    hide Next, Sensible, Phase, Begin;
    if i == 0 {
      phase := 0;
      FirstPhase(s);
    } else {
      phase := RunPhases(s, run, i - 1);
      assert Next(s, run[i - 1], run[(i - 1) + 1]);
      if phase == 0 {
        StepFrom0(s, run[i]);
        phase := 1;
      } else if phase == 1 {
        StepFrom1(s, run[i]);
        phase := 2;
      } else if phase == 2 {
        StepFrom2(s, run[i]);
        phase := 3;
      } else {
        StepFrom34(s, phase, run[i]);
        phase := if run[i] == Phase(s, 3) then 3 else 4;
      }
    }
  }

  lemma FirstPhase(s: Setup)
    ensures Begin(s) == Phase(s, 0)
  {
    hide Begin;
  }

  /** And a run through all five states exists: nothing stands in the way of a handshake
      whose packets arrive. */
  lemma HandshakeCanComplete(s: Setup) returns (run: seq<Net>)
    requires Sensible(s)
    ensures IsRun(s, run) && run[|run| - 1].server.Some?
    ensures run[|run| - 1].client.state == run[|run| - 1].server.value.state == Established
  {
    hide *;
    run := [Phase(s, 0), Phase(s, 1), Phase(s, 2), Phase(s, 3), Phase(s, 4)];
    FirstPhase(s);
    PhaseStates(s, 4);
    Advances01(s);
    Advances12(s);
    Advances23(s);
    Advances34(s);
    FiveStates(s, run);
  }

  lemma FiveStates(s: Setup, run: seq<Net>)
    requires |run| == 5 && run[0] == Begin(s)
    requires Next(s, run[0], run[1]) && Next(s, run[1], run[2]) && Next(s, run[2], run[3]) && Next(s, run[3], run[4])
    ensures IsRun(s, run)
  {
    hide Next, Begin;
  }

  lemma Advances01(s: Setup)
    ensures Next(s, Phase(s, 0), Phase(s, 1))
  {
    hide SynPacket, OnPacket;
    assert {} + {SynOf(s)} == {SynOf(s)};
  }

  lemma Advances12(s: Setup)
    requires Sensible(s)
    ensures Next(s, Phase(s, 1), Phase(s, 2))
  {
    SynAckAccepted(s);
    hide SynOf, SynAckPacket, OnPacket, NewServer, IsSyn;
    assert {} + {SynAckOf(s)} == {SynAckOf(s)};
    assert SynOf(s) in Phase(s, 1).toServer;
    assert Phase(s, 2) == ServerOpened(s, Phase(s, 1), SynOf(s));
  }

  lemma Advances23(s: Setup)
    requires Sensible(s)
    ensures Next(s, Phase(s, 2), Phase(s, 3))
  {
    SynAckAccepted(s);
    hide SynOf, SynAckOf, OnPacket, ServerOf, ClientOf, OnSynAck, IsSyn, IsSynAck, FinalAckPacket, Sensible;
    assert {SynOf(s)} + {FinalAckPacket(ClientOf(s))} == {SynOf(s), FinalAckPacket(ClientOf(s))};
    assert SynAckOf(s) in Phase(s, 2).toClient;
    assert Phase(s, 3) == ClientDone(Phase(s, 2), SynAckOf(s));
  }

  lemma Advances34(s: Setup)
    ensures Next(s, Phase(s, 3), Phase(s, 4))
  {
    FinalAckAccepted(s, 0);
    hide SynOf, SynAckOf, OnPacket, ServerOf, ServerDone, ClientOf, IsSyn, FinalAckPacket;
    var p := FinalAckPacket(ClientOf(s));
    assert p in Phase(s, 3).toServer && !IsSyn(p);
    assert Phase(s, 4) == Phase(s, 3).(server := Some(OnPacket(Phase(s, 3).server.value, p, 0).conn));
  }

  // ----- agreement -----

  /** Numbers and identifiers match up crosswise. */
  ghost predicate Agreed(s: Setup, client: Conn, server: Conn) {
    && client.rcv.recvSeq == server.snd.sendSeq == Wrap(s.b.isn + 1)
    && server.rcv.recvSeq == client.snd.sendSeq == Wrap(s.a.isn + 1)
    && client.snd.ackThrough == s.a.isn
    && (server.state == Established ==> server.snd.ackThrough == s.b.isn)
    && client.ids.remoteStreamID == server.ids.localStreamID == s.b.id
    && server.ids.remoteStreamID == client.ids.localStreamID == s.a.id
  }

  function Smaller(a: int, b: int): int {
    if a < b then a else b
  }

  lemma PhaseAgrees(s: Setup, phase: nat)
    requires Sensible(s) && phase >= 3
    ensures Agreed(s, Phase(s, phase).client, Phase(s, phase).server.value)
    ensures NegotiatedMTU(Phase(s, phase).client.ids) == NegotiatedMTU(Phase(s, phase).server.value.ids)
            <==> Uint16(s.b.mtu) != 0
    ensures NegotiatedMTU(Phase(s, phase).client.ids)
            == Smaller(s.a.mtu, if s.b.mtu % 0x1_0000 == 0 then 1730 else s.b.mtu % 0x1_0000)
    ensures NegotiatedMTU(Phase(s, phase).server.value.ids) == Smaller(s.a.mtu, s.b.mtu % 0x1_0000)
  {
    MTUs(s);
    hide Wrap, OfferedMTU, Uint16, NegotiatedMTU, FinalAckPacket;
  }

  lemma MTUs(s: Setup)
    requires Sensible(s)
    ensures NegotiatedMTU(ClientOf(s).ids) == NegotiatedMTU(ServerOf(s).ids) <==> Uint16(s.b.mtu) != 0
    ensures ServerDone(s).ids == ServerOf(s).ids
    ensures NegotiatedMTU(ClientOf(s).ids) == Smaller(s.a.mtu, if s.b.mtu % 0x1_0000 == 0 then 1730 else s.b.mtu % 0x1_0000)
    ensures NegotiatedMTU(ServerOf(s).ids) == Smaller(s.a.mtu, s.b.mtu % 0x1_0000)
  {
    hide Wrap;
    assert Uint16(s.a.mtu) == s.a.mtu;
    assert OfferedMTU(SynOf(s)) == s.a.mtu;
    assert OfferedMTU(SynAckOf(s)) == if Uint16(s.b.mtu) > 0 then Uint16(s.b.mtu) else DEFAULT_MTU;
  }

  /** For one SYN and any loss, repetition or reordering: as soon as the client is established
      (so in particular once the server is) the two sides agree on the numbers and on the
      stream identifiers; and they agree on the MTU exactly if the listener's, cut to 16
      bits, is not 0. */
  lemma HandshakeAgreement(s: Setup, run: seq<Net>, i: nat)
    requires Sensible(s) && IsRun(s, run) && i < |run|
    ensures !run[i].failed
    ensures run[i].server.Some? && run[i].server.value.state == Established ==> run[i].client.state == Established
    ensures run[i].client.state == Established ==>
              && run[i].server.Some?
              && NegotiatedMTU(run[i].client.ids) == Smaller(s.a.mtu, if s.b.mtu % 0x1_0000 == 0 then 1730 else s.b.mtu % 0x1_0000)
              && NegotiatedMTU(run[i].server.value.ids) == Smaller(s.a.mtu, s.b.mtu % 0x1_0000)
              && Agreed(s, run[i].client, run[i].server.value)
              && (NegotiatedMTU(run[i].client.ids) == NegotiatedMTU(run[i].server.value.ids) <==> Uint16(s.b.mtu) != 0)
  {
    var phase := RunPhases(s, run, i);
    PhaseStates(s, phase);
    if phase >= 3 { PhaseAgrees(s, phase); }
    hide Phase, Agreed, Next, Sensible, NegotiatedMTU, Uint16;
  }

  lemma PhaseStates(s: Setup, phase: nat)
    requires phase <= 4
    ensures !Phase(s, phase).failed
    ensures Phase(s, phase).client.state == Established <==> phase >= 3
    ensures Phase(s, phase).server.Some? <==> phase >= 2
    ensures phase >= 2 ==> (Phase(s, phase).server.value.state == Established <==> phase == 4)
  {
    hide SynOf, SynAckOf, FinalAckPacket, OfferedMTU, Wrap, NewServer;
  }

  lemma ZeroMTU(s: Setup)
    requires Sensible(s) && Uint16(s.b.mtu) == 0
    ensures NegotiatedMTU(ClientOf(s).ids) > 0 && NegotiatedMTU(ServerDone(s).ids) == 0
    ensures WindowOpen(ServerDone(s))
  {
    hide Wrap;
    assert Uint16(s.a.mtu) == s.a.mtu;
    assert OfferedMTU(SynOf(s)) == s.a.mtu;
    assert OfferedMTU(SynAckOf(s)) == DEFAULT_MTU;
  }

  /** The failing setups: the listener's MTU is a multiple of 65536. The handshake completes,
      the client can send, and no Write of the listener ever comes to an end. */
  lemma ListenerSpins(s: Setup) returns (run: seq<Net>)
    requires Sensible(s) && Uint16(s.b.mtu) == 0
    ensures IsRun(s, run) && run[|run| - 1].server.Some?
    ensures var client, server := run[|run| - 1].client, run[|run| - 1].server.value;
            && client.state == server.state == Established && NegotiatedMTU(client.ids) > 0
            && forall data: seq<byte>, now, k: nat | data != [] :: !Stopped(Rounds(Loop(server, data), now, k))
  {
    run := HandshakeCanComplete(s);
    var phase := RunPhases(s, run, |run| - 1);
    PhaseStates(s, phase);
    ZeroMTU(s);
    var server := ServerDone(s);
    forall data: seq<byte>, now, k: nat | data != [] ensures !Stopped(Rounds(Loop(server, data), now, k)) {
      Spins(Loop(server, data), now, k);
    }
    hide SynOf, SynAckOf, ServerOf, ServerDone, ClientOf, Next, Sensible, Uint16, NegotiatedMTU, Rounds;
  }

  /** What the two connections are then like: nothing received, an empty buffer of 65536 bytes, no
      choking, nothing in flight, and the window and timer that each was given. */
  lemma HandshakeLeaves(s: Setup, run: seq<Net>, i: nat)
    requires Sensible(s) && IsRun(s, run) && i < |run| && run[i].client.state == Established
    ensures run[i].server.Some? && Begun(run[i].client, s.a) && Begun(run[i].server.value, s.b)
  {
    var phase := RunPhases(s, run, i);
    PhaseStates(s, phase);
    PhaseBegun(s, phase);
    hide Phase, Begun, Next, Sensible;
  }

  predicate Begun(c: Conn, p: Party) {
    && c.rcv.held == map[] && c.rcv.nacks == {} && c.rcv.buf == Receiving.Buffer([], 65536)
    && !c.rcv.choking && c.rcv.lastCheck == 0 && c.choke == Choke(false, 0)
    && c.snd.sent == map[] && c.snd.nackCounts == map[] && c.snd.window == p.window && c.snd.timer == p.timer
  }

  lemma PhaseBegun(s: Setup, phase: nat)
    requires phase >= 3
    ensures Begun(Phase(s, phase).client, s.a) && Begun(Phase(s, phase).server.value, s.b)
  {
    hide Wrap, OfferedMTU, Uint16, FinalAckPacket;
  }

  // ----- where the protocol begins -----

  function Side(c: Conn, isn: u32, ctl: set<Protocol.Msg>): Protocol.Side {
    Protocol.Side(c, isn + 1, [], ctl, 0, 0, [], [], false)
  }

  /** The handshake leaves the two sides in a starting state of the data transfer, whether
      or not the final ACK has arrived yet. */
  lemma HandshakeStartsProtocol(s: Setup, run: seq<Net>, i: nat)
    requires Sensible(s) && IsRun(s, run) && i < |run| && run[i].client.state == Established
    ensures run[i].server.Some?
    ensures var ack := Protocol.Msg(FinalAckPacket(run[i].client), 0, 0);
            Delivery.Start(Delivery.World(Side(run[i].client, s.a.isn, {ack}), Side(run[i].server.value, s.b.isn, {})))
  {
    var phase := RunPhases(s, run, i);
    PhaseStates(s, phase);
    PhaseStarts(s, phase);
    hide Phase, Delivery.Start, Next, Sensible, Side;
  }

  lemma PhaseStarts(s: Setup, phase: nat)
    requires Sensible(s)
    ensures phase >= 3 ==>
              var n := Phase(s, phase);
              var ack := Protocol.Msg(FinalAckPacket(n.client), 0, 0);
              Delivery.Start(Delivery.World(Side(n.client, s.a.isn, {ack}), Side(n.server.value, s.b.isn, {})))
  {
    if phase >= 3 {
      var n := Phase(s, phase);
      var a := Side(n.client, s.a.isn, {Protocol.Msg(FinalAckPacket(n.client), 0, 0)});
      var b := Side(n.server.value, s.b.isn, {});
      ClientFresh(s, b);
      ServerFresh(s, n.server.value, a);
      hide Delivery.Fresh, Side, ClientOf, ServerOf, ServerDone, FinalAckPacket, SynOf, SynAckOf;
    }
  }

  lemma ClientFresh(s: Setup, b: Protocol.Side)
    requires Sensible(s) && b.base == s.b.isn + 1
    ensures Delivery.Fresh(Side(ClientOf(s), s.a.isn, {Protocol.Msg(FinalAckPacket(ClientOf(s)), 0, 0)}), b)
  {
    var c := ClientOf(s);
    assert Wrap(s.a.isn + 1 - 1) == s.a.isn;
    assert FinalAckPacket(c) == ControlPacket(c, Receiving.Acknowledge, []) by { hide Wrap, OfferedMTU, Uint16; }
    hide Wrap, OfferedMTU, Uint16, ControlPacket, FinalAckPacket;
  }

  lemma ServerFresh(s: Setup, c: Conn, a: Protocol.Side)
    requires Sensible(s) && (c == ServerOf(s) || c == ServerDone(s)) && a.base == s.a.isn + 1
    ensures Delivery.Fresh(Side(c, s.b.isn, {}), a)
  {
    assert Wrap(s.b.isn + 1 - 1) == s.b.isn;
    hide Wrap, OfferedMTU, Uint16;
  }

  /** The handshake's packets survive the wire if their signatures have the length that the
      destination's certificate calls for and the options fit their 16-bit size. */
  lemma HandshakePacketsSurvive(s: Setup, p: Packet)
    requires p == SynOf(s) || p == SynAckOf(s) || p == FinalAckPacket(ClientOf(s))
    requires |s.hash| == 8 && Codec.OptionSize(p) < 0x1_0000
    requires |s.a.signature| == SignatureLength(Some(s.a.dest)) && |s.b.signature| == SignatureLength(Some(s.b.dest))
    ensures Codec.Encode(p).Ok? && Codec.Readable(Codec.Encode(p).value)
    ensures Codec.Decode(Codec.Encode(p).value) == Ok(p)
  {
    assert SynOf(s).flags == SYN_FLAGS + (if s.a.interactive then 256 else 0);
    assert SynAckOf(s).flags == SYN_ACK_FLAGS + (if s.b.interactive then 256 else 0);
    hide Wrap, OfferedMTU, SignatureLength, Codec.OptionSize, Codec.Encode, Codec.Decode, Codec.Readable;
    assert CodecProofs.Canonical(p);
    CodecProofs.UnmarshalUndoesMarshal(p);
  }
}
