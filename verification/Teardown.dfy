/** What CLOSE and RESET do to a connection, and the whole dispatch. */
module Teardown {
  import opened Serial
  import opened Packets
  import opened Connections
  import Congestion
  import Handshake
  import Receiving
  import Sending

  // CLOSE | SIGNED | FROM
  const CLOSE_FLAGS: u16 := 42

  /** sendCloseLocked; the packet has no payload and is not tracked. */
  function ClosePacket(c: Conn, dest: Destination, signature: seq<byte>): Packet {
    PlainPacket(c.ids.localStreamID, c.ids.remoteStreamID, c.snd.sendSeq, Wrap(c.rcv.recvSeq - 1), [], 0, []).(
      flags := CLOSE_FLAGS, from := Some(dest), signature := signature)
  }

  /** A signature is checked if there is one; `verified` is the outcome of the check. */
  predicate Genuine(p: Packet, verified: bool) {
    !Has(p.flags, Flag.Signed) || verified
  }

  /** handleCloseLocked. */
  function OnClose(c: Conn, p: Packet, verified: bool): Conn {
    if Genuine(p, verified) && (c.state == Established || c.state == Closing) then c.(state := ConnState.Closed) else c
  }

  /** handleResetLocked. */
  function OnReset(c: Conn, p: Packet, verified: bool): Conn {
    if Genuine(p, verified) then c.(state := ConnState.Closed) else c
  }

  /** dispatchPacketByFlags once the receive loop runs: a SYN-ACK is unexpected then. */
  function Dispatch(c: Conn, p: Packet, now: int, verified: bool): Conn {
    if Handshake.IsSynAck(p) then c
    else if c.state == SynRcvd && !Has(p.flags, Flag.Syn) && !Has(p.flags, Flag.Close) && !Has(p.flags, Flag.Reset)
    then OnFinalAck(c, p).conn
    else if Has(p.flags, Flag.Close) then OnClose(c, p, verified)
    else if Has(p.flags, Flag.Reset) then OnReset(c, p, verified)
    else if p.sequenceNum == 0 && !Has(p.flags, Flag.Syn) then OnAck(c, p, now).conn
    else if |p.payload| > 0 then OnData(c, p).conn
    else c
  }

  /** Whether the packet ends the connection. */
  predicate Ends(c: Conn, p: Packet, verified: bool) {
    && !Handshake.IsSynAck(p) && Genuine(p, verified)
    && (if Has(p.flags, Flag.Close) then c.state == Established || c.state == Closing else Has(p.flags, Flag.Reset))
  }

  /** The protocol's handler is the dispatch on the packets that the protocol exchanges. */
  lemma DispatchOfPlain(c: Conn, p: Packet, now: int, verified: bool)
    requires !Has(p.flags, Flag.Close) && !Has(p.flags, Flag.Reset)
    ensures Dispatch(c, p, now, verified) == OnPacket(c, p, now).conn
  {
    hide Has, Sending.OnAck, Receiving.OnData;
  }

  /** The branches one by one, in the order of the source, with what the protocol's handler
      answers where the packet is one of its own. */
  lemma DispatchIs(c: Conn, p: Packet, now: int, verified: bool)
    ensures var d := Dispatch(c, p, now, verified);
            var o := OnPacket(c, p, now);
            var syn, close, reset := Has(p.flags, Flag.Syn), Has(p.flags, Flag.Close), Has(p.flags, Flag.Reset);
            && (Handshake.IsSynAck(p) <==> syn && p.sendStreamID > 0)
            && if syn && p.sendStreamID > 0
               then d == c && o == Outcome(c, [], []) && !Ends(c, p, verified)
               else if c.state == SynRcvd && !syn && !close && !reset
               then d == OnFinalAck(c, p).conn && o == Outcome(d, [], []) && !Ends(c, p, verified)
               else if close
               then d == OnClose(c, p, verified)
                    && (Ends(c, p, verified) <==> Genuine(p, verified) && (c.state == Established || c.state == Closing))
               else if reset
               then d == OnReset(c, p, verified) && (Ends(c, p, verified) <==> Genuine(p, verified))
               else if p.sequenceNum == 0 && !syn
               then d == OnAck(c, p, now).conn && o == OnAck(c, p, now) && o.ctl == [] && !Ends(c, p, verified)
               else if |p.payload| > 0
               then d == OnData(c, p).conn && o == OnData(c, p) && o.fired == [] && !Ends(c, p, verified)
               else d == c && o == Outcome(c, [], []) && !Ends(c, p, verified)
  {
    hide Has, Genuine, OnClose, OnReset, Sending.OnAck, Receiving.OnData, OnDelay, Sending.Piggyback;
  }

  /** A connection not yet closed is closed by exactly the packets that end it: a CLOSE with a
      good signature or none while established or closing, or such a RESET at any time. */
  lemma ClosesExactly(c: Conn, p: Packet, now: int, verified: bool)
    requires c.state != ConnState.Closed
    ensures Dispatch(c, p, now, verified).state == ConnState.Closed
            <==> && !(Has(p.flags, Flag.Syn) && p.sendStreamID > 0) && (!Has(p.flags, Flag.Signed) || verified)
                 && (if Has(p.flags, Flag.Close) then c.state == Established || c.state == Closing
                     else Has(p.flags, Flag.Reset))
  {
    hide Has, Sending.OnAck, Receiving.OnData;
  }

  /** The CLOSE that a connection sends closes a peer that is established or has sent its own
      CLOSE, if the signature verifies, and no other peer that is open. */
  lemma CloseReaches(c: Conn, dest: Destination, signature: seq<byte>, peer: Conn, now: int, verified: bool)
    requires peer.state != ConnState.Closed
    ensures Dispatch(peer, ClosePacket(c, dest, signature), now, verified).state == ConnState.Closed
            <==> verified && (peer.state == Established || peer.state == Closing)
    ensures var p := ClosePacket(c, dest, signature);
            && p.sendStreamID == c.ids.localStreamID && p.recvStreamID == c.ids.remoteStreamID
            && p.sequenceNum == c.snd.sendSeq && p.ackThrough == Wrap(c.rcv.recvSeq - 1) && p.payload == [] && p.nacks == []
            && p.from == Some(dest) && p.signature == signature
  {
    var p := ClosePacket(c, dest, signature);
    CloseFlags();
    ClosesExactly(peer, p, now, verified);
    hide Has, Dispatch, Wrap;
  }

  lemma CloseFlags()
    ensures forall f :: Has(CLOSE_FLAGS, f) <==> f in {Flag.Close, Flag.Signed, Flag.From}
  {
  }

  /** CLOSE and RESET touch nothing of the stream: what was received can still be read, what
      is in flight stays tracked, no counter moves. */
  lemma TeardownKeepsStream(c: Conn, p: Packet, now: int, verified: bool)
    requires !Handshake.IsSynAck(p) && (Has(p.flags, Flag.Close) || Has(p.flags, Flag.Reset))
    ensures Dispatch(c, p, now, verified).(state := c.state) == c
  {
    hide Has, Sending.OnAck, Receiving.OnData;
  }

  lemma DispatchValid(c: Conn, p: Packet, now: int, verified: bool)
    requires Valid(c)
    ensures Valid(Dispatch(c, p, now, verified))
    ensures c.state != SynSent ==> Dispatch(c, p, now, verified).state != SynSent
  {
    hide *;
    DispatchIs(c, p, now, verified);
    HandlersKeep(c, p, now);
    FinalAckKeeps(c, p);
    EndingKeeps(c, p, verified);
  }

  lemma EndingKeeps(c: Conn, p: Packet, verified: bool)
    requires Valid(c)
    ensures Valid(OnClose(c, p, verified)) && Valid(OnReset(c, p, verified))
    ensures c.state != SynSent ==> OnClose(c, p, verified).state != SynSent && OnReset(c, p, verified).state != SynSent
  {
    hide Genuine, Receiving.Valid, Sending.CountsLow, Congestion.InBounds;
  }

  lemma FinalAckKeeps(c: Conn, p: Packet)
    requires Valid(c)
    ensures Valid(OnFinalAck(c, p).conn) && OnFinalAck(c, p).conn.state != SynSent
  {
  }

  lemma HandlersKeep(c: Conn, p: Packet, now: int)
    requires Valid(c)
    ensures Valid(OnAck(c, p, now).conn) && Valid(OnData(c, p).conn)
    ensures OnAck(c, p, now).conn.state == c.state && OnData(c, p).conn.state == c.state
  {
    AckValid(c.snd, p, now);
    Receiving.OnDataValid(c.rcv, p);
    PiggybackKeeps(c.snd, p);
    hide Sending.OnAck, Receiving.OnData, Receiving.Valid, Sending.CountsLow, Sending.Piggyback;
  }

  // ----- whole runs -----

  datatype Incoming = Incoming(p: Packet, now: int, verified: bool)

  function DispatchAll(c: Conn, run: seq<Incoming>): Conn {
    if run == [] then c
    else
      var e := run[|run| - 1];
      Dispatch(DispatchAll(c, run[..|run| - 1]), e.p, e.now, e.verified)
  }

  predicate Plain(e: Incoming) {
    !Has(e.p.flags, Flag.Close) && !Has(e.p.flags, Flag.Reset)
  }

  function PlainOnes(run: seq<Incoming>): seq<Incoming> {
    if run == [] then []
    else PlainOnes(run[..|run| - 1]) + (if Plain(run[|run| - 1]) then [run[|run| - 1]] else [])
  }

  predicate Closes(e: Incoming) {
    && !Plain(e) && !(Has(e.p.flags, Flag.Syn) && e.p.sendStreamID > 0)
    && (!Has(e.p.flags, Flag.Signed) || e.verified)
  }

  lemma OneMore(c: Conn, run: seq<Incoming>, e: Incoming)
    ensures DispatchAll(c, run + [e]) == Dispatch(DispatchAll(c, run), e.p, e.now, e.verified)
  {
    assert (run + [e])[..|run|] == run;
    hide Dispatch;
  }

  /** Whether a connection is established or closed makes no difference to any other packet. */
  lemma PlainIgnoresClosed(c: Conn, p: Packet, now: int, verified: bool)
    requires (c.state == Established || c.state == ConnState.Closed)
             && !Has(p.flags, Flag.Close) && !Has(p.flags, Flag.Reset)
    ensures Dispatch(c, p, now, verified).state == c.state
    ensures Dispatch(c, p, now, verified).(state := Established) == Dispatch(c.(state := Established), p, now, verified)
  {
    hide Has, Sending.OnAck, Receiving.OnData, OnDelay, Sending.Piggyback;
  }

  /** CLOSE and RESET are ordered with nothing, and need not be: whatever sequence of packets an
      established connection gets, it ends up closed if and only if one of them was a genuine
      CLOSE or RESET, and otherwise just as if all CLOSEs and RESETs had never come. In
      particular data that such a packet overtook is still delivered. */
  lemma {:induction false} TeardownOverRuns(c: Conn, run: seq<Incoming>)
    requires c.state == Established
    ensures DispatchAll(c, run).state
            == if exists e :: e in run && Closes(e) then ConnState.Closed else Established
    ensures DispatchAll(c, run).(state := Established) == DispatchAll(c, PlainOnes(run))
  {
    hide Dispatch, Closes, Plain;
    if run != [] {
      var before, e := run[..|run| - 1], run[|run| - 1];
      TeardownOverRuns(c, before);
      var d := DispatchAll(c, before);
      OneMore(c, before, e);
      assert run == before + [e];
      StepOverRuns(d, e);
      if Plain(e) {
        OneMore(c, PlainOnes(before), e);
      } else {
        assert PlainOnes(run) == PlainOnes(before);
      }
    }
  }

  lemma StepOverRuns(c: Conn, e: Incoming)
    requires c.state == Established || c.state == ConnState.Closed
    ensures var d := Dispatch(c, e.p, e.now, e.verified);
            && d.state == (if c.state == Established && !Closes(e) then Established else ConnState.Closed)
            && d.(state := Established)
               == if Plain(e) then Dispatch(c.(state := Established), e.p, e.now, e.verified)
                  else c.(state := Established)
  {
    hide Has, Dispatch;
    if Plain(e) {
      PlainIgnoresClosed(c, e.p, e.now, e.verified);
    } else {
      TeardownStep(c, e.p, e.now, e.verified);
    }
  }

  lemma TeardownStep(c: Conn, p: Packet, now: int, verified: bool)
    requires c.state == Established || c.state == ConnState.Closed
    requires Has(p.flags, Flag.Close) || Has(p.flags, Flag.Reset)
    ensures var d := Dispatch(c, p, now, verified);
            && d.(state := Established) == c.(state := Established)
            && d.state == if c.state == Established && (Handshake.IsSynAck(p) || !Genuine(p, verified))
                          then Established else ConnState.Closed
  {
    hide Has, Genuine, Handshake.IsSynAck, Sending.OnAck, Receiving.OnData;
  }
}
