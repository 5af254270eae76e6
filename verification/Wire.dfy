/** The protocol exchanges packets; what travels are their bytes. No packet that a connection
    ever sends loses anything on the way. */
module Wire {
  import opened Serial
  import opened Packets
  import opened Connections
  import opened Protocol
  import opened ProtocolSteps
  import opened Delivery
  import Codec
  import CodecProofs
  import Congestion
  import Timing
  import Receiving

  ghost predicate AllCanonical(x: Side) {
    forall m | m in x.log || m in x.ctl :: CodecProofs.Canonical(m.p)
  }

  lemma DataCanonical(c: Conn, chunk: seq<byte>)
    ensures CodecProofs.Canonical(DataPacket(c, chunk))
  {
    hide Timing.ResendDelay, Wrap;
  }

  /** The whole NACK list always fits the one-byte count. */
  lemma ControlCanonical(c: Conn, kind: Receiving.Control, p: Packet)
    requires Receiving.Valid(c.rcv) && IsControl(c, kind, p)
    ensures CodecProofs.Canonical(p)
  {
    Receiving.NackListBounded(c.rcv);
    hide Receiving.Valid, Wrap;
  }

  lemma CanonicalAre(x: Side)
    ensures AllCanonical(x) <==> forall m | m in x.log || m in x.ctl :: CodecProofs.Canonical(m.p)
  {
    hide CodecProofs.Canonical;
  }

  lemma StepCanonical(x: Side, y: Side, act: Action, now: int, x': Side)
    requires Inv(x, y) && Step(x, y, act, now, x') && AllCanonical(x)
    ensures AllCanonical(x')
  {
    hide *;
    StepIs(x, y, act, now, x');
    StepKeepsInv(x, y, act, now, x');
    HalfIs(x', y);
    SoundIs(x', y);
    ReceivesIs(x'.c.rcv, y.base, x'.rcvd, y.log);
    CanonicalAre(x);
    CanonicalAre(x');
    forall m | m in x'.log ensures CodecProofs.Canonical(m.p) {
      NewData(x, act, now, m);
    }
    forall m | m in x'.ctl ensures CodecProofs.Canonical(m.p) {
      if m !in x.ctl {
        var kind :| IsControl(x'.c, kind, m.p);
        ControlCanonical(x'.c, kind, m.p);
      }
    }
  }

  lemma NewData(x: Side, act: Action, now: int, m: Msg)
    requires m in Acted(x, act, now).log
    ensures m in x.log || CodecProofs.Canonical(m.p)
  {
    hide *;
    match act
    case Write(chunk) =>
      WriteIs(x, chunk, now);
      DataCanonical(x.c, chunk);
    case Deliver(d) =>
      DeliverIs(x, d, now);
      ReceivedIs(x, OnPacket(x.c, d.p, now));
    case Tick(done, gaveUp) => TickIs(x, done, gaveUp, now);
    case Read(n) => ReadIs(x, n, now);
    case KeepAlive => IdleIs(x, now);
  }

  lemma IdleIs(x: Side, now: int)
    ensures Acted(x, KeepAlive, now) == x
  {
  }

  lemma StartCanonical(x: Side, y: Side)
    requires Fresh(x, y)
    ensures AllCanonical(x)
  {
    hide Wrap, Congestion.InBounds;
  }

  lemma {:induction false} RunCanonical(run: seq<World>, i: nat)
    requires IsRun(run) && i < |run|
    ensures AllCanonical(run[i].a) && AllCanonical(run[i].b)
  {
    hide *;
    RunIs(run);
    if i == 0 {
      BothFresh(run[0]);
      StartCanonical(run[0].a, run[0].b);
      StartCanonical(run[0].b, run[0].a);
    } else {
      RunCanonical(run, i - 1);
      RunInvariant(run, i - 1, i - 1);
      NextCanonical(run[i - 1], run[i]);
    }
  }

  lemma BothFresh(w: World)
    requires Start(w)
    ensures Fresh(w.a, w.b) && Fresh(w.b, w.a)
  {
    hide Fresh;
  }

  lemma NextCanonical(w: World, w': World)
    requires Inv(w.a, w.b) && Next(w, w') && AllCanonical(w.a) && AllCanonical(w.b)
    ensures AllCanonical(w'.a) && AllCanonical(w'.b)
  {
    hide Inv, Step, AllCanonical;
    if w'.b == w.b && exists act, now :: Step(w.a, w.b, act, now, w'.a) {
      var act, now :| Step(w.a, w.b, act, now, w'.a);
      StepCanonical(w.a, w.b, act, now, w'.a);
    } else {
      var act, now :| Step(w.b, w.a, act, now, w'.b);
      InvSwap(w.a, w.b);
      StepCanonical(w.b, w.a, act, now, w'.b);
    }
  }

  lemma ReachableCanonical(w: World, x: Side, y: Side)
    requires Reachable(w) && Peers(w, x, y)
    ensures AllCanonical(x)
  {
    hide AllCanonical, Start, Next;
    var run :| IsRun(run) && run[|run| - 1] == w;
    RunCanonical(run, |run| - 1);
  }

  /** Every packet a connection ever sends marshals without error into bytes that can be read,
      and reading them gives the packet back, field by field. */
  lemma SentPacketsSurvive(w: World, x: Side, y: Side, m: Msg)
    requires Reachable(w) && Peers(w, x, y) && (m in x.log || m in x.ctl)
    ensures Codec.Encode(m.p).Ok? && Codec.Readable(Codec.Encode(m.p).value)
    ensures Codec.Decode(Codec.Encode(m.p).value) == Ok(m.p)
  {
    hide *;
    ReachableCanonical(w, x, y);
    CanonicalAre(x);
    CodecProofs.UnmarshalUndoesMarshal(m.p);
  }
}
