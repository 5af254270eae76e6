/** The counter activeStreams against the accepted streams that are really open. An attempt is
    counted when it passes the limiter, before anything else is checked; if it then fails, no
    stream opens and nothing uncounts it. Closing any managed connection decrements the
    counter, also one that was dialled and never counted; a stream that its peer closes is
    never uncounted. */
module OpenStreams {
  import opened Packets
  import opened Limits

  datatype Event =
    | Arrives(peer: Option<string>, now: int)
    | Fails(peer: Option<string>, now: int) // passes or not, but is turned away later on
    | AcceptedCloses
    | DialledCloses
    | PeerCloses
    | Tidies(now: int)

  datatype State = State(l: Limiter, open: nat)

  const NOTHING := State(Limiter(0, [], map[]), 0)

  predicate Passes(c: Config, s: State, e: Event) {
    (e.Arrives? || e.Fails?) && Check(c, s.l, e.peer, e.now).v == Accepted
  }

  /** Accepted streams close only while there are any. */
  function After(c: Config, s: State, e: Event): State {
    match e
    case Arrives(peer, now) => State(Check(c, s.l, peer, now).l, s.open + if Passes(c, s, e) then 1 else 0)
    case Fails(peer, now) => State(Check(c, s.l, peer, now).l, s.open)
    case AcceptedCloses => if s.open > 0 then State(Closed(s.l), s.open - 1) else s
    case DialledCloses => State(Closed(s.l), s.open)
    case PeerCloses => if s.open > 0 then State(s.l, s.open - 1) else s
    case Tidies(now) => State(Tidied(s.l, now), s.open)
  }

  function AfterAll(c: Config, s: State, run: seq<Event>): State {
    if run == [] then s else After(c, AfterAll(c, s, run[..|run| - 1]), run[|run| - 1])
  }

  // ----- the gap between counter and streams -----

  /** How far one event moves the open streams away from the counter. */
  function Drift(c: Config, s: State, e: Event): int {
    match e
    case Arrives(_, _) => 0
    case Fails(_, _) => if Passes(c, s, e) then -1 else 0
    case AcceptedCloses => if s.open > 0 && s.l.active == 0 then -1 else 0
    case DialledCloses => if s.l.active > 0 then 1 else 0
    case PeerCloses => if s.open > 0 then -1 else 0
    case Tidies(_) => 0
  }

  function Drifts(c: Config, s: State, run: seq<Event>): int {
    if run == [] then 0
    else
      var before := run[..|run| - 1];
      Drifts(c, s, before) + Drift(c, AfterAll(c, s, before), run[|run| - 1])
  }

  lemma EventDrifts(c: Config, s: State, e: Event)
    ensures After(c, s, e).open - After(c, s, e).l.active == s.open - s.l.active + Drift(c, s, e)
    ensures c.maxStreams > 0 && s.l.active <= c.maxStreams ==> After(c, s, e).l.active <= c.maxStreams
  {
    hide Since, Exceeded, PeerCheck;
  }

  /** Over every run: the open streams exceed the counter by exactly the dialled connections
      closed while it was positive, less the attempts turned away after they were counted, the
      streams closed by their peers and the closes that found the counter at 0. */
  lemma {:induction false} OpenStreamsAre(c: Config, run: seq<Event>)
    ensures AfterAll(c, NOTHING, run).open == AfterAll(c, NOTHING, run).l.active + Drifts(c, NOTHING, run)
    ensures c.maxStreams > 0 ==> AfterAll(c, NOTHING, run).l.active <= c.maxStreams
  {
    if run != [] {
      OpenStreamsAre(c, run[..|run| - 1]);
      EventDrifts(c, AfterAll(c, NOTHING, run[..|run| - 1]), run[|run| - 1]);
      hide After, Drift;
    }
  }

  /** Streams come to outnumber the counter exactly when a dialled connection closes while the
      counter is positive and none of it is spare. */
  lemma OutnumberedExactly(c: Config, s: State, e: Event)
    requires s.open <= s.l.active
    ensures After(c, s, e).open > After(c, s, e).l.active <==> e.DialledCloses? && s.open == s.l.active > 0
  {
    EventDrifts(c, s, e);
    hide After;
  }

  // ----- the limit on open streams -----

  /** What a listener could check: the event would open a stream beyond the limit. */
  predicate OverAdmits(c: Config, s: State, e: Event) {
    e.Arrives? && Passes(c, s, e) && s.open >= c.maxStreams
  }

  lemma EventOverAdmits(c: Config, s: State, e: Event)
    requires s.open <= c.maxStreams
    ensures After(c, s, e).open > c.maxStreams <==> OverAdmits(c, s, e)
  {
    hide Check, Closed, Tidied;
  }

  /** At every point of the run no more streams are open than the limit says. */
  predicate AlwaysWithin(c: Config, run: seq<Event>) {
    AfterAll(c, NOTHING, run).open <= c.maxStreams && (run == [] || AlwaysWithin(c, run[..|run| - 1]))
  }

  /** At no point of the run does an event open a stream beyond the limit. */
  predicate NeverOverAdmits(c: Config, run: seq<Event>) {
    run == [] ||
    var before := run[..|run| - 1];
    NeverOverAdmits(c, before) && !OverAdmits(c, AfterAll(c, NOTHING, before), run[|run| - 1])
  }

  /** Over every run the open streams stay within the limit if and only if no attempt passes
      the limiter while they are at it. Without closes of dialled connections none does. */
  lemma {:induction false} OpenWithinLimitExactly(c: Config, run: seq<Event>)
    requires c.maxStreams > 0
    ensures AlwaysWithin(c, run) <==> NeverOverAdmits(c, run)
    ensures DialledCloses !in run ==> AlwaysWithin(c, run)
  {
    OpenStreamsAre(c, run);
    if DialledCloses !in run { NoDrift(c, run); }
    if run != [] {
      var before := run[..|run| - 1];
      OpenWithinLimitExactly(c, before);
      AfterLast(c, run);
      assert forall e | e in before :: e in run;
      hide AfterAll, OverAdmits, After, Drifts;
      if AlwaysWithin(c, before) {
        assert AfterAll(c, NOTHING, before).open <= c.maxStreams;
        EventOverAdmits(c, AfterAll(c, NOTHING, before), run[|run| - 1]);
      }
    }
  }

  lemma AfterLast(c: Config, run: seq<Event>)
    requires run != []
    ensures AfterAll(c, NOTHING, run) == After(c, AfterAll(c, NOTHING, run[..|run| - 1]), run[|run| - 1])
  {
    hide After;
  }

  lemma {:induction false} NoDrift(c: Config, run: seq<Event>)
    requires DialledCloses !in run
    ensures Drifts(c, NOTHING, run) <= 0
  {
    if run != [] {
      assert run[|run| - 1] in run && forall e | e in run[..|run| - 1] :: e in run;
      NoDrift(c, run[..|run| - 1]);
      hide After, Passes;
    }
  }

  /** Two accepted streams open under a limit of one: a dialled connection closed in between. */
  lemma OverAdmitted(now: int)
    ensures var off := Rates(0, 0, 0);
            AfterAll(Config(1, off, off), NOTHING, [Arrives(None, now), DialledCloses, Arrives(None, now)]).open == 2
  {
    var c := Config(1, Rates(0, 0, 0), Rates(0, 0, 0));
    var e := Arrives(None, now);
    var s1 := After(c, NOTHING, e);
    var s2 := After(c, s1, DialledCloses);
    Unlimited(c, NOTHING, now);
    Unlimited(c, s2, now);
    assert s1.open == 1 && s1.l.active == 1 && s2.open == 1 && s2.l.active == 0;
    assert After(c, s2, e).open == 2;
    hide After;
    assert [e, DialledCloses, e][..2] == [e, DialledCloses] && [e, DialledCloses][..1] == [e] && [e][..0] == [];
    assert AfterAll(c, NOTHING, [e]) == After(c, AfterAll(c, NOTHING, []), e);
    assert AfterAll(c, NOTHING, [e, DialledCloses]) == s2;
  }

  lemma Unlimited(c: Config, s: State, now: int)
    requires Off(c.total) && s.l.active < c.maxStreams
    ensures After(c, s, Arrives(None, now)) == State(After(c, s, Fails(None, now)).l, s.open + 1)
    ensures After(c, s, Fails(None, now)).open == s.open && After(c, s, Fails(None, now)).l.active == s.l.active + 1
  {
    hide Since;
  }

  // ----- a counter that never falls -----

  /** Once the counter stands at the limit, only a close reported to the limiter makes room:
      without one nothing is accepted ever after, however few streams are open. */
  lemma {:induction false} NeverFreed(c: Config, s: State, run: seq<Event>)
    requires Full(c, s.l.active) && AcceptedCloses !in run && DialledCloses !in run
    ensures Full(c, AfterAll(c, s, run).l.active) && AfterAll(c, s, run).open <= s.open
    ensures forall e :: !Passes(c, AfterAll(c, s, run), e)
  {
    if run != [] {
      var e := run[|run| - 1];
      assert e in run && forall d | d in run[..|run| - 1] :: d in run;
      NeverFreed(c, s, run[..|run| - 1]);
    }
  }

  /** And attempts that are turned away after the count bring it there all by themselves: with
      a limit of n, n of them fill the counter, and no stream was ever open. */
  lemma {:induction false} FailuresFill(c: Config, n: nat, now: int)
    requires Off(c.total) && n <= c.maxStreams
    ensures var s := AfterAll(c, NOTHING, seq(n, i => Fails(None, now)));
            s.l.active == n && s.open == 0
  {
    if n > 0 {
      var run := seq(n, i => Fails(None, now));
      FailuresFill(c, n - 1, now);
      assert run[..n - 1] == seq(n - 1, i => Fails(None, now)) && run[n - 1] == Fails(None, now);
      AfterLast(c, run);
      Unlimited(c, AfterAll(c, NOTHING, run[..n - 1]), now);
      hide AfterAll, After;
    }
  }

  /** So after n failed attempts and whatever follows without a reported close, every attempt
      is refused and nothing is open. */
  lemma FailuresLockOut(c: Config, now: int, run: seq<Event>)
    requires Off(c.total) && c.maxStreams > 0 && AcceptedCloses !in run && DialledCloses !in run
    ensures var s := AfterAll(c, AfterAll(c, NOTHING, seq(c.maxStreams, i => Fails(None, now))), run);
            s.open == 0 && forall e :: !Passes(c, s, e)
  {
    FailuresFill(c, c.maxStreams, now);
    NeverFreed(c, AfterAll(c, NOTHING, seq(c.maxStreams, i => Fails(None, now))), run);
    hide AfterAll, Passes;
  }
}
