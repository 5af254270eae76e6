/** Pruning is invisible, and the limits hold in every sliding window. */
module LimitProofs {
  import opened Packets
  import opened Limits

  // ----- the limiter that forgets nothing -----

  datatype Entry = Entry(peer: Option<string>, at: int)

  /** The counter of active streams, and every connection ever accepted. */
  datatype Ledger = Ledger(active: nat, accepted: seq<Entry>)

  function Times(es: seq<Entry>): seq<int> {
    if es == [] then [] else Times(es[..|es| - 1]) + [es[|es| - 1].at]
  }

  function TimesOf(es: seq<Entry>, peer: string): seq<int> {
    if es == [] then []
    else
      var last := es[|es| - 1];
      TimesOf(es[..|es| - 1], peer) + if last.peer == Some(peer) then [last.at] else []
  }

  /** The decision on complete histories. */
  function Decide(c: Config, g: Ledger, peer: Option<string>, now: int): Verdict {
    if Full(c, g.active) then TooManyStreams
    else if Exceeded(Times(g.accepted), c.total, now).Some? then
      TotalExceeded(Exceeded(Times(g.accepted), c.total, now).value)
    else if peer.Some? && Exceeded(TimesOf(g.accepted, peer.value), c.peer, now).Some? then
      PeerExceeded(Exceeded(TimesOf(g.accepted, peer.value), c.peer, now).value)
    else Accepted
  }

  // ----- runs -----

  /** The configuration may change from one attempt to the next. */
  datatype Event = Attempt(c: Config, peer: Option<string>, now: int) | Closing | Tidying(now: int)

  datatype Outcome<S> = Outcome(s: S, v: Option<Verdict>)

  function React(l: Limiter, e: Event): Outcome<Limiter> {
    match e
    case Attempt(c, peer, now) => var r := Check(c, l, peer, now); Outcome(r.l, Some(r.v))
    case Closing => Outcome(Closed(l), None)
    case Tidying(now) => Outcome(Tidied(l, now), None)
  }

  function Note(g: Ledger, e: Event): Outcome<Ledger> {
    match e
    case Attempt(c, peer, now) =>
      var v := Decide(c, g, peer, now);
      Outcome(if v == Accepted then Ledger(g.active + 1, g.accepted + [Entry(peer, now)]) else g, Some(v))
    case Closing => Outcome(g.(active := if g.active > 0 then g.active - 1 else 0), None)
    case Tidying(_) => Outcome(g, None)
  }

  function Verdicts(l: Limiter, run: seq<Event>): seq<Option<Verdict>>
    decreases |run|
  {
    if run == [] then [] else [React(l, run[0]).v] + Verdicts(React(l, run[0]).s, run[1..])
  }

  function LedgerVerdicts(g: Ledger, run: seq<Event>): seq<Option<Verdict>>
    decreases |run|
  {
    if run == [] then [] else [Note(g, run[0]).v] + LedgerVerdicts(Note(g, run[0]).s, run[1..])
  }

  function TimeOf(e: Event, t: int): int {
    match e
    case Attempt(_, _, now) => now
    case Closing => t
    case Tidying(now) => now
  }

  /** The clock never goes back. */
  predicate Monotone(run: seq<Event>, t: int)
    decreases |run|
  {
    run == [] || (t <= TimeOf(run[0], t) && Monotone(run[1..], TimeOf(run[0], t)))
  }

  // ----- pruning -----

  lemma {:induction false} SinceTwice(h: seq<int>, a: int, b: int)
    requires a <= b
    ensures Since(Since(h, a), b) == Since(h, b)
  {
    if h != [] {
      var rest := h[..|h| - 1];
      SinceTwice(rest, a, b);
      var kept := Since(rest, a);
      if h[|h| - 1] > a {
        assert Since(h, a)[..|kept|] == kept;
      } else {
        assert kept + [] == kept && Since(rest, b) + [] == Since(rest, b);
      }
    }
  }

  /** Two histories that agree on what is recent, as of some time. */
  ghost predicate Agree(h: seq<int>, k: seq<int>, t: int) {
    Since(h, t - DAY) == Since(k, t - DAY)
  }

  lemma AgreeLater(h: seq<int>, k: seq<int>, t: int, later: int)
    requires Agree(h, k, t) && t - DAY <= later
    ensures Since(h, later) == Since(k, later)
  {
    SinceTwice(h, t - DAY, later);
    SinceTwice(k, t - DAY, later);
  }

  lemma SameDecision(h: seq<int>, k: seq<int>, t: int, r: Rates, now: int)
    requires Agree(h, k, t) && t <= now
    ensures Exceeded(h, r, now) == Exceeded(k, r, now)
  {
    AgreeLater(h, k, t, now - MINUTE);
    AgreeLater(h, k, t, now - HOUR);
    AgreeLater(h, k, t, now - DAY);
    hide Since, Agree;
  }

  lemma PruneAgrees(h: seq<int>, k: seq<int>, t: int, now: int)
    requires Agree(h, k, t) && t <= now
    ensures Agree(Since(h, now - DAY), k, now) && Agree(h, k, now)
  {
    AgreeLater(h, k, t, now - DAY);
    SinceTwice(h, now - DAY, now - DAY);
  }

  lemma RecordAgrees(h: seq<int>, k: seq<int>, t: int, now: int)
    requires Agree(h, k, t)
    ensures Agree(h + [now], k + [now], t)
  {
    assert (h + [now])[..|h|] == h && (k + [now])[..|k|] == k;
  }

  /** The limiter has forgotten nothing that can still matter. */
  ghost predicate Represents(l: Limiter, g: Ledger, t: int) {
    && l.active == g.active
    && Agree(l.total, Times(g.accepted), t)
    && forall peer :: Agree(HistoryOf(l.peers, peer), TimesOf(g.accepted, peer), t)
  }

  lemma RepresentsLater(l: Limiter, g: Ledger, t: int, now: int)
    requires Represents(l, g, t) && t <= now
    ensures Represents(l, g, now) && Represents(TotalPruned(l, now), g, now)
  {
    hide Agree, Since, Times, TimesOf, HistoryOf;
    PruneAgrees(l.total, Times(g.accepted), t, now);
    forall peer ensures Agree(HistoryOf(l.peers, peer), TimesOf(g.accepted, peer), now) {
      PruneAgrees(HistoryOf(l.peers, peer), TimesOf(g.accepted, peer), t, now);
    }
  }

  lemma PeerPrunedRepresents(c: Config, l: Limiter, g: Ledger, peer: Option<string>, now: int)
    requires Represents(l, g, now)
    ensures Represents(PeerPruned(c, l, peer, now), g, now)
  {
    hide Agree, Since, Times, TimesOf;
    var q := PeerPruned(c, l, peer, now);
    forall p ensures Agree(HistoryOf(q.peers, p), TimesOf(g.accepted, p), now) {
      PruneAgrees(HistoryOf(l.peers, p), TimesOf(g.accepted, p), now, now);
    }
  }

  lemma RecordedRepresents(l: Limiter, g: Ledger, peer: Option<string>, now: int)
    requires Represents(l, g, now)
    ensures Represents(Recorded(l, peer, now), Ledger(g.active + 1, g.accepted + [Entry(peer, now)]), now)
  {
    hide Agree, Since;
    var q := Recorded(l, peer, now);
    var es := g.accepted + [Entry(peer, now)];
    assert es[..|es| - 1] == g.accepted;
    RecordAgrees(l.total, Times(g.accepted), now, now);
    forall p ensures Agree(HistoryOf(q.peers, p), TimesOf(es, p), now) {
      assert Agree(HistoryOf(l.peers, p), TimesOf(g.accepted, p), now);
      assert TimesOf(g.accepted, p) + [] == TimesOf(g.accepted, p);
      RecordAgrees(HistoryOf(l.peers, p), TimesOf(g.accepted, p), now, now);
    }
  }

  lemma TidiedRepresents(l: Limiter, g: Ledger, now: int)
    requires Represents(l, g, now)
    ensures Represents(Tidied(l, now), g, now)
  {
    hide Agree, Times, TimesOf;
    var q := Tidied(l, now);
    forall p ensures Agree(HistoryOf(q.peers, p), TimesOf(g.accepted, p), now) {
      PruneAgrees(HistoryOf(l.peers, p), TimesOf(g.accepted, p), now, now);
      assert HistoryOf(q.peers, p) == Since(HistoryOf(l.peers, p), now - DAY);
    }
  }

  lemma OffNeverExceeds(h: seq<int>, r: Rates, now: int)
    requires Off(r)
    ensures Exceeded(h, r, now) == None
  {
  }

  lemma CheckAgrees(c: Config, l: Limiter, g: Ledger, peer: Option<string>, t: int, now: int)
    requires Represents(l, g, t) && t <= now
    ensures Check(c, l, peer, now).v == Decide(c, g, peer, now)
    ensures Represents(Check(c, l, peer, now).l, Note(g, Attempt(c, peer, now)).s, now)
  {
    hide *;
    RepresentsLater(l, g, t, now);
    var l1 := TotalPruned(l, now);
    var l2 := PeerPruned(c, l1, peer, now);
    TotalAgrees(l1, g, c, now);
    TotalAgrees(l, g, c, now);
    PeerPrunedRepresents(c, l1, g, peer, now);
    PeerAgrees(c, l2, g, peer, now);
    RecordedRepresents(l2, g, peer, now);
    CheckIs(c, l, g, peer, now);
  }

  /** The branches of the limiter and of the ledger correspond. */
  lemma CheckIs(c: Config, l: Limiter, g: Ledger, peer: Option<string>, now: int)
    requires l.active == g.active
    requires var l1 := TotalPruned(l, now);
             && Exceeded(l1.total, c.total, now) == Exceeded(Times(g.accepted), c.total, now)
             && PeerCheck(c, PeerPruned(c, l1, peer, now), peer, now)
                == (if peer.Some? then Exceeded(TimesOf(g.accepted, peer.value), c.peer, now) else None)
    ensures var r := Check(c, l, peer, now);
            var l1 := TotalPruned(l, now);
            var l2 := PeerPruned(c, l1, peer, now);
            && r.v == Decide(c, g, peer, now)
            && (if r.v == Accepted
                then r.l == Recorded(l2, peer, now)
                     && Note(g, Attempt(c, peer, now)).s == Ledger(g.active + 1, g.accepted + [Entry(peer, now)])
                else (r.l == l || r.l == l1 || r.l == l2) && Note(g, Attempt(c, peer, now)).s == g)
  {
    hide TotalPruned, PeerPruned, PeerCheck, Exceeded, Recorded, Times, TimesOf;
  }

  lemma TotalAgrees(l: Limiter, g: Ledger, c: Config, now: int)
    requires Represents(l, g, now)
    ensures l.active == g.active && Exceeded(l.total, c.total, now) == Exceeded(Times(g.accepted), c.total, now)
  {
    SameDecision(l.total, Times(g.accepted), now, c.total, now);
    hide Exceeded, Agree, Times, TimesOf, HistoryOf;
  }

  lemma PeerAgrees(c: Config, l: Limiter, g: Ledger, peer: Option<string>, now: int)
    requires Represents(l, g, now)
    ensures PeerCheck(c, l, peer, now)
            == if peer.Some? then Exceeded(TimesOf(g.accepted, peer.value), c.peer, now) else None
  {
    if peer.Some? { OffIsNone(c, l, g, peer.value, now); }
    hide Exceeded, Represents, TimesOf, HistoryOf, Off;
  }

  lemma OffIsNone(c: Config, l: Limiter, g: Ledger, peer: string, now: int)
    requires Represents(l, g, now)
    ensures PeerCheck(c, l, Some(peer), now) == Exceeded(TimesOf(g.accepted, peer), c.peer, now)
  {
    assert Agree(HistoryOf(l.peers, peer), TimesOf(g.accepted, peer), now);
    SameDecision(HistoryOf(l.peers, peer), TimesOf(g.accepted, peer), now, c.peer, now);
    if Off(c.peer) { OffNeverExceeds(TimesOf(g.accepted, peer), c.peer, now); }
    hide Exceeded, HistoryOf, Agree, TimesOf;
  }

  lemma ReactAgrees(l: Limiter, g: Ledger, e: Event, t: int)
    requires Represents(l, g, t) && t <= TimeOf(e, t)
    ensures React(l, e).v == Note(g, e).v
    ensures Represents(React(l, e).s, Note(g, e).s, TimeOf(e, t))
  {
    hide Represents, Check, Decide, Tidied, Closed;
    match e
    case Attempt(c, peer, now) => CheckAgrees(c, l, g, peer, t, now);
    case Closing => ClosedRepresents(l, g, t);
    case Tidying(now) =>
      RepresentsLater(l, g, t, now);
      TidiedRepresents(l, g, now);
  }

  /** With a monotone clock the limiter, pruning at every check and cleaned up at any moment,
      accepts and rejects exactly as one that keeps every timestamp for ever, whatever
      configuration is in force at each attempt. */
  lemma {:induction false} PruningIsInvisible(l: Limiter, g: Ledger, run: seq<Event>, t: int)
    requires Represents(l, g, t) && Monotone(run, t)
    ensures Verdicts(l, run) == LedgerVerdicts(g, run)
    decreases |run|
  {
    hide Represents, React, Note, TimeOf;
    if run != [] {
      ReactAgrees(l, g, run[0], t);
      PruningIsInvisible(React(l, run[0]).s, Note(g, run[0]).s, run[1..], TimeOf(run[0], t));
    }
  }

  lemma ClosedRepresents(l: Limiter, g: Ledger, t: int)
    requires Represents(l, g, t)
    ensures Represents(Closed(l), Note(g, Closing).s, t)
  {
    hide Agree, Times, TimesOf, HistoryOf;
  }

  lemma EmptyRepresents(t: int)
    ensures Represents(Limiter(0, [], map[]), Ledger(0, []), t)
  {
  }

  // ----- the limits in every window -----

  /** The timestamps in a window that is open at its beginning. */
  function Between(h: seq<int>, from: int, to: int): seq<int> {
    if h == [] then []
    else
      var last := h[|h| - 1];
      Between(h[..|h| - 1], from, to) + (if from < last <= to then [last] else [])
  }

  predicate Ordered(h: seq<int>, t: int) {
    h == [] || (h[|h| - 1] <= t && Ordered(h[..|h| - 1], h[|h| - 1]))
  }

  /** Every timestamp was recorded while fewer than `limit` lay in the window before it. */
  predicate Guarded(h: seq<int>, limit: int, window: int) {
    h == [] ||
    (|Since(h[..|h| - 1], h[|h| - 1] - window)| < limit && Guarded(h[..|h| - 1], limit, window))
  }

  lemma {:induction false} BetweenIsSince(h: seq<int>, from: int, to: int)
    requires Ordered(h, to)
    ensures Between(h, from, to) == Since(h, from)
  {
    if h != [] {
      OrderedLater(h[..|h| - 1], h[|h| - 1], to);
      BetweenIsSince(h[..|h| - 1], from, to);
    }
  }

  lemma OrderedLater(h: seq<int>, t: int, later: int)
    requires Ordered(h, t) && t <= later
    ensures Ordered(h, later)
  {
  }

  lemma {:induction false} FewerLater(h: seq<int>, a: int, b: int)
    requires a <= b
    ensures |Since(h, b)| <= |Since(h, a)|
  {
    if h != [] { FewerLater(h[..|h| - 1], a, b); }
  }

  /** A check at each acceptance suffices for every window, wherever it ends. */
  lemma {:induction false} GuardedMeansBounded(h: seq<int>, limit: nat, window: nat, now: int, t: int)
    requires Ordered(h, now) && Guarded(h, limit, window)
    ensures |Between(h, t - window, t)| <= limit
  {
    if h != [] {
      var rest, last := h[..|h| - 1], h[|h| - 1];
      if last > t {
        GuardedMeansBounded(rest, limit, window, last, t);
      } else {
        BetweenIsSince(h, t - window, t);
        FewerLater(rest, last - window, t - window);
      }
    }
  }

  /** All three windows of a history respect the rates. */
  ghost predicate Respects(h: seq<int>, r: Rates, t: int) {
    && (r.perMinute > 0 ==> |Between(h, t - MINUTE, t)| <= r.perMinute)
    && (r.perHour > 0 ==> |Between(h, t - HOUR, t)| <= r.perHour)
    && (r.perDay > 0 ==> |Between(h, t - DAY, t)| <= r.perDay)
  }

  ghost predicate AllGuarded(h: seq<int>, r: Rates) {
    && (r.perMinute > 0 ==> Guarded(h, r.perMinute, MINUTE))
    && (r.perHour > 0 ==> Guarded(h, r.perHour, HOUR))
    && (r.perDay > 0 ==> Guarded(h, r.perDay, DAY))
  }

  lemma GuardedRespects(h: seq<int>, r: Rates, now: int, t: int)
    requires Ordered(h, now) && AllGuarded(h, r)
    ensures Respects(h, r, t)
  {
    if r.perMinute > 0 { GuardedMeansBounded(h, r.perMinute, MINUTE, now, t); }
    if r.perHour > 0 { GuardedMeansBounded(h, r.perHour, HOUR, now, t); }
    if r.perDay > 0 { GuardedMeansBounded(h, r.perDay, DAY, now, t); }
    hide Between, Guarded, Ordered;
  }

  lemma OneGuarded(h: seq<int>, limit: int, window: int, now: int)
    requires Guarded(h, limit, window) && |Since(h, now - window)| < limit
    ensures Guarded(h + [now], limit, window)
  {
    assert (h + [now])[..|h|] == h;
    hide Since;
  }

  lemma AcceptedGuarded(h: seq<int>, r: Rates, t: int, now: int)
    requires Ordered(h, t) && t <= now && AllGuarded(h, r) && Exceeded(h, r, now) == None
    ensures Ordered(h + [now], now) && AllGuarded(h + [now], r)
  {
    hide *;
    OrderedAppend(h, t, now);
    ExceededIs(h, r, now);
    GuardedIs(h, r);
    if r.perMinute > 0 { OneGuarded(h, r.perMinute, MINUTE, now); }
    if r.perHour > 0 { OneGuarded(h, r.perHour, HOUR, now); }
    if r.perDay > 0 { OneGuarded(h, r.perDay, DAY, now); }
    GuardedIs(h + [now], r);
  }

  lemma OrderedAppend(h: seq<int>, t: int, now: int)
    requires Ordered(h, t) && t <= now
    ensures Ordered(h + [now], now)
  {
    assert (h + [now])[..|h|] == h;
    OrderedLater(h, t, now);
  }

  lemma GuardedIs(h: seq<int>, r: Rates)
    ensures AllGuarded(h, r) <==>
              && (r.perMinute > 0 ==> Guarded(h, r.perMinute, MINUTE))
              && (r.perHour > 0 ==> Guarded(h, r.perHour, HOUR))
              && (r.perDay > 0 ==> Guarded(h, r.perDay, DAY))
  {
    hide Guarded;
  }

  /** What the accepted connections satisfy under one configuration. */
  ghost predicate Kept(c: Config, g: Ledger, t: int) {
    && (c.maxStreams > 0 ==> g.active <= c.maxStreams)
    && Ordered(Times(g.accepted), t) && AllGuarded(Times(g.accepted), c.total)
    && forall peer :: PeerKept(c, g, peer, t)
  }

  ghost predicate PeerKept(c: Config, g: Ledger, peer: string, t: int) {
    Ordered(TimesOf(g.accepted, peer), t) && AllGuarded(TimesOf(g.accepted, peer), c.peer)
  }

  lemma KeptLater(c: Config, g: Ledger, t: int, now: int)
    requires Kept(c, g, t) && t <= now
    ensures Kept(c, g, now)
  {
    OrderedLater(Times(g.accepted), t, now);
    forall peer ensures PeerKept(c, g, peer, now) {
      assert PeerKept(c, g, peer, t);
      OrderedLater(TimesOf(g.accepted, peer), t, now);
    }
    hide Ordered, AllGuarded, Times, TimesOf, PeerKept;
  }

  lemma KeptIs(c: Config, g: Ledger, t: int)
    ensures Kept(c, g, t) <==>
              && (c.maxStreams > 0 ==> g.active <= c.maxStreams)
              && Ordered(Times(g.accepted), t) && AllGuarded(Times(g.accepted), c.total)
              && forall peer :: PeerKept(c, g, peer, t)
  {
    hide Ordered, AllGuarded, Times, TimesOf;
  }

  lemma PeerKeptIs(c: Config, g: Ledger, peer: string, t: int)
    ensures PeerKept(c, g, peer, t) <==>
              Ordered(TimesOf(g.accepted, peer), t) && AllGuarded(TimesOf(g.accepted, peer), c.peer)
  {
    hide Ordered, AllGuarded, TimesOf;
  }

  lemma AttemptKept(c: Config, g: Ledger, peer: Option<string>, t: int, now: int)
    requires Kept(c, g, t) && t <= now
    ensures Kept(c, Note(g, Attempt(c, peer, now)).s, now)
  {
    hide *;
    KeptLater(c, g, t, now);
    AttemptIs(c, g, peer, now);
    if Decide(c, g, peer, now) == Accepted {
      var g' := Ledger(g.active + 1, g.accepted + [Entry(peer, now)]);
      KeptIs(c, g, now);
      AcceptedGuarded(Times(g.accepted), c.total, now, now);
      forall p ensures PeerKept(c, g', p, now) {
        PeerKeptIs(c, g, p, now);
        PeerKeptIs(c, g', p, now);
        AppendedTimes(g.accepted, peer, now, p);
        if peer == Some(p) {
          AcceptedGuarded(TimesOf(g.accepted, p), c.peer, now, now);
        }
      }
      AppendedTimes(g.accepted, peer, now, "");
      KeptIs(c, g', now);
    }
  }

  lemma AppendedTimes(es: seq<Entry>, peer: Option<string>, now: int, p: string)
    ensures var more := es + [Entry(peer, now)];
            && Times(more) == Times(es) + [now]
            && TimesOf(more, p) == if peer == Some(p) then TimesOf(es, p) + [now] else TimesOf(es, p)
  {
    var more := es + [Entry(peer, now)];
    assert more[..|more| - 1] == es;
    assert TimesOf(es, p) + [] == TimesOf(es, p);
  }

  lemma AttemptIs(c: Config, g: Ledger, peer: Option<string>, now: int)
    ensures var v := Decide(c, g, peer, now);
            && (v == Accepted ==>
                  && Note(g, Attempt(c, peer, now)).s == Ledger(g.active + 1, g.accepted + [Entry(peer, now)])
                  && (c.maxStreams > 0 ==> g.active < c.maxStreams)
                  && Exceeded(Times(g.accepted), c.total, now) == None
                  && (peer.Some? ==> Exceeded(TimesOf(g.accepted, peer.value), c.peer, now) == None))
            && (v != Accepted ==> Note(g, Attempt(c, peer, now)).s == g)
  {
    hide Exceeded, Times, TimesOf;
  }

  function LedgerAfter(g: Ledger, run: seq<Event>): Ledger
    decreases |run|
  {
    if run == [] then g else LedgerAfter(Note(g, run[0]).s, run[1..])
  }

  function LimiterAfter(l: Limiter, run: seq<Event>): Limiter
    decreases |run|
  {
    if run == [] then l else LimiterAfter(React(l, run[0]).s, run[1..])
  }

  function EndOf(run: seq<Event>, t: int): int
    decreases |run|
  {
    if run == [] then t else EndOf(run[1..], TimeOf(run[0], t))
  }

  predicate Fixed(run: seq<Event>, c: Config) {
    forall e | e in run :: e.Attempt? ==> e.c == c
  }

  lemma {:induction false} RunKept(c: Config, l: Limiter, g: Ledger, run: seq<Event>, t: int)
    requires Kept(c, g, t) && Represents(l, g, t) && Monotone(run, t) && Fixed(run, c)
    ensures Kept(c, LedgerAfter(g, run), EndOf(run, t))
    ensures Represents(LimiterAfter(l, run), LedgerAfter(g, run), EndOf(run, t))
    decreases |run|
  {
    hide Kept, Represents, Check, Decide, Tidied, Note, React;
    if run != [] {
      assert run[0] in run;
      EventKept(c, l, g, run[0], t);
      assert forall e | e in run[1..] :: e in run;
      RunKept(c, React(l, run[0]).s, Note(g, run[0]).s, run[1..], TimeOf(run[0], t));
    }
  }

  lemma ClosingKept(c: Config, g: Ledger, t: int)
    requires Kept(c, g, t)
    ensures Kept(c, Note(g, Closing).s, t)
  {
    var g' := Note(g, Closing).s;
    forall peer ensures PeerKept(c, g', peer, t) {
      assert PeerKept(c, g, peer, t);
    }
    hide Ordered, AllGuarded, Times, TimesOf;
  }

  lemma EventKept(c: Config, l: Limiter, g: Ledger, e: Event, t: int)
    requires Kept(c, g, t) && Represents(l, g, t) && t <= TimeOf(e, t) && (e.Attempt? ==> e.c == c)
    ensures Kept(c, Note(g, e).s, TimeOf(e, t)) && Represents(React(l, e).s, Note(g, e).s, TimeOf(e, t))
  {
    ReactAgrees(l, g, e, t);
    match e
    case Attempt(_, peer, now) =>
      AttemptKept(c, g, peer, t, now);
      hide Represents, Kept, Decide, React;
    case Closing =>
      ClosingKept(c, g, t);
      hide Represents, Kept, React;
    case Tidying(now) =>
      KeptLater(c, g, t, now);
      hide Represents, Kept, React;
  }

  /** Under one configuration, at every instant t: the connections accepted in the minute,
      hour and day before t never exceed a positive limit, in total and per peer, and the
      counter activeStreams never exceeds a positive limit. */
  lemma LimitsHoldInEveryWindow(c: Config, run: seq<Event>, start: int, t: int)
    requires Monotone(run, start) && Fixed(run, c)
    ensures var g := LedgerAfter(Ledger(0, []), run);
            && Respects(Times(g.accepted), c.total, t)
            && (forall peer :: Respects(TimesOf(g.accepted, peer), c.peer, t))
            && (c.maxStreams > 0 ==> LimiterAfter(Limiter(0, [], map[]), run).active <= c.maxStreams)
  {
    var g := LedgerAfter(Ledger(0, []), run);
    var end := EndOf(run, start);
    EmptyRepresents(start);
    assert Kept(c, Ledger(0, []), start);
    RunKept(c, Limiter(0, [], map[]), Ledger(0, []), run, start);
    GuardedRespects(Times(g.accepted), c.total, end, t);
    forall peer ensures Respects(TimesOf(g.accepted, peer), c.peer, t) {
      assert PeerKept(c, g, peer, end);
      GuardedRespects(TimesOf(g.accepted, peer), c.peer, end, t);
    }
    hide Ordered, AllGuarded, Respects, Monotone, Agree, LedgerAfter, LimiterAfter;
  }

  // ----- a new configuration -----

  /** A changed configuration applies at once, and to the history gathered under the old ones:
      the next connection is accepted if and only if, counted in, it keeps every limit now in
      force. */
  lemma NewLimitsApplyAtOnce(l: Limiter, g: Ledger, c: Config, peer: Option<string>, t: int, now: int)
    requires Represents(l, g, t) && t <= now
    requires Ordered(Times(g.accepted), t) && forall p :: Ordered(TimesOf(g.accepted, p), t)
    ensures Check(c, l, peer, now).v == Accepted <==>
              && (c.maxStreams > 0 ==> l.active + 1 <= c.maxStreams)
              && Respects(Times(g.accepted) + [now], c.total, now)
              && (peer.Some? ==> Respects(TimesOf(g.accepted, peer.value) + [now], c.peer, now))
  {
    hide *;
    CheckAgrees(c, l, g, peer, t, now);
    TotalAgreesAt(l, g, c, t);
    DecideIs(c, g, peer, now);
    RoomExactly(Times(g.accepted), c.total, t, now);
    if peer.Some? { RoomExactly(TimesOf(g.accepted, peer.value), c.peer, t, now); }
  }

  lemma TotalAgreesAt(l: Limiter, g: Ledger, c: Config, t: int)
    requires Represents(l, g, t)
    ensures l.active == g.active
  {
    hide Agree, Times, TimesOf, HistoryOf;
  }

  lemma DecideIs(c: Config, g: Ledger, peer: Option<string>, now: int)
    ensures Decide(c, g, peer, now) == Accepted <==>
              && (c.maxStreams > 0 ==> g.active + 1 <= c.maxStreams)
              && Exceeded(Times(g.accepted), c.total, now) == None
              && (peer.Some? ==> Exceeded(TimesOf(g.accepted, peer.value), c.peer, now) == None)
  {
    hide Exceeded, Times, TimesOf;
  }

  /** No rate is exceeded exactly if there is room for one more in each of its windows. */
  lemma RoomExactly(h: seq<int>, r: Rates, t: int, now: int)
    requires Ordered(h, t) && t <= now
    ensures Exceeded(h, r, now) == None <==> Respects(h + [now], r, now)
  {
    hide *;
    OrderedLater(h, t, now);
    OneMoreBetween(h, now, MINUTE);
    OneMoreBetween(h, now, HOUR);
    OneMoreBetween(h, now, DAY);
    ExceededIs(h, r, now);
    RespectsIs(h + [now], r, now);
    Spans();
  }

  lemma Spans()
    ensures MINUTE > 0 && HOUR > 0 && DAY > 0
  {
  }

  lemma OneMoreBetween(h: seq<int>, now: int, window: int)
    requires Ordered(h, now)
    ensures window > 0 ==> |Between(h + [now], now - window, now)| == |Since(h, now - window)| + 1
  {
    assert (h + [now])[..|h|] == h;
    BetweenIsSince(h, now - window, now);
    hide Since, Ordered;
  }

  lemma ExceededIs(h: seq<int>, r: Rates, now: int)
    ensures Exceeded(h, r, now) == None <==>
              && (r.perMinute > 0 ==> |Since(h, now - MINUTE)| < r.perMinute)
              && (r.perHour > 0 ==> |Since(h, now - HOUR)| < r.perHour)
              && (r.perDay > 0 ==> |Since(h, now - DAY)| < r.perDay)
  {
    hide Since;
  }

  lemma RespectsIs(h: seq<int>, r: Rates, t: int)
    ensures Respects(h, r, t) <==>
              && (r.perMinute > 0 ==> |Between(h, t - MINUTE, t)| <= r.perMinute)
              && (r.perHour > 0 ==> |Between(h, t - HOUR, t)| <= r.perHour)
              && (r.perDay > 0 ==> |Between(h, t - DAY, t)| <= r.perDay)
  {
    hide Between;
  }

  // ----- which limit is named -----

  /** How many of the timestamps are later than t. */
  function Later(h: seq<int>, t: int): nat {
    |set i | 0 <= i < |h| && h[i] > t|
  }

  lemma {:induction false} SinceCounts(h: seq<int>, t: int)
    ensures |Since(h, t)| == Later(h, t)
  {
    var all := set i | 0 <= i < |h| && h[i] > t;
    if h == [] {
      assert all == {};
    } else {
      var n, k := |h| - 1, h[..|h| - 1];
      SinceCounts(k, t);
      var before := set i | 0 <= i < |k| && k[i] > t;
      if h[n] > t { assert all == before + {n}; } else { assert all == before; }
    }
  }

  /** The limit is on and as many timestamps lie in the time before now. */
  predicate Reached(h: seq<int>, limit: int, now: int, nanoseconds: int) {
    limit > 0 && Later(h, now - nanoseconds) >= limit
  }

  /** The first of the limits for 60 seconds, 3600 seconds and 24 hours that is reached. */
  function FirstReached(h: seq<int>, r: Rates, now: int): Option<Window> {
    if Reached(h, r.perMinute, now, 60_000_000_000) then Some(PerMinute)
    else if Reached(h, r.perHour, now, 3_600_000_000_000) then Some(PerHour)
    else if Reached(h, r.perDay, now, 86_400_000_000_000) then Some(PerDay)
    else None
  }

  /** A check names the first limit that stands in the way: that on streams, then the total ones,
      then the peer's, each of the latter by how many timestamps there are in its time. */
  lemma VerdictExactly(c: Config, l: Limiter, peer: Option<string>, now: int)
    ensures Check(c, l, peer, now).v
            == if c.maxStreams > 0 && l.active >= c.maxStreams then TooManyStreams
               else if FirstReached(l.total, c.total, now).Some? then TotalExceeded(FirstReached(l.total, c.total, now).value)
               else if peer.Some? && FirstReached(HistoryOf(l.peers, peer.value), c.peer, now).Some?
               then PeerExceeded(FirstReached(HistoryOf(l.peers, peer.value), c.peer, now).value)
               else Accepted
  {
    FirstExceeded(l.total, c.total, now);
    if peer.Some? {
      FirstExceeded(HistoryOf(l.peers, peer.value), c.peer, now);
    }
    hide Since, Exceeded, FirstReached;
  }

  /** Pruning what is older than a day does not change it. */
  lemma FirstExceeded(h: seq<int>, r: Rates, now: int)
    ensures Exceeded(Since(h, now - DAY), r, now) == FirstReached(h, r, now)
    ensures Off(r) ==> FirstReached(h, r, now) == None
  {
    SinceTwice(h, now - DAY, now - MINUTE);
    SinceTwice(h, now - DAY, now - HOUR);
    SinceTwice(h, now - DAY, now - DAY);
    SinceCounts(h, now - MINUTE);
    SinceCounts(h, now - HOUR);
    SinceCounts(h, now - DAY);
    hide Since, Later;
  }

  // ----- what is kept -----

  /** No timestamp is older than a day. */
  predicate Recent(h: seq<int>, now: int) {
    forall i | 0 <= i < |h| :: h[i] > now - 86_400_000_000_000
  }

  lemma {:induction false} SinceIsLater(h: seq<int>, t: int)
    ensures forall i | 0 <= i < |Since(h, t)| :: Since(h, t)[i] > t
  {
    if h != [] { SinceIsLater(h[..|h| - 1], t); }
  }

  lemma PrunedIsRecent(h: seq<int>, now: int)
    ensures Recent(Since(h, now - DAY), now) && |Since(h, now - DAY)| == Later(h, now - 86_400_000_000_000)
  {
    SinceIsLater(h, now - DAY);
    SinceCounts(h, now - DAY);
    hide Since, Later;
  }

  lemma RecentAppend(h: seq<int>, now: int)
    requires Recent(h, now)
    ensures Recent(h + [now], now)
  {
  }

  /** Histories do not pile up. A check that gets as far as the rates leaves nothing older than a
      day in total, nor, if it gets as far as the peer, for the peer. */
  lemma CheckKeepsRecent(c: Config, l: Limiter, peer: string, now: int)
    ensures var k := Check(c, l, Some(peer), now);
            && (k.v != TooManyStreams ==> Recent(k.l.total, now))
            && (!Off(c.peer) && (k.v.PeerExceeded? || k.v == Accepted) ==>
                  peer in k.l.peers && Recent(k.l.peers[peer], now))
  {
    var total, own := Since(l.total, now - DAY), Since(HistoryOf(l.peers, peer), now - DAY);
    PrunedIsRecent(l.total, now);
    PrunedIsRecent(HistoryOf(l.peers, peer), now);
    RecentAppend(total, now);
    RecentAppend(own, now);
    hide Since, Exceeded, Later, Recent;
  }

  /** And a clean-up leaves exactly the peers with timestamps of the last day, and of these all. */
  lemma TidyKeepsRecent(l: Limiter, now: int, peer: string)
    ensures var t := Tidied(l, now);
            && (peer in t.peers <==> peer in l.peers && Later(l.peers[peer], now - 86_400_000_000_000) > 0)
            && (peer in t.peers ==>
                  && Recent(t.peers[peer], now)
                  && |t.peers[peer]| == Later(l.peers[peer], now - 86_400_000_000_000))
            && t.total == l.total && t.active == l.active
  {
    if peer in l.peers { PrunedIsRecent(l.peers[peer], now); }
    hide Since, Later, Recent;
  }
}
