/** The sliding-window connection limiter of limits.go, against one that keeps every
    timestamp for ever. Times are in nanoseconds. */
module Limits {
  import opened Packets

  const MINUTE := 60_000_000_000
  const HOUR := 3_600_000_000_000
  const DAY := 86_400_000_000_000

  /** Limits that are zero or negative are off. */
  datatype Rates = Rates(perMinute: int, perHour: int, perDay: int)

  datatype Config = Config(maxStreams: int, peer: Rates, total: Rates)

  datatype Window = PerMinute | PerHour | PerDay

  datatype Verdict = Accepted | TooManyStreams | TotalExceeded(w: Window) | PeerExceeded(w: Window)

  datatype Limiter = Limiter(active: nat, total: seq<int>, peers: map<string, seq<int>>)

  // ----- what the limiter computes -----

  /** The timestamps strictly after a given time, in their order. */
  function Since(h: seq<int>, since: int): seq<int> {
    if h == [] then []
    else Since(h[..|h| - 1], since) + (if h[|h| - 1] > since then [h[|h| - 1]] else [])
  }

  function Exceeded(h: seq<int>, r: Rates, now: int): Option<Window> {
    if r.perMinute > 0 && |Since(h, now - MINUTE)| >= r.perMinute then Some(PerMinute)
    else if r.perHour > 0 && |Since(h, now - HOUR)| >= r.perHour then Some(PerHour)
    else if r.perDay > 0 && |Since(h, now - DAY)| >= r.perDay then Some(PerDay)
    else None
  }

  function HistoryOf(peers: map<string, seq<int>>, peer: string): seq<int> {
    if peer in peers then peers[peer] else []
  }

  predicate Off(r: Rates) {
    r.perMinute <= 0 && r.perHour <= 0 && r.perDay <= 0
  }

  predicate Full(c: Config, active: nat) {
    c.maxStreams > 0 && active >= c.maxStreams
  }

  /** checkTotalRateLimitsLocked. */
  function TotalPruned(l: Limiter, now: int): Limiter {
    l.(total := Since(l.total, now - DAY))
  }

  /** checkPeerRateLimitsLocked creates and prunes the peer's history, unless nothing limits it. */
  function PeerPruned(c: Config, l: Limiter, peer: Option<string>, now: int): Limiter {
    if peer.None? || Off(c.peer) then l
    else l.(peers := l.peers[peer.value := Since(HistoryOf(l.peers, peer.value), now - DAY)])
  }

  function PeerCheck(c: Config, l: Limiter, peer: Option<string>, now: int): Option<Window> {
    if peer.None? || Off(c.peer) then None else Exceeded(HistoryOf(l.peers, peer.value), c.peer, now)
  }

  function Recorded(l: Limiter, peer: Option<string>, now: int): Limiter {
    Limiter(l.active + 1, l.total + [now],
            if peer.Some? then l.peers[peer.value := HistoryOf(l.peers, peer.value) + [now]] else l.peers)
  }

  datatype Checked = Checked(l: Limiter, v: Verdict)

  /** CheckAndRecordConnection. */
  function Check(c: Config, l: Limiter, peer: Option<string>, now: int): Checked {
    if Full(c, l.active) then Checked(l, TooManyStreams)
    else
      var l1 := TotalPruned(l, now);
      var total := Exceeded(l1.total, c.total, now);
      if total.Some? then Checked(l1, TotalExceeded(total.value))
      else
        var l2 := PeerPruned(c, l1, peer, now);
        var single := PeerCheck(c, l2, peer, now);
        if single.Some? then Checked(l2, PeerExceeded(single.value))
        else Checked(Recorded(l2, peer, now), Accepted)
  }

  /** CleanupStaleHistory. */
  function Tidied(l: Limiter, now: int): Limiter {
    l.(peers := map peer | peer in l.peers && Since(l.peers[peer], now - DAY) != [] :: Since(l.peers[peer], now - DAY))
  }

  /** The clean-up in progress, with some peers still to be visited. */
  function HalfTidied(peers: map<string, seq<int>>, todo: set<string>, now: int): map<string, seq<int>> {
    map p | p in peers && (p in todo || Since(peers[p], now - DAY) != []) ::
      if p in todo then peers[p] else Since(peers[p], now - DAY)
  }

  lemma TidyOne(peers: map<string, seq<int>>, todo: set<string>, p: string, now: int)
    requires todo <= peers.Keys && p in todo
    ensures var before, after := HalfTidied(peers, todo, now), HalfTidied(peers, todo - {p}, now);
            var kept := Since(peers[p], now - DAY);
            && p in before && before[p] == peers[p]
            && (kept == [] ==> after == before - {p} && |after| == |before| - 1)
            && (kept != [] ==> after == before[p := kept] && |after| == |before|)
  {
    hide Since;
    var before, after := HalfTidied(peers, todo, now), HalfTidied(peers, todo - {p}, now);
    var kept := Since(peers[p], now - DAY);
    if kept == [] {
      assert after == before - {p};
      assert before.Keys == after.Keys + {p};
    } else {
      assert after == before[p := kept];
      assert after.Keys == before.Keys;
    }
    hide HalfTidied;
    assert |before| == |before.Keys| && |after| == |after.Keys|;
  }

  function Closed(l: Limiter): Limiter {
    l.(active := if l.active > 0 then l.active - 1 else 0)
  }

  // ----- the limiter -----

  /** pruneOldEntriesLocked. */
  method PruneOldEntries(h: seq<int>, now: int) returns (kept: seq<int>)
    ensures kept == Since(h, now - DAY)
  {
    var cutoff := now - DAY;
    kept := [];
    for i := 0 to |h|
      invariant kept == Since(h[..i], cutoff)
    {
      assert h[..i + 1][..i] == h[..i];
      if h[i] > cutoff { kept := kept + [h[i]]; }
    }
    assert h[..|h|] == h;
  }

  /** countSinceLocked. */
  method CountSince(h: seq<int>, since: int) returns (count: nat)
    ensures count == |Since(h, since)|
  {
    count := 0;
    for i := 0 to |h|
      invariant count == |Since(h[..i], since)|
    {
      assert h[..i + 1][..i] == h[..i];
      if h[i] > since { count := count + 1; }
    }
    assert h[..|h|] == h;
  }

  method CheckRates(h: seq<int>, r: Rates, now: int) returns (w: Option<Window>)
    ensures w == Exceeded(h, r, now)
  {
    if r.perMinute > 0 {
      var count := CountSince(h, now - MINUTE);
      if count >= r.perMinute { return Some(PerMinute); }
    }
    if r.perHour > 0 {
      var count := CountSince(h, now - HOUR);
      if count >= r.perHour { return Some(PerHour); }
    }
    if r.perDay > 0 {
      var count := CountSince(h, now - DAY);
      if count >= r.perDay { return Some(PerDay); }
    }
    w := None;
  }

  class ConnectionLimiter {
    var config: Config
    var activeStreams: nat
    var peerHistory: map<string, seq<int>>
    var totalHistory: seq<int>

    function State(): Limiter
      reads `activeStreams, `peerHistory, `totalHistory
    {
      Limiter(activeStreams, totalHistory, peerHistory)
    }

    constructor (config: Config)
      ensures this.config == config && State() == Limiter(0, [], map[])
    {
      this.config := config;
      activeStreams, peerHistory, totalHistory := 0, map[], [];
    }

    method SetConfig(config: Config)
      modifies `config
      ensures this.config == config && State() == old(State())
      ensures forall peer, now :: Check(this.config, State(), peer, now) == Check(config, old(State()), peer, now)
    {
      this.config := config;
    }

    method CheckConcurrentLimit() returns (exceeded: bool)
      ensures exceeded == Full(config, activeStreams)
    {
      exceeded := config.maxStreams > 0 && activeStreams >= config.maxStreams;
    }

    method CheckTotalRateLimits(now: int) returns (w: Option<Window>)
      modifies `totalHistory
      ensures State() == TotalPruned(old(State()), now)
      ensures w == Exceeded(totalHistory, config.total, now)
    {
      totalHistory := PruneOldEntries(totalHistory, now);
      w := CheckRates(totalHistory, config.total, now);
    }

    method CheckPeerRateLimits(peer: Option<string>, now: int) returns (w: Option<Window>)
      modifies `peerHistory
      ensures State() == PeerPruned(config, old(State()), peer, now)
      ensures w == PeerCheck(config, State(), peer, now)
    {
      if peer.None? { return None; }
      if config.peer.perMinute <= 0 && config.peer.perHour <= 0 && config.peer.perDay <= 0 { return None; }
      var history := HistoryOf(peerHistory, peer.value);
      history := PruneOldEntries(history, now);
      peerHistory := peerHistory[peer.value := history];
      w := CheckRates(history, config.peer, now);
    }

    method RecordConnection(peer: Option<string>, now: int)
      modifies `activeStreams, `totalHistory, `peerHistory
      ensures State() == Recorded(old(State()), peer, now)
    {
      activeStreams := activeStreams + 1;
      totalHistory := totalHistory + [now];
      if peer.Some? {
        peerHistory := peerHistory[peer.value := HistoryOf(peerHistory, peer.value) + [now]];
      }
    }

    method CheckAndRecordConnection(peer: Option<string>, now: int) returns (v: Verdict)
      modifies `activeStreams, `totalHistory, `peerHistory
      ensures Checked(State(), v) == Check(config, old(State()), peer, now)
    {
      hide Since, Exceeded, PeerPruned, PeerCheck;
      var full := CheckConcurrentLimit();
      if full { return TooManyStreams; }
      var total := CheckTotalRateLimits(now);
      if total.Some? { return TotalExceeded(total.value); }
      var single := CheckPeerRateLimits(peer, now);
      if single.Some? { return PeerExceeded(single.value); }
      RecordConnection(peer, now);
      v := Accepted;
    }

    method ConnectionClosed()
      modifies `activeStreams
      ensures State() == Closed(old(State()))
    {
      if activeStreams > 0 { activeStreams := activeStreams - 1; }
    }

    method CleanupStaleHistory(now: int) returns (removed: nat)
      modifies `peerHistory
      ensures State() == Tidied(old(State()), now)
      ensures removed == |old(peerHistory)| - |peerHistory|
    {
      hide Since;
      removed := 0;
      var todo := peerHistory.Keys;
      while todo != {}
        invariant todo <= old(peerHistory).Keys
        invariant peerHistory == HalfTidied(old(peerHistory), todo, now)
        invariant removed == |old(peerHistory)| - |peerHistory|
        decreases todo
      {
        var p :| p in todo;
        var history := PruneOldEntries(peerHistory[p], now);
        TidyOne(old(peerHistory), todo, p, now);
        todo := todo - {p};
        if |history| == 0 {
          peerHistory := peerHistory - {p};
          removed := removed + 1;
        } else {
          peerHistory := peerHistory[p := history];
        }
      }
    }
  }
}
