/** Slow start, congestion avoidance and the control-block cache of tcb_cache.go that
    carries their state from one connection to the next. */
module Congestion {
  import opened Timing

  const DEFAULT_WINDOW := 6
  const MAX_WINDOW := 128

  datatype Window = Window(cwnd: nat, ssthresh: nat, windowSize: nat)

  const FreshWindow := Window(DEFAULT_WINDOW, MAX_WINDOW, DEFAULT_WINDOW)

  function MinNat(a: nat, b: nat): nat {
    if a < b then a else b
  }

  /** updateCongestionWindow. */
  function Grow(w: Window): Window {
    var cwnd := if w.cwnd < w.ssthresh then MinNat(w.cwnd * 2, w.ssthresh) else MinNat(w.cwnd + 1, MAX_WINDOW);
    w.(cwnd := cwnd, windowSize := cwnd)
  }

  /** reduceCongestionWindowLocked. */
  function Reduce(w: Window): Window {
    var half := if w.cwnd / 2 < 2 then 2 else w.cwnd / 2;
    Window(half, half, half)
  }

  predicate InBounds(w: Window) {
    2 <= w.cwnd <= MAX_WINDOW && 2 <= w.ssthresh <= MAX_WINDOW
  }

  /** The window after k acknowledgements in a row. */
  function Grown(w: Window, k: nat): Window {
    if k == 0 then w else Grow(Grown(w, k - 1))
  }

  /** Slow start: from a window below the threshold, each acknowledgement doubles it until the
      threshold is met exactly, never overshot. */
  lemma {:induction false} SlowStartDoubles(w: Window, k: nat)
    requires InBounds(w) && w.cwnd <= w.ssthresh && (k > 0 ==> Pow2(k - 1) * w.cwnd < w.ssthresh)
    ensures Grown(w, k).cwnd == MinNat(Pow2(k) * w.cwnd, w.ssthresh)
    ensures Grown(w, k).ssthresh == w.ssthresh
  {
    if k > 0 {
      Pow2Times(k, w.cwnd);
      if k > 1 { Pow2Times(k - 1, w.cwnd); }
      hide Pow2;
      SlowStartDoubles(w, k - 1);
    } else {
      assert Pow2(0) * w.cwnd == w.cwnd;
    }
  }

  lemma Pow2Times(k: nat, c: nat)
    requires k > 0
    ensures Pow2(k) * c == 2 * (Pow2(k - 1) * c)
  {
  }

  /** Congestion avoidance: from the threshold on, one packet per acknowledgement up to 128. */
  lemma {:induction false} AvoidanceAddsOne(w: Window, k: nat)
    requires InBounds(w) && w.ssthresh <= w.cwnd
    ensures Grown(w, k).cwnd == MinNat(w.cwnd + k, MAX_WINDOW)
    ensures Grown(w, k).ssthresh == w.ssthresh
  {
    if k > 0 { AvoidanceAddsOne(w, k - 1); }
  }

  /** A loss halves the window, to no less than 2, and slow start does not come back: k
      acknowledgements after it add k. */
  lemma LossThenLinear(w: Window, k: nat)
    requires InBounds(w)
    ensures Grown(Reduce(w), k).cwnd == MinNat((if w.cwnd < 4 then 2 else w.cwnd / 2) + k, MAX_WINDOW)
  {
    AvoidanceAddsOne(Reduce(w), k);
  }

  // ----- the cache -----

  datatype Config = Config(rttDampening: real, rttDevDampening: real, windowDampening: real, ttl: int, enabled: bool)

  datatype Entry = Entry(rtt: int, rttVariance: int, windowSize: nat, lastUpdate: int, sampleCount: nat)

  datatype Cached = Cached(rtt: int, rttVariance: int, windowSize: nat)

  datatype Lookup = Miss | Hit(data: Cached)

  predicate Expired(c: Config, e: Entry, now: int) {
    now - e.lastUpdate > c.ttl
  }

  /** Conversion of a float to an integer truncates toward zero. */
  function TruncateReal(x: real): int {
    if x >= 0.0 then x.Floor else -((-x).Floor)
  }

  function Scaled(x: int, factor: real): int {
    TruncateReal(x as real * factor)
  }

  /** A window scaled by the dampening factor, at least one packet; a negative product has
      no defined conversion in the source and is taken as zero. */
  function DampedWindow(window: nat, dampening: real): (w: nat)
    ensures w >= 1
  {
    var scaled := Scaled(window, dampening);
    if scaled < 1 then 1 else scaled
  }

  function Damped(c: Config, e: Entry): Cached {
    Cached(Scaled(e.rtt, c.rttDampening), Scaled(e.rttVariance, c.rttDevDampening), DampedWindow(e.windowSize, c.windowDampening))
  }

  function Find(c: Config, entries: map<string, Entry>, key: string, now: int): Lookup {
    if !c.enabled || key == "" || key !in entries || Expired(c, entries[key], now) then Miss
    else Hit(Damped(c, entries[key]))
  }

  function Store(c: Config, entries: map<string, Entry>, key: string, rtt: int, rttVariance: int,
                 window: nat, now: int): map<string, Entry>
  {
    if !c.enabled || key == "" || (rtt == 0 && rttVariance == 0) then entries
    else if key in entries then
      var e := entries[key];
      entries[key := Entry(Truncate(e.rtt + rtt, 2), Truncate(e.rttVariance + rttVariance, 2),
                           (e.windowSize + window) / 2, now, e.sampleCount + 1)]
    else entries[key := Entry(rtt, rttVariance, window, now, 1)]
  }

  function Swept(c: Config, entries: map<string, Entry>, now: int): map<string, Entry> {
    map key | key in entries && !Expired(c, entries[key], now) :: entries[key]
  }

  class TcbCache {
    var config: Config
    var entries: map<string, Entry>

    constructor (config: Config)
      ensures this.config == config && entries == map[]
    {
      this.config := config;
      entries := map[];
    }

    /** The cached parameters, dampened; an expired entry is dropped on the way. */
    method Get(key: string, now: int) returns (r: Lookup)
      modifies `entries
      ensures r == Find(config, old(entries), key, now)
      ensures entries == if config.enabled && key != "" && key in old(entries) && Expired(config, old(entries)[key], now)
                         then old(entries) - {key} else old(entries)
    {
      if !config.enabled || key == "" { return Miss; }
      if key !in entries { return Miss; }
      var entry := entries[key];
      if now - entry.lastUpdate > config.ttl {
        entries := entries - {key};
        return Miss;
      }
      hide Scaled;
      var window := Scaled(entry.windowSize, config.windowDampening);
      if window < 1 { window := 1; }
      r := Hit(Cached(Scaled(entry.rtt, config.rttDampening), Scaled(entry.rttVariance, config.rttDevDampening), window));
    }

    method Put(key: string, rtt: int, rttVariance: int, window: nat, now: int)
      modifies `entries
      ensures entries == Store(config, old(entries), key, rtt, rttVariance, window, now)
    {
      if !config.enabled || key == "" { return; }
      if rtt == 0 && rttVariance == 0 { return; }
      if key in entries {
        var e := entries[key];
        e := e.(rtt := Truncate(e.rtt + rtt, 2));
        e := e.(rttVariance := Truncate(e.rttVariance + rttVariance, 2));
        e := e.(windowSize := (e.windowSize + window) / 2);
        e := e.(lastUpdate := now, sampleCount := e.sampleCount + 1);
        entries := entries[key := e];
      } else {
        entries := entries[key := Entry(rtt, rttVariance, window, now, 1)];
      }
    }

    method CleanupExpired(now: int) returns (removed: nat)
      modifies `entries
      ensures entries == Swept(config, old(entries), now)
      ensures removed == |old(entries)| - |entries|
    {
      removed := 0;
      var todo := entries.Keys;
      while todo != {}
        invariant todo <= entries.Keys <= old(entries).Keys
        invariant forall k | k in entries :: entries[k] == old(entries)[k]
        invariant forall k | k in entries && k !in todo :: !Expired(config, entries[k], now)
        invariant forall k | k in old(entries) && k !in entries :: Expired(config, old(entries)[k], now)
        invariant removed == |old(entries)| - |entries|
        decreases todo
      {
        var key :| key in todo;
        todo := todo - {key};
        if now - entries[key].lastUpdate > config.ttl {
          assert entries.Keys == (entries - {key}).Keys + {key};
          entries := entries - {key};
          removed := removed + 1;
        }
      }
    }
  }

  // ----- a new connection -----

  /** applyTCBDataToConnection on the window; windowSize keeps its old value. */
  function AppliedWindow(w: Window, data: Cached): Window {
    if data.windowSize > 0 && data.windowSize > w.cwnd
    then w.(cwnd := data.windowSize, ssthresh := MinNat(data.windowSize * 2, MAX_WINDOW))
    else w
  }

  /** applyTCBDataToConnection on the timer. */
  function AppliedTimer(t: Timer, data: Cached): Timer {
    var t1 := if data.rtt > 0 then t.(srtt := data.rtt, rtt := data.rtt) else t;
    var t2 := if data.rttVariance > 0 then t1.(rttVariance := data.rttVariance) else t1;
    if data.rtt > 0 || data.rttVariance > 0 then t2.(rto := CacheRto(t2.srtt, t2.rttVariance)) else t2
  }

  function Opened(c: Config, entries: map<string, Entry>, key: string, now: int): Window {
    match Find(c, entries, key, now)
    case Miss => FreshWindow
    case Hit(data) => AppliedWindow(FreshWindow, data)
  }

  // ----- bounds across generations of connections -----

  datatype Hosts = Hosts(conns: map<nat, Window>, entries: map<string, Entry>)

  datatype Op =
    | Acked(id: nat)
    | Lost(id: nat)
    | Open(id: nat, key: string, now: int)
    | Close(id: nat, key: string, rtt: int, rttVariance: int, now: int)
    | Cleanup(now: int)

  function Do(c: Config, w: Hosts, op: Op): Hosts {
    match op
    case Acked(id) => if id in w.conns then w.(conns := w.conns[id := Grow(w.conns[id])]) else w
    case Lost(id) => if id in w.conns then w.(conns := w.conns[id := Reduce(w.conns[id])]) else w
    case Open(id, key, now) =>
      Hosts(w.conns[id := Opened(c, w.entries, key, now)], w.entries)
    case Close(id, key, rtt, rttVariance, now) =>
      if id in w.conns
      then Hosts(w.conns - {id}, Store(c, w.entries, key, rtt, rttVariance, w.conns[id].cwnd, now))
      else w
    case Cleanup(now) => w.(entries := Swept(c, w.entries, now))
  }

  function DoAll(c: Config, w: Hosts, ops: seq<Op>): Hosts
    decreases |ops|
  {
    if ops == [] then w else DoAll(c, Do(c, w, ops[0]), ops[1..])
  }

  ghost predicate AllInBounds(w: Hosts) {
    && (forall id | id in w.conns :: InBounds(w.conns[id]))
    && (forall key | key in w.entries :: 2 <= w.entries[key].windowSize <= MAX_WINDOW)
  }

  /** A factor below 129/128, also a negative one, cannot push a window beyond the maximum. */
  lemma DampedWithin(window: nat, dampening: real)
    requires window <= MAX_WINDOW && 128.0 * dampening < 129.0
    ensures DampedWindow(window, dampening) <= MAX_WINDOW
  {
    if dampening >= 0.0 {
      assert window as real * dampening <= 128.0 * dampening;
    } else {
      assert window as real * dampening <= 0.0;
    }
  }

  lemma OpKeepsBounds(c: Config, w: Hosts, op: Op)
    requires AllInBounds(w) && (!c.enabled || 128.0 * c.windowDampening < 129.0)
    ensures AllInBounds(Do(c, w, op))
  {
    match op
    case Open(id, key, now) =>
      if Find(c, w.entries, key, now).Hit? {
        DampedWithin(w.entries[key].windowSize, c.windowDampening);
      }
    case _ =>
  }

  /** 2 <= cwnd <= 128 and 2 <= ssthresh <= 128 in every connection of every history of
      acknowledgements, losses, closes into the cache and openings from it, while the factor
      of the cache stays below 129/128: in [0, 1], for one. */
  lemma {:induction false} WindowsBoundedAcrossConnections(c: Config, w: Hosts, ops: seq<Op>)
    requires AllInBounds(w) && (!c.enabled || 128.0 * c.windowDampening < 129.0)
    ensures AllInBounds(DoAll(c, w, ops))
    decreases |ops|
  {
    if ops != [] {
      OpKeepsBounds(c, w, ops[0]);
      WindowsBoundedAcrossConnections(c, Do(c, w, ops[0]), ops[1..]);
    }
  }

  /** The factor is not checked anywhere. Started from nothing, the bounds hold over every
      history if and only if the cache is off or its factor is below 129/128. */
  lemma BoundsHoldExactly(c: Config)
    ensures (forall ops :: AllInBounds(DoAll(c, Hosts(map[], map[]), ops)))
            <==> !c.enabled || 128.0 * c.windowDampening < 129.0
  {
    if !c.enabled || 128.0 * c.windowDampening < 129.0 {
      forall ops ensures AllInBounds(DoAll(c, Hosts(map[], map[]), ops)) {
        WindowsBoundedAcrossConnections(c, Hosts(map[], map[]), ops);
      }
    } else {
      FullWindowComesBackLarger(c);
      assert !AllInBounds(DoAll(c, Hosts(map[], map[]), EscapingHistory(c)));
    }
  }

  /** A connection grows its window to 128 and closes into the cache; the next one to the same
      peer starts from there. */
  function EscapingHistory(c: Config): seq<Op> {
    [Open(0, "peer", 0), Acked(0), Acked(0), Acked(0), Acked(0), Acked(0), Close(0, "peer", 1, 0, 0), Open(0, "peer", c.ttl)]
  }

  lemma FullWindowComesBackLarger(c: Config)
    requires c.enabled && 128.0 * c.windowDampening >= 129.0
    ensures !AllInBounds(DoAll(c, Hosts(map[], map[]), EscapingHistory(c)))
  {
    var ops := EscapingHistory(c);
    var w := Window(128, 128, 128);
    var kept := map["peer" := Entry(1, 0, 128, 0, 1)];
    GrownToFull(c);
    assert Do(c, Hosts(map[0 := w], map[]), ops[6]) == Hosts(map[], kept);
    DampedEscapes(c);
    var last := Do(c, Hosts(map[], kept), ops[7]);
    assert last.conns[0] == Opened(c, kept, "peer", c.ttl) && last.conns[0].cwnd > MAX_WINDOW;
    hide Do;
    EightSteps(c, ops);
  }

  lemma DampedEscapes(c: Config)
    requires 128.0 * c.windowDampening >= 129.0
    ensures DampedWindow(128, c.windowDampening) >= 129
  {
    assert (128 as real) * c.windowDampening == 128.0 * c.windowDampening;
    assert (128.0 * c.windowDampening).Floor >= 129;
  }

  lemma GrownToFull(c: Config)
    ensures var start := Do(c, Hosts(map[], map[]), Open(0, "peer", 0));
            Do(c, Do(c, Do(c, Do(c, Do(c, start, Acked(0)), Acked(0)), Acked(0)), Acked(0)), Acked(0))
            == Hosts(map[0 := Window(128, 128, 128)], map[])
  {
    assert Do(c, Hosts(map[], map[]), Open(0, "peer", 0)) == Hosts(map[0 := Window(6, 128, 6)], map[]);
    assert Do(c, Hosts(map[0 := Window(6, 128, 6)], map[]), Acked(0)) == Hosts(map[0 := Window(12, 128, 12)], map[]);
    assert Do(c, Hosts(map[0 := Window(12, 128, 12)], map[]), Acked(0)) == Hosts(map[0 := Window(24, 128, 24)], map[]);
    assert Do(c, Hosts(map[0 := Window(24, 128, 24)], map[]), Acked(0)) == Hosts(map[0 := Window(48, 128, 48)], map[]);
    assert Do(c, Hosts(map[0 := Window(48, 128, 48)], map[]), Acked(0)) == Hosts(map[0 := Window(96, 128, 96)], map[]);
    assert Do(c, Hosts(map[0 := Window(96, 128, 96)], map[]), Acked(0)) == Hosts(map[0 := Window(128, 128, 128)], map[]);
  }

  lemma EightSteps(c: Config, ops: seq<Op>)
    requires |ops| == 8
    ensures var w := Hosts(map[], map[]);
            DoAll(c, w, ops) == Do(c, Do(c, Do(c, Do(c, Do(c, Do(c, Do(c, Do(c, w, ops[0]), ops[1]), ops[2]), ops[3]),
                                                  ops[4]), ops[5]), ops[6]), ops[7])
  {
    hide Do;
    var w0 := Hosts(map[], map[]);
    var w4 := Do(c, Do(c, Do(c, Do(c, w0, ops[0]), ops[1]), ops[2]), ops[3]);
    FourSteps(c, w0, ops);
    FourSteps(c, w4, ops[4..]);
    assert ops[4..][4..] == [];
  }

  lemma FourSteps(c: Config, w: Hosts, ops: seq<Op>)
    requires |ops| >= 4
    ensures DoAll(c, w, ops) == DoAll(c, Do(c, Do(c, Do(c, Do(c, w, ops[0]), ops[1]), ops[2]), ops[3]), ops[4..])
  {
    hide Do;
    TwoSteps(c, w, ops);
    TwoSteps(c, Do(c, Do(c, w, ops[0]), ops[1]), ops[2..]);
    assert ops[2..][2..] == ops[4..];
  }

  lemma TwoSteps(c: Config, w: Hosts, ops: seq<Op>)
    requires |ops| >= 2
    ensures DoAll(c, w, ops) == DoAll(c, Do(c, Do(c, w, ops[0]), ops[1]), ops[2..])
  {
    hide Do;
    assert ops[1..][1..] == ops[2..] && ops[1..][0] == ops[1];
    assert DoAll(c, w, ops) == DoAll(c, Do(c, w, ops[0]), ops[1..]);
  }

  /** The advertised window size differs from cwnd after opening exactly when the cache
      raised cwnd; one acknowledgement or loss makes them equal again. */
  lemma WindowSizeLagsExactly(c: Config, entries: map<string, Entry>, key: string, now: int)
    ensures var w := Opened(c, entries, key, now);
            && (w.windowSize != w.cwnd <==>
                  Find(c, entries, key, now).Hit? && Find(c, entries, key, now).data.windowSize > DEFAULT_WINDOW)
            && Grow(w).windowSize == Grow(w).cwnd && Reduce(w).windowSize == Reduce(w).cwnd
  {
  }

  /** Cleaning is invisible to later lookups. */
  lemma CleanupInvisibleToGet(c: Config, entries: map<string, Entry>, now: int, key: string, later: int)
    requires now <= later
    ensures Find(c, Swept(c, entries, now), key, later) == Find(c, entries, key, later)
  {
  }

  /** It is not invisible to Put, which averages with an expired entry as long as nobody
      removed it: the stored entries agree exactly if there was no expired entry to blend. */
  lemma CleanupVisibleToPutExactly(c: Config, entries: map<string, Entry>, now: int, key: string,
                                   rtt: int, rttVariance: int, window: nat, later: int)
    requires c.enabled && key != "" && !(rtt == 0 && rttVariance == 0)
    requires forall k | k in entries :: entries[k].sampleCount >= 1
    ensures Store(c, Swept(c, entries, now), key, rtt, rttVariance, window, later)[key]
            == Store(c, entries, key, rtt, rttVariance, window, later)[key]
            <==> !(key in entries && Expired(c, entries[key], now))
  {
  }

  // ----- what the cache carries over -----

  /** A float cut to an integer: the whole number next to it towards 0. */
  predicate CutTo(x: real, n: int) {
    if x >= 0.0 then n as real <= x < (n + 1) as real else (n - 1) as real < x <= n as real
  }

  lemma TruncateCuts(x: real)
    ensures CutTo(x, TruncateReal(x))
  {
  }

  /** What a closed connection leaves behind: its own values if there was no entry, and otherwise
      the averages of these and the stored ones, cut to whole numbers; other entries stay. */
  lemma StoredExactly(c: Config, entries: map<string, Entry>, key: string, rtt: int, rttVariance: int,
                      window: nat, now: int)
    requires c.enabled && key != "" && !(rtt == 0 && rttVariance == 0) && rtt >= 0 && rttVariance >= 0
    requires key in entries ==> entries[key].rtt >= 0 && entries[key].rttVariance >= 0
    ensures var after := Store(c, entries, key, rtt, rttVariance, window, now);
            && key in after && after[key].lastUpdate == now
            && (forall k | k != key :: (k in after <==> k in entries) && (k in entries ==> after[k] == entries[k]))
            && (key !in entries ==> after[key] == Entry(rtt, rttVariance, window, now, 1))
            && (key in entries ==>
                  var e, a := entries[key], after[key];
                  && 2 * a.rtt <= e.rtt + rtt <= 2 * a.rtt + 1
                  && 2 * a.rttVariance <= e.rttVariance + rttVariance <= 2 * a.rttVariance + 1
                  && 2 * a.windowSize <= e.windowSize + window <= 2 * a.windowSize + 1
                  && a.sampleCount == e.sampleCount + 1)
  {
  }

  /** What the next connection finds: the stored values times their factors, cut to whole numbers,
      the window at least 1, if and only if the entry is not older than the time to live. */
  lemma FoundExactly(c: Config, entries: map<string, Entry>, key: string, now: int)
    requires c.enabled && key != ""
    ensures Find(c, entries, key, now).Hit? <==> key in entries && now - entries[key].lastUpdate <= c.ttl
    ensures Find(c, entries, key, now).Hit? ==>
              var d, e := Find(c, entries, key, now).data, entries[key];
              && CutTo(e.rtt as real * c.rttDampening, d.rtt)
              && CutTo(e.rttVariance as real * c.rttDevDampening, d.rttVariance)
              && d.windowSize >= 1
              && (e.windowSize as real * c.windowDampening >= 1.0 ==> CutTo(e.windowSize as real * c.windowDampening, d.windowSize))
              && (e.windowSize as real * c.windowDampening < 1.0 ==> d.windowSize == 1)
  {
    if Find(c, entries, key, now).Hit? {
      var e := entries[key];
      TruncateCuts(e.rtt as real * c.rttDampening);
      TruncateCuts(e.rttVariance as real * c.rttDevDampening);
      DampedExactly(e.windowSize, c.windowDampening);
    }
    hide TruncateReal, DampedWindow, CutTo;
  }

  lemma DampedExactly(window: nat, dampening: real)
    ensures var x := window as real * dampening;
            && (x >= 1.0 ==> CutTo(x, DampedWindow(window, dampening)))
            && (x < 1.0 ==> DampedWindow(window, dampening) == 1)
  {
    var x := window as real * dampening;
    TruncateCuts(x);
  }

  /** And what it makes of it: a cached window is taken if it is larger than 6, with the threshold
      at twice of it but at most 128; a cached RTT and variance if they are positive, with the
      timeout that follows from them. */
  lemma AppliedExactly(t: Timer, data: Cached)
    ensures var w := AppliedWindow(FreshWindow, data);
            && w.cwnd == (if data.windowSize > 6 then data.windowSize else 6)
            && w.ssthresh == (if data.windowSize <= 6 || data.windowSize >= 64 then 128 else 2 * data.windowSize)
            && w.windowSize == 6
    ensures var u := AppliedTimer(t, data);
            && u.srtt == (if data.rtt > 0 then data.rtt else t.srtt)
            && u.rtt == (if data.rtt > 0 then data.rtt else t.rtt)
            && u.rttVariance == (if data.rttVariance > 0 then data.rttVariance else t.rttVariance)
            && u.rto == if data.rtt > 0 || data.rttVariance > 0 then CacheRto(u.srtt, u.rttVariance) else t.rto
  {
  }
}
