/**
 The native scan as a whole: the worker pool runs one socket probe per port under the probes' own
 timers. Its moves are moves of the timed pool with the connect timeout plus the banner timeout as limit.
 */
module TimedScan {
  import opened Basics
  import opened WorkerPool
  import opened PoolTiming
  import opened SocketMachine

  const MAX_CONCURRENT: nat := 12
  const GLOBAL_TIMEOUT_MS: nat := 45000
  const PROBE_LIMIT_MS: nat := CONNECT_TIMEOUT_MS + BANNER_TIMEOUT_MS

  /** probes[i] belongs to call i. */
  datatype Scan = Scan(timed: Timed<PortResult>, probes: seq<Probe>)

  datatype ScanMove =
    | SocketFires(worker: nat, event: SocketEvent)
    | Continues(worker: nat)
    | Passes(elapsed: nat)

  /** The timer that settles the probe if nothing else does. */
  function TimerDue(p: Probe): nat {
    if p.connectedAt.Some? then p.connectedAt.value + BANNER_TIMEOUT_MS else p.startedAt + CONNECT_TIMEOUT_MS
  }

  predicate WaitsFor(w: Worker<PortResult>, probes: seq<Probe>, time: nat) {
    w.Awaiting? ==> w.task < |probes| && time <= TimerDue(probes[w.task])
  }

  /** Unaborted: no abort event. The clock stops at a due timer and at a queued continuation. */
  predicate CanScan(s: Scan, m: ScanMove) {
    match m
    case SocketFires(w, e) =>
      && w < |s.timed.pool.workers| && s.timed.pool.workers[w].Awaiting?
      && s.timed.pool.workers[w].task < |s.probes| && !e.AbortSignal?
    case Continues(w) => Enabled(s.timed.pool, Resume(w))
    case Passes(dt) =>
      forall w | 0 <= w < |s.timed.pool.workers| ::
        !s.timed.pool.workers[w].Ready? && WaitsFor(s.timed.pool.workers[w], s.probes, s.timed.now + dt)
  }

  function Fire(s: Scan, w: nat, e: SocketEvent): Scan
    requires CanScan(s, SocketFires(w, e))
  {
    var i := s.timed.pool.workers[w].task;
    var p := Handle(s.probes[i], e, s.timed.now);
    if p.outcomes == [] then s.(probes := s.probes[i := p])
    else Scan(s.timed.(pool := Step(s.timed.pool, Settle(w, p.outcomes[0]))), s.probes[i := p])
  }

  function ScanStep(ports: seq<nat>, s: Scan, m: ScanMove): Scan
    requires CanScan(s, m)
  {
    match m
    case SocketFires(w, e) => Fire(s, w, e)
    case Continues(w) =>
      var t := Timestamped(s.timed, Step(s.timed.pool, Resume(w)));
      var k := s.timed.pool.index;
      Scan(t, if t.pool.index > k && k < |ports| then s.probes + [Opened(ports[k], t.now)] else s.probes)
    case Passes(dt) => s.(timed := s.timed.(now := s.timed.now + dt))
  }

  function ScanStart(ports: seq<nat>): Scan {
    var k := Min(MAX_CONCURRENT, |ports|);
    Scan(Start(|ports|, MAX_CONCURRENT), seq(k, i requires 0 <= i < k => Opened(ports[i], 0)))
  }

  predicate ScanRun(ports: seq<nat>, s: Scan, ms: seq<ScanMove>)
    decreases |ms|
  {
    ms == [] || (CanScan(s, ms[0]) && ScanRun(ports, ScanStep(ports, s, ms[0]), ms[1..]))
  }

  function ScanAfter(ports: seq<nat>, s: Scan, ms: seq<ScanMove>): Scan
    requires ScanRun(ports, s, ms)
    decreases |ms|
  {
    if ms == [] then s else ScanAfter(ports, ScanStep(ports, s, ms[0]), ms[1..])
  }

  // ---------------------------------------------------------------- invariant

  ghost predicate ProbeFits(s: Scan, ports: seq<nat>, i: nat)
    requires i < |s.probes| == |s.timed.starts| && |s.probes| <= |ports|
  {
    var p := s.probes[i];
    && ProbeInv(p)
    && p.port == ports[i]
    && p.startedAt == s.timed.starts[i]
    && (p.connectedAt.Some? ==> p.connectedAt.value <= p.startedAt + CONNECT_TIMEOUT_MS)
  }

  ghost predicate WorkerFits(s: Scan, w: Worker<PortResult>) {
    match w
    case Awaiting(i) => i < |s.probes| && !s.probes[i].settled && s.timed.now <= TimerDue(s.probes[i])
    case Ready(i, o) => i < |s.probes| && s.probes[i].outcomes == [o]
    case _ => true
  }

  ghost predicate ProbesFit(s: Scan, ports: seq<nat>)
    requires |s.probes| == |s.timed.starts| && |s.probes| <= |ports|
  {
    forall i | 0 <= i < |s.probes| :: ProbeFits(s, ports, i)
  }

  ghost predicate WorkersFit(s: Scan) {
    forall w | 0 <= w < |s.timed.pool.workers| :: WorkerFits(s, s.timed.pool.workers[w])
  }

  /** What the pool knows a call settled with is what its probe settled with. */
  ghost predicate HistoryFits(s: Scan) {
    forall i | i in s.timed.pool.settled ::
      i < |s.probes| && s.timed.pool.settled[i].Resolved? && s.probes[i].outcomes == [s.timed.pool.settled[i]]
  }

  ghost predicate ScanInv(s: Scan, ports: seq<nat>) {
    && TimedInv(s.timed, MAX_CONCURRENT, PROBE_LIMIT_MS)
    && s.timed.pool.size == |ports|
    && |s.probes| == s.timed.pool.index
    && ProbesFit(s, ports)
    && WorkersFit(s)
    && HistoryFits(s)
  }

  lemma ScanInvStart(ports: seq<nat>)
    ensures ScanInv(ScanStart(ports), ports)
  {
    TimedInvStart<PortResult>(|ports|, MAX_CONCURRENT, PROBE_LIMIT_MS);
  }

  /** A probe is pending for at most PROBE_LIMIT_MS: what its timers allow is what the timed pool assumes. */
  lemma TimersGiveLimit(s: Scan, ports: seq<nat>, dt: nat)
    requires ScanInv(s, ports) && CanScan(s, Passes(dt))
    ensures CanMove(s.timed, Tick(dt), PROBE_LIMIT_MS)
  {
    forall w | 0 <= w < |s.timed.pool.workers|
      ensures InTime(s.timed.pool.workers[w], s.timed.starts, s.timed.now + dt, PROBE_LIMIT_MS)
    {
      assert WorkerFits(s, s.timed.pool.workers[w]);
      assert WaitsFor(s.timed.pool.workers[w], s.probes, s.timed.now + dt);
      if s.timed.pool.workers[w].Awaiting? {
        assert ProbeFits(s, ports, s.timed.pool.workers[w].task);
      }
    }
  }

  lemma ScanInvPasses(s: Scan, ports: seq<nat>, dt: nat)
    requires ScanInv(s, ports) && CanScan(s, Passes(dt))
    ensures ScanInv(ScanStep(ports, s, Passes(dt)), ports)
  {
    TimersGiveLimit(s, ports, dt);
    TimedInvMove(s.timed, MAX_CONCURRENT, PROBE_LIMIT_MS, Tick(dt));
    var t := ScanStep(ports, s, Passes(dt));
    forall i | 0 <= i < |t.probes| ensures ProbeFits(t, ports, i) {
      assert ProbeFits(s, ports, i);
    }
    forall w | 0 <= w < |t.timed.pool.workers| ensures WorkerFits(t, t.timed.pool.workers[w]) {
      assert WorkerFits(s, s.timed.pool.workers[w]);
      assert WaitsFor(s.timed.pool.workers[w], s.probes, s.timed.now + dt);
    }
  }

  /** The scan's continuation is the timed pool's. */
  lemma ContinuesIsMove(s: Scan, ports: seq<nat>, w: nat)
    requires ScanInv(s, ports) && CanScan(s, Continues(w))
    ensures var t := ScanStep(ports, s, Continues(w));
      && t.timed == Moved(s.timed, Resumes(w), PROBE_LIMIT_MS)
      && TimedInv(t.timed, MAX_CONCURRENT, PROBE_LIMIT_MS)
      && |t.probes| == t.timed.pool.index && t.timed.pool.size == |ports|
  {
    TimedInvMove(s.timed, MAX_CONCURRENT, PROBE_LIMIT_MS, Resumes(w));
  }

  lemma ContinuesKeepsProbes(s: Scan, ports: seq<nat>, w: nat)
    requires ScanInv(s, ports) && CanScan(s, Continues(w))
    ensures var t := ScanStep(ports, s, Continues(w));
      |t.probes| == |t.timed.starts| <= |ports| && s.probes <= t.probes && ProbesFit(t, ports)
  {
    ContinuesIsMove(s, ports, w);
    var t := ScanStep(ports, s, Continues(w));
    forall i | 0 <= i < |t.probes| ensures ProbeFits(t, ports, i) {
      assert i < |s.probes| ==> ProbeFits(s, ports, i);
    }
  }

  lemma ContinuesKeepsWorkers(s: Scan, ports: seq<nat>, w: nat)
    requires ScanInv(s, ports) && CanScan(s, Continues(w))
    ensures WorkersFit(ScanStep(ports, s, Continues(w)))
  {
    ContinuesKeepsProbes(s, ports, w);
    var t := ScanStep(ports, s, Continues(w));
    forall v | 0 <= v < |t.timed.pool.workers| ensures WorkerFits(t, t.timed.pool.workers[v]) {
      assert WorkerFits(s, s.timed.pool.workers[v]);
      assert WorkerOk(s.timed.pool, v);
    }
  }

  lemma ScanInvContinues(s: Scan, ports: seq<nat>, w: nat)
    requires ScanInv(s, ports) && CanScan(s, Continues(w))
    ensures ScanInv(ScanStep(ports, s, Continues(w)), ports)
  {
    ContinuesIsMove(s, ports, w);
    ContinuesKeepsProbes(s, ports, w);
    ContinuesKeepsWorkers(s, ports, w);
    assert WorkerFits(s, s.timed.pool.workers[w]);
    assert WorkerOk(s.timed.pool, w);
  }

  lemma FireIsMove(s: Scan, ports: seq<nat>, w: nat, e: SocketEvent)
    requires ScanInv(s, ports) && CanScan(s, SocketFires(w, e))
    ensures var t, i := Fire(s, w, e), s.timed.pool.workers[w].task;
      && TimedInv(t.timed, MAX_CONCURRENT, PROBE_LIMIT_MS)
      && |t.probes| == |s.probes| == t.timed.pool.index && t.timed.starts == s.timed.starts
      && t.timed.pool.size == |ports| && t.timed.pool.results == s.timed.pool.results
      && t.probes[i] == Handle(s.probes[i], e, s.timed.now) && ProbeFits(t, ports, i)
  {
    var i := s.timed.pool.workers[w].task;
    var p := Handle(s.probes[i], e, s.timed.now);
    assert ProbeFits(s, ports, i);
    assert WorkerFits(s, s.timed.pool.workers[w]);
    ProbeInvHandle(s.probes[i], e, s.timed.now);
    if p.outcomes != [] {
      assert p.outcomes[0].Resolved?;
      assert Fire(s, w, e).timed == Moved(s.timed, PoolTiming.Settles(w, p.outcomes[0].value), PROBE_LIMIT_MS);
      TimedInvMove(s.timed, MAX_CONCURRENT, PROBE_LIMIT_MS, PoolTiming.Settles(w, p.outcomes[0].value));
    }
  }

  lemma FireKeepsWorkers(s: Scan, ports: seq<nat>, w: nat, e: SocketEvent)
    requires ScanInv(s, ports) && CanScan(s, SocketFires(w, e))
    ensures WorkersFit(Fire(s, w, e))
  {
    FireIsMove(s, ports, w, e);
    var t, i := Fire(s, w, e), s.timed.pool.workers[w].task;
    assert WorkerFits(s, s.timed.pool.workers[w]);
    forall v | 0 <= v < |t.timed.pool.workers| ensures WorkerFits(t, t.timed.pool.workers[v]) {
      assert WorkerFits(s, s.timed.pool.workers[v]);
      assert v != w && Holds(s.timed.pool.workers[v]) ==> s.timed.pool.workers[v].task != i;
    }
  }

  lemma ScanInvFires(s: Scan, ports: seq<nat>, w: nat, e: SocketEvent)
    requires ScanInv(s, ports) && CanScan(s, SocketFires(w, e))
    ensures ScanInv(Fire(s, w, e), ports)
  {
    FireIsMove(s, ports, w, e);
    FireKeepsWorkers(s, ports, w, e);
    var t, i := Fire(s, w, e), s.timed.pool.workers[w].task;
    forall j | 0 <= j < |t.probes| ensures ProbeFits(t, ports, j) {
      assert ProbeFits(s, ports, j);
    }
    assert WorkerOk(s.timed.pool, w);
  }

  lemma ScanInvStep(s: Scan, ports: seq<nat>, m: ScanMove)
    requires ScanInv(s, ports) && CanScan(s, m)
    ensures ScanInv(ScanStep(ports, s, m), ports)
  {
    match m
    case SocketFires(w, e) => ScanInvFires(s, ports, w, e);
    case Continues(w) => ScanInvContinues(s, ports, w);
    case Passes(dt) => ScanInvPasses(s, ports, dt);
  }

  lemma {:induction false} ScanInvRun(s: Scan, ports: seq<nat>, ms: seq<ScanMove>)
    requires ScanInv(s, ports) && ScanRun(ports, s, ms)
    ensures ScanInv(ScanAfter(ports, s, ms), ports)
    decreases |ms|
  {
    if ms == [] {
    } else {
      ScanInvStep(s, ports, ms[0]);
      ScanInvRun(ScanStep(ports, s, ms[0]), ports, ms[1..]);
    }
  }

  // ---------------------------------------------------------------- the scan and its deadline

  /**
   An unaborted native scan of n ports has fulfilled once the clock passes ceil(n / 12) * 3500 ms,
   and what it fulfilled with is one well-formed result per port, in list order.
   */
  lemma NativeScanEndsInTime(ports: seq<nat>, ms: seq<ScanMove>)
    requires ScanRun(ports, ScanStart(ports), ms)
    ensures var s := ScanAfter(ports, ScanStart(ports), ms);
      && (s.timed.now > Rounds(|ports|, MAX_CONCURRENT) * PROBE_LIMIT_MS ==> Settlement(s.timed.pool) == Fulfilled)
      && Settlement(s.timed.pool) != Rejects
      && (Settlement(s.timed.pool) == Fulfilled ==>
            |s.timed.pool.results| == |ports| == |s.probes|
            && forall i | 0 <= i < |ports| ::
                 && s.timed.pool.results[i].Some?
                 && s.timed.pool.results[i].value.port == ports[i]
                 && ResultOk(s.probes[i], s.timed.pool.results[i].value))
  {
    ScanInvStart(ports);
    ScanInvRun(ScanStart(ports), ports, ms);
    var s := ScanAfter(ports, ScanStart(ports), ms);
    var p := s.timed.pool;
    if s.timed.now > Rounds(|ports|, MAX_CONCURRENT) * PROBE_LIMIT_MS {
      forall w | 0 <= w < |p.workers| ensures p.workers[w].Finished? {
        if Active(p.workers[w]) {
          InFlightMeansEarly(s.timed, MAX_CONCURRENT, PROBE_LIMIT_MS, w);
        }
      }
    }
    if Settlement(p) == Fulfilled {
      FulfilledHasAll(p, MAX_CONCURRENT);
      forall i | 0 <= i < |ports|
        ensures p.results[i].value.port == ports[i] && ResultOk(s.probes[i], p.results[i].value)
      {
        assert ProbeFits(s, ports, i);
        assert Resolved(p.results[i].value) in s.probes[i].outcomes;
      }
    }
  }

  /** Up to 144 ports the scan has fulfilled three seconds before the global timer of the race can fire. */
  lemma GlobalTimeoutNeverWins(ports: seq<nat>, ms: seq<ScanMove>)
    requires |ports| <= 144
    requires ScanRun(ports, ScanStart(ports), ms)
    requires ScanAfter(ports, ScanStart(ports), ms).timed.now > GLOBAL_TIMEOUT_MS - 3000
    ensures Settlement(ScanAfter(ports, ScanStart(ports), ms).timed.pool) == Fulfilled
  {
    NativeScanEndsInTime(ports, ms);
  }

  function TimerEvent(p: Probe): SocketEvent {
    if p.connectedAt.Some? then BannerTimer else Timeout
  }

  /** The probe worker w waits for has its own timer due now, and that timer settles it. */
  ghost predicate TimerSettles(s: Scan, w: nat) {
    && w < |s.timed.pool.workers| && s.timed.pool.workers[w].Awaiting?
    && s.timed.pool.workers[w].task < |s.probes|
    && var p := s.probes[s.timed.pool.workers[w].task];
       && s.timed.now == TimerDue(p)
       && CanScan(s, SocketFires(w, TimerEvent(p)))
       && Fire(s, w, TimerEvent(p)).timed.pool.workers[w].Ready?
  }

  /**
   The deadline is not met by a stopped clock: time passes, or a continuation is queued, or a timer
   is due and settles its probe.
   */
  lemma ClockNeverStuck(s: Scan, ports: seq<nat>)
    requires ScanInv(s, ports)
    ensures || CanScan(s, Passes(1))
            || (exists w: nat :: CanScan(s, Continues(w)))
            || (exists w: nat :: TimerSettles(s, w))
  {
    if w :| 0 <= w < |s.timed.pool.workers| && s.timed.pool.workers[w].Ready? {
      assert WorkerOk(s.timed.pool, w);
      assert CanScan(s, Continues(w));
    } else if w :| 0 <= w < |s.timed.pool.workers| && !WaitsFor(s.timed.pool.workers[w], s.probes, s.timed.now + 1) {
      DueTimerSettles(s, ports, w);
    }
  }

  lemma DueTimerSettles(s: Scan, ports: seq<nat>, w: nat)
    requires ScanInv(s, ports) && w < |s.timed.pool.workers|
    requires !WaitsFor(s.timed.pool.workers[w], s.probes, s.timed.now + 1)
    ensures TimerSettles(s, w)
  {
    assert WorkerFits(s, s.timed.pool.workers[w]);
    assert ProbeFits(s, ports, s.timed.pool.workers[w].task);
  }
}
