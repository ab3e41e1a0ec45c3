/** How long a port list the native scan can finish before the global timer: the exact limit. */
module ScanDeadline {
  import opened Basics
  import opened WorkerPool
  import opened SocketMachine
  import opened TimedScan
  import opened PortList

  /** Whatever the sockets do, once the global timer is due the scan has already fulfilled. */
  ghost predicate BeatsDeadline(ports: seq<nat>) {
    forall ms | ScanRun(ports, ScanStart(ports), ms)
                && ScanAfter(ports, ScanStart(ports), ms).timed.now >= GLOBAL_TIMEOUT_MS ::
      Settlement(ScanAfter(ports, ScanStart(ports), ms).timed.pool) == Fulfilled
  }

  // ---------------------------------------------------------------- runs end to end

  ghost predicate Reaches(ports: seq<nat>, s: Scan, t: Scan) {
    exists ms :: ScanRun(ports, s, ms) && ScanAfter(ports, s, ms) == t
  }

  lemma ReachesSelf(ports: seq<nat>, s: Scan)
    ensures Reaches(ports, s, s)
  {
    assert ScanRun(ports, s, []) && ScanAfter(ports, s, []) == s;
  }

  lemma ReachesNext(ports: seq<nat>, s: Scan, t: Scan, m: ScanMove)
    requires Reaches(ports, s, t) && CanScan(t, m)
    ensures Reaches(ports, s, ScanStep(ports, t, m))
  {
    var ms :| ScanRun(ports, s, ms) && ScanAfter(ports, s, ms) == t;
    RunSnoc(ports, s, ms, m);
  }

  lemma {:induction false} RunSnoc(ports: seq<nat>, s: Scan, ms: seq<ScanMove>, m: ScanMove)
    requires ScanRun(ports, s, ms) && CanScan(ScanAfter(ports, s, ms), m)
    ensures ScanRun(ports, s, ms + [m])
    ensures ScanAfter(ports, s, ms + [m]) == ScanStep(ports, ScanAfter(ports, s, ms), m)
    decreases |ms|
  {
    if ms == [] {
      assert [m][1..] == [] && [] + [m] == [m];
      var t := ScanStep(ports, s, m);
      assert ScanRun(ports, t, []) && ScanAfter(ports, t, []) == t;
    } else {
      assert (ms + [m])[1..] == ms[1..] + [m];
      RunSnoc(ports, ScanStep(ports, s, ms[0]), ms[1..], m);
    }
  }

  // ---------------------------------------------------------------- the slowest scan

  /** Worker w in round k: its k-th port, opened when the round began, and connected if `linked`. */
  datatype Stage = Stage(round: nat, linked: bool)

  function RoundStart(k: nat): nat { k * PROBE_LIMIT_MS }

  function Slow(port: nat, stage: Stage): Probe {
    var p := Opened(port, RoundStart(stage.round));
    if !stage.linked then p
    else p.(connectedAt := Some(RoundStart(stage.round) + CONNECT_TIMEOUT_MS), bannerArmed := true)
  }

  ghost predicate Looks(s: Scan, ports: seq<nat>, w: nat, stage: Stage)
    requires w < |s.timed.pool.workers|
  {
    var i := stage.round * MAX_CONCURRENT + w;
    if i < |ports| then
      s.timed.pool.workers[w] == Awaiting(i) && i < |s.probes| && s.probes[i] == Slow(ports[i], stage)
    else s.timed.pool.workers[w].Finished?
  }

  /** The first j workers are in the later stage, the others in the earlier one. */
  ghost predicate Lineup(s: Scan, ports: seq<nat>, j: nat, later: Stage, earlier: Stage) {
    var p := s.timed.pool;
    && |p.workers| == MAX_CONCURRENT && !p.aborted
    && p.size == |ports| == |p.results| && |s.probes| == p.index
    && (forall w | 0 <= w < j && w < MAX_CONCURRENT :: Looks(s, ports, w, later))
    && (forall w | j <= w < MAX_CONCURRENT :: Looks(s, ports, w, earlier))
  }

  lemma SlowStart(ports: seq<nat>)
    requires |ports| >= MAX_CONCURRENT
    ensures var s := ScanStart(ports);
      Lineup(s, ports, 0, Stage(0, false), Stage(0, false)) && s.timed.now == 0 && s.timed.pool.index == MAX_CONCURRENT
  {
  }

  lemma LineupPasses(s: Scan, ports: seq<nat>, stage: Stage, dt: nat)
    requires Lineup(s, ports, 0, stage, stage)
    requires s.timed.now + dt <=
      RoundStart(stage.round) + CONNECT_TIMEOUT_MS + (if stage.linked then BANNER_TIMEOUT_MS else 0)
    ensures CanScan(s, Passes(dt)) && Lineup(ScanStep(ports, s, Passes(dt)), ports, 0, stage, stage)
  {
    forall w | 0 <= w < |s.timed.pool.workers|
      ensures !s.timed.pool.workers[w].Ready? && WaitsFor(s.timed.pool.workers[w], s.probes, s.timed.now + dt)
    {
      assert Looks(s, ports, w, stage);
    }
    var t := ScanStep(ports, s, Passes(dt));
    forall w | 0 <= w < MAX_CONCURRENT ensures Looks(t, ports, w, stage) {
      assert Looks(s, ports, w, stage);
    }
  }

  /** Worker j's socket connects at the last moment. */
  lemma ConnectOne(s: Scan, ports: seq<nat>, j: nat, k: nat) returns (t: Scan)
    requires j < MAX_CONCURRENT && Lineup(s, ports, j, Stage(k, true), Stage(k, false))
    requires s.timed.now == RoundStart(k) + CONNECT_TIMEOUT_MS
    ensures Lineup(t, ports, j + 1, Stage(k, true), Stage(k, false))
    ensures t.timed == s.timed
    ensures t == s
         || (CanScan(s, SocketFires(j, Connect(false))) && t == ScanStep(ports, s, SocketFires(j, Connect(false))))
  {
    assert Looks(s, ports, j, Stage(k, false));
    t := s;
    if k * MAX_CONCURRENT + j < |ports| {
      t := ScanStep(ports, s, SocketFires(j, Connect(false)));
    }
    forall w | 0 <= w < j ensures Looks(t, ports, w, Stage(k, true)) {
      assert Looks(s, ports, w, Stage(k, true));
    }
    forall w | j < w < MAX_CONCURRENT ensures Looks(t, ports, w, Stage(k, false)) {
      assert Looks(s, ports, w, Stage(k, false));
    }
  }

  lemma {:induction false} ConnectAll(origin: Scan, s: Scan, ports: seq<nat>, j: nat, k: nat) returns (t: Scan)
    requires j <= MAX_CONCURRENT && Lineup(s, ports, j, Stage(k, true), Stage(k, false))
    requires s.timed.now == RoundStart(k) + CONNECT_TIMEOUT_MS && Reaches(ports, origin, s)
    ensures Reaches(ports, origin, t) && t.timed == s.timed
    ensures Lineup(t, ports, 0, Stage(k, true), Stage(k, true))
    decreases MAX_CONCURRENT - j
  {
    if j == MAX_CONCURRENT {
      t := s;
    } else {
      t := ConnectOne(s, ports, j, k);
      if t != s {
        ReachesNext(ports, origin, s, SocketFires(j, Connect(false)));
      }
      t := ConnectAll(origin, t, ports, j + 1, k);
    }
  }

  /** Worker j's banner timer goes off; the worker takes its next port, if there is one. */
  lemma SettleOne(s: Scan, ports: seq<nat>, j: nat, k: nat) returns (t: Scan)
    requires j < MAX_CONCURRENT && (k + 1) * MAX_CONCURRENT <= |ports|
    requires Lineup(s, ports, j, Stage(k + 1, false), Stage(k, true))
    requires s.timed.now == RoundStart(k + 1)
    requires s.timed.pool.index == Min((k + 1) * MAX_CONCURRENT + j, |ports|)
    ensures CanScan(s, SocketFires(j, BannerTimer))
    ensures var u := ScanStep(ports, s, SocketFires(j, BannerTimer));
      CanScan(u, Continues(j)) && t == ScanStep(ports, u, Continues(j))
    ensures Lineup(t, ports, j + 1, Stage(k + 1, false), Stage(k, true))
    ensures t.timed.now == s.timed.now
    ensures t.timed.pool.index == Min((k + 1) * MAX_CONCURRENT + j + 1, |ports|)
  {
    var later, earlier := Stage(k + 1, false), Stage(k, true);
    assert Looks(s, ports, j, earlier);
    var u := ScanStep(ports, s, SocketFires(j, BannerTimer));
    t := ScanStep(ports, u, Continues(j));
    forall w | 0 <= w < j ensures Looks(t, ports, w, later) {
      assert Looks(s, ports, w, later);
    }
    forall w | j < w < MAX_CONCURRENT ensures Looks(t, ports, w, earlier) {
      assert Looks(s, ports, w, earlier);
    }
  }

  lemma {:induction false} SettleAll(origin: Scan, s: Scan, ports: seq<nat>, j: nat, k: nat) returns (t: Scan)
    requires j <= MAX_CONCURRENT && (k + 1) * MAX_CONCURRENT <= |ports|
    requires Lineup(s, ports, j, Stage(k + 1, false), Stage(k, true)) && Reaches(ports, origin, s)
    requires s.timed.now == RoundStart(k + 1)
    requires s.timed.pool.index == Min((k + 1) * MAX_CONCURRENT + j, |ports|)
    ensures Reaches(ports, origin, t) && t.timed.now == s.timed.now
    ensures Lineup(t, ports, 0, Stage(k + 1, false), Stage(k + 1, false))
    ensures t.timed.pool.index == Min((k + 2) * MAX_CONCURRENT, |ports|)
    decreases MAX_CONCURRENT - j
  {
    if j == MAX_CONCURRENT {
      t := s;
    } else {
      t := SettleOne(s, ports, j, k);
      ReachesNext(ports, origin, s, SocketFires(j, BannerTimer));
      ReachesNext(ports, origin, ScanStep(ports, s, SocketFires(j, BannerTimer)), Continues(j));
      t := SettleAll(origin, t, ports, j + 1, k);
    }
  }

  /** Every probe of round k connects just in time. */
  lemma SlowConnects(origin: Scan, s: Scan, ports: seq<nat>, k: nat) returns (t: Scan)
    requires Lineup(s, ports, 0, Stage(k, false), Stage(k, false)) && s.timed.now == RoundStart(k)
    requires Reaches(ports, origin, s)
    ensures Reaches(ports, origin, t) && Lineup(t, ports, 0, Stage(k, true), Stage(k, true))
    ensures t.timed.now == RoundStart(k) + CONNECT_TIMEOUT_MS && t.timed.pool == s.timed.pool
  {
    LineupPasses(s, ports, Stage(k, false), CONNECT_TIMEOUT_MS);
    ReachesNext(ports, origin, s, Passes(CONNECT_TIMEOUT_MS));
    t := ScanStep(ports, s, Passes(CONNECT_TIMEOUT_MS));
    t := ConnectAll(origin, t, ports, 0, k);
  }

  /** A round in which every probe takes its full 3500 ms. */
  lemma SlowRound(origin: Scan, s: Scan, ports: seq<nat>, k: nat) returns (t: Scan)
    requires (k + 1) * MAX_CONCURRENT <= |ports|
    requires Lineup(s, ports, 0, Stage(k, false), Stage(k, false)) && s.timed.now == RoundStart(k)
    requires s.timed.pool.index == (k + 1) * MAX_CONCURRENT && Reaches(ports, origin, s)
    ensures Reaches(ports, origin, t)
    ensures Lineup(t, ports, 0, Stage(k + 1, false), Stage(k + 1, false)) && t.timed.now == RoundStart(k + 1)
    ensures t.timed.pool.index == Min((k + 2) * MAX_CONCURRENT, |ports|)
  {
    t := SlowConnects(origin, s, ports, k);
    LineupPasses(t, ports, Stage(k, true), BANNER_TIMEOUT_MS);
    ReachesNext(ports, origin, t, Passes(BANNER_TIMEOUT_MS));
    t := ScanStep(ports, t, Passes(BANNER_TIMEOUT_MS));
    t := SettleAll(origin, t, ports, 0, k);
  }

  /** After k full rounds the clock reads k * 3500. */
  lemma {:induction false} SlowRounds(ports: seq<nat>, k: nat) returns (t: Scan)
    requires k * MAX_CONCURRENT < |ports| && |ports| >= MAX_CONCURRENT
    ensures Reaches(ports, ScanStart(ports), t)
    ensures Lineup(t, ports, 0, Stage(k, false), Stage(k, false)) && t.timed.now == RoundStart(k)
    ensures t.timed.pool.index == Min((k + 1) * MAX_CONCURRENT, |ports|)
    decreases k
  {
    if k == 0 {
      SlowStart(ports);
      ReachesSelf(ports, ScanStart(ports));
      t := ScanStart(ports);
    } else {
      t := SlowRounds(ports, k - 1);
      t := SlowRound(ScanStart(ports), t, ports, k - 1);
    }
  }

  /** With a 145th port the scan can still be waiting when the global timer is due. */
  lemma SlowScanMissesTheDeadline(ports: seq<nat>) returns (t: Scan)
    requires |ports| > 144
    ensures Reaches(ports, ScanStart(ports), t) && t.timed.now == GLOBAL_TIMEOUT_MS
    ensures Settlement(t.timed.pool) == Pending
  {
    t := SlowRounds(ports, 12);
    t := SlowConnects(ScanStart(ports), t, ports, 12);
    LineupPasses(t, ports, Stage(12, true), CONNECT_TIMEOUT_MS);
    ReachesNext(ports, ScanStart(ports), t, Passes(CONNECT_TIMEOUT_MS));
    t := ScanStep(ports, t, Passes(CONNECT_TIMEOUT_MS));
    forall w | 0 <= w < MAX_CONCURRENT ensures !Fails(t.timed.pool.workers[w]) {
      assert Looks(t, ports, w, Stage(12, true));
    }
    assert Looks(t, ports, 0, Stage(12, true));
  }

  /** The global timer can be trusted not to cut off a native scan exactly for lists of up to 144 ports. */
  lemma DeadlineHoldsUpTo144Ports(ports: seq<nat>)
    ensures BeatsDeadline(ports) <==> |ports| <= 144
  {
    if |ports| <= 144 {
      forall ms | ScanRun(ports, ScanStart(ports), ms)
                  && ScanAfter(ports, ScanStart(ports), ms).timed.now >= GLOBAL_TIMEOUT_MS
        ensures Settlement(ScanAfter(ports, ScanStart(ports), ms).timed.pool) == Fulfilled
      {
        GlobalTimeoutNeverWins(ports, ms);
      }
    } else {
      var t := SlowScanMissesTheDeadline(ports);
      var ms :| ScanRun(ports, ScanStart(ports), ms) && ScanAfter(ports, ScanStart(ports), ms) == t;
      assert Settlement(ScanAfter(ports, ScanStart(ports), ms).timed.pool) != Fulfilled;
    }
  }

  /** All three built-in profiles keep the deadline. */
  lemma EveryProfileBeatsTheDeadline(profile: Profile)
    ensures BeatsDeadline(ProfilePorts(profile))
  {
    ProfileSizes();
    DeadlineHoldsUpTo144Ports(ProfilePorts(profile));
  }
}
