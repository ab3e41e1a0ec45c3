/**
 The abort signal in the native scan: it reaches the probes through their listeners and the pool
 through the rejections of those probes and through the check at the loop head.
 */
module AbortedScan {
  import opened Basics
  import opened WorkerPool
  import opened SocketMachine
  import opened TimedScan

  /** The calls whose probe rejects when the signal is delivered to it. */
  function Rejecting(s: Scan): set<nat> {
    set i | 0 <= i < |s.probes| && Handle(s.probes[i], AbortSignal, s.timed.now).outcomes != s.probes[i].outcomes
  }

  /** The signal fires: it is delivered to every probe, and the calls whose probe rejects settle. */
  function Aborted(s: Scan): Scan
    requires !s.timed.pool.aborted
  {
    Scan(s.timed.(pool := Step(s.timed.pool, Event.Abort(Rejecting(s)))),
         seq(|s.probes|, i requires 0 <= i < |s.probes| => Handle(s.probes[i], AbortSignal, s.timed.now)))
  }

  function PendingCalls(s: Scan): set<nat> {
    set w | 0 <= w < |s.timed.pool.workers| && s.timed.pool.workers[w].Awaiting? :: s.timed.pool.workers[w].task
  }

  lemma SettledTogether(s: Scan, ports: seq<nat>, i: nat)
    requires ScanInv(s, ports) && i < |s.probes|
    ensures i in s.timed.pool.settled <==> s.probes[i].settled
    ensures i in PendingCalls(s) <==> !s.probes[i].settled
  {
    assert ProbeFits(s, ports, i);
    if i !in s.timed.pool.settled {
      assert Unsettled(s.timed.pool, i);
      var w :| 0 <= w < |s.timed.pool.workers| && s.timed.pool.workers[w] == Awaiting(i);
      assert WorkerFits(s, s.timed.pool.workers[w]);
    }
    if i in PendingCalls(s) {
      var w :| 0 <= w < |s.timed.pool.workers| && s.timed.pool.workers[w] == Awaiting(i);
      assert WorkerFits(s, s.timed.pool.workers[w]);
    }
  }

  /** The signal is heard by exactly the pending calls: each settles at once, and no settled one changes. */
  lemma PendingCallsHear(s: Scan, ports: seq<nat>)
    requires ScanInv(s, ports)
    ensures Rejecting(s) == PendingCalls(s)
    ensures forall i | 0 <= i < |s.probes| :: Aborted(s).probes[i].settled
    ensures forall i | 0 <= i < |s.probes| ::
      Aborted(s).probes[i].outcomes == if i in PendingCalls(s) then [Rejected] else s.probes[i].outcomes
  {
    forall i | 0 <= i < |s.probes|
      ensures i in Rejecting(s) <==> i in PendingCalls(s)
      ensures Aborted(s).probes[i].settled
      ensures Aborted(s).probes[i].outcomes == if i in PendingCalls(s) then [Rejected] else s.probes[i].outcomes
    {
      assert ProbeFits(s, ports, i);
      SettledTogether(s, ports, i);
    }
    forall i | i in PendingCalls(s) ensures i < |s.probes| {
      var w :| 0 <= w < |s.timed.pool.workers| && s.timed.pool.workers[w] == Awaiting(i);
      assert WorkerFits(s, s.timed.pool.workers[w]);
    }
  }

  // ---------------------------------------------------------------- after the signal

  /** What the pool sees of the scan's moves. */
  function Continuations(ms: seq<ScanMove>): seq<Event<PortResult>> {
    if ms == [] then []
    else (if ms[0].Continues? then [Resume(ms[0].worker)] else []) + Continuations(ms[1..])
  }

  ghost predicate NonePending(s: Scan) {
    forall w | 0 <= w < |s.timed.pool.workers| :: !s.timed.pool.workers[w].Awaiting?
  }

  lemma OneMoveLater(ports: seq<nat>, s: Scan, m: ScanMove)
    requires s.timed.pool.aborted && NonePending(s) && CanScan(s, m)
    ensures !m.SocketFires?
    ensures var t := ScanStep(ports, s, m);
      && t.timed.pool.aborted && NonePending(t) && t.probes == s.probes
      && t.timed.pool == (if m.Continues? then Step(s.timed.pool, Resume(m.worker)) else s.timed.pool)
      && (m.Continues? ==> t.timed.now == s.timed.now && Enabled(s.timed.pool, Resume(m.worker)))
      && (m.Passes? ==> Quiescent(s.timed.pool))
      && Count(t.timed.pool.workers, IsReady<PortResult>) ==
         Count(s.timed.pool.workers, IsReady<PortResult>) - (if m.Continues? then 1 else 0)
  {
    if m.Continues? {
      var workers := ScanStep(ports, s, m).timed.pool.workers;
      CountUpdate(s.timed.pool.workers, m.worker, workers[m.worker], IsReady<PortResult>);
    }
  }

  /** From then on the scan is the pool running its queued continuations, one a worker, before the clock moves. */
  lemma {:induction false} OnlyContinuations(ports: seq<nat>, s: Scan, ms: seq<ScanMove>)
    requires s.timed.pool.aborted && NonePending(s) && ScanRun(ports, s, ms)
    ensures var t := ScanAfter(ports, s, ms);
      && ValidRun(s.timed.pool, Continuations(ms)) && t.timed.pool == After(s.timed.pool, Continuations(ms))
      && t.probes == s.probes && NonePending(t)
      && |Continuations(ms)| + Count(t.timed.pool.workers, IsReady<PortResult>)
         == Count(s.timed.pool.workers, IsReady<PortResult>)
      && (t.timed.now == s.timed.now || Quiescent(t.timed.pool))
    decreases |ms|
  {
    if ms == [] {
    } else {
      OneMoveLater(ports, s, ms[0]);
      OnlyContinuations(ports, ScanStep(ports, s, ms[0]), ms[1..]);
      var t := ScanAfter(ports, s, ms);
      if ms[0].Passes? {
        CountExtremes(s.timed.pool.workers, IsReady<PortResult>);
        NoneReady(t);
      } else {
        assert Continuations(ms)[1..] == Continuations(ms[1..]);
      }
    }
  }

  lemma NoneReady(t: Scan)
    requires NonePending(t) && Count(t.timed.pool.workers, IsReady<PortResult>) == 0
    ensures Quiescent(t.timed.pool)
  {
    CountExtremes(t.timed.pool.workers, IsReady<PortResult>);
  }

  /**
   For every scan and every moment at which the signal fires: all probes settle at once and no probe
   is opened any more; at most one continuation a worker is left, and these run before the clock
   moves; then the scan has fulfilled exactly if all its probes had settled before the signal, and
   otherwise has rejected.
   */
  lemma AbortSettlesTheScan(ports: seq<nat>, before: seq<ScanMove>, after: seq<ScanMove>)
    requires ScanRun(ports, ScanStart(ports), before)
    ensures !ScanAfter(ports, ScanStart(ports), before).timed.pool.aborted
    ensures var s := ScanAfter(ports, ScanStart(ports), before);
      ScanRun(ports, Aborted(s), after) ==>
        var t := ScanAfter(ports, Aborted(s), after);
        && t.timed.pool.calls == s.timed.pool.calls
        && t.probes == Aborted(s).probes && (forall i | 0 <= i < |t.probes| :: t.probes[i].settled)
        && |Continuations(after)| <= MAX_CONCURRENT
        && (t.timed.now == s.timed.now || Quiescent(t.timed.pool))
        && (Quiescent(t.timed.pool) || exists w: nat :: CanScan(t, Continues(w)))
        && (Quiescent(t.timed.pool) ==>
              && (Settlement(t.timed.pool) == Fulfilled <==> AllSettled(s, ports))
              && (Settlement(t.timed.pool) == Fulfilled || Settlement(t.timed.pool) == Rejects))
  {
    var s := ScanAfter(ports, ScanStart(ports), before);
    ScanInvStart(ports);
    ScanInvRun(ScanStart(ports), ports, before);
    if ScanRun(ports, Aborted(s), after) {
      AfterTheSignal(ports, s, after);
      if Quiescent(ScanAfter(ports, Aborted(s), after).timed.pool) {
        VerdictOfAbortedScan(ports, s, after);
      }
    }
  }

  /** Every port has been probed and has its result. */
  ghost predicate AllSettled(s: Scan, ports: seq<nat>) {
    |s.probes| == |ports| && forall i | 0 <= i < |s.probes| :: s.probes[i].settled
  }

  lemma AbortedIsQuiet(ports: seq<nat>, s: Scan)
    requires ScanInv(s, ports)
    ensures var a := Aborted(s);
      a.timed.pool.aborted && NonePending(a) && Inv(a.timed.pool, MAX_CONCURRENT)
  {
    PendingCallsHear(s, ports);
    InvStep(s.timed.pool, MAX_CONCURRENT, Event.Abort(Rejecting(s)));
  }

  lemma SomeContinuation(t: Scan)
    requires Inv(t.timed.pool, MAX_CONCURRENT) && NonePending(t) && !Quiescent(t.timed.pool)
    ensures exists w: nat :: CanScan(t, Continues(w))
  {
    var w: nat :| w < |t.timed.pool.workers| && Active(t.timed.pool.workers[w]);
    assert WorkerOk(t.timed.pool, w);
    assert CanScan(t, Continues(w));
  }

  lemma AfterTheSignal(ports: seq<nat>, s: Scan, after: seq<ScanMove>)
    requires ScanInv(s, ports) && ScanRun(ports, Aborted(s), after)
    ensures var t := ScanAfter(ports, Aborted(s), after);
      && t.timed.pool.calls == s.timed.pool.calls
      && t.probes == Aborted(s).probes && (forall i | 0 <= i < |t.probes| :: t.probes[i].settled)
      && |Continuations(after)| <= MAX_CONCURRENT
      && (t.timed.now == s.timed.now || Quiescent(t.timed.pool))
      && (Quiescent(t.timed.pool) || exists w: nat :: CanScan(t, Continues(w)))
  {
    var a := Aborted(s);
    var t := ScanAfter(ports, a, after);
    AbortedIsQuiet(ports, s);
    PendingCallsHear(s, ports);
    OnlyContinuations(ports, a, after);
    AbortFreezesClaims(a.timed.pool, Continuations(after));
    CountExtremes(a.timed.pool.workers, IsReady<PortResult>);
    InvRun(a.timed.pool, MAX_CONCURRENT, Continuations(after));
    if !Quiescent(t.timed.pool) {
      SomeContinuation(t);
    }
  }

  lemma VerdictOfAbortedScan(ports: seq<nat>, s: Scan, after: seq<ScanMove>)
    requires ScanInv(s, ports) && ScanRun(ports, Aborted(s), after)
    requires Quiescent(ScanAfter(ports, Aborted(s), after).timed.pool)
    ensures var verdict := Settlement(ScanAfter(ports, Aborted(s), after).timed.pool);
      && (verdict == Fulfilled <==> AllSettled(s, ports))
      && (verdict == Fulfilled || verdict == Rejects)
  {
    var p := s.timed.pool;
    AbortedIsQuiet(ports, s);
    PendingCallsHear(s, ports);
    OnlyContinuations(ports, Aborted(s), after);
    AbortOutcome(p, MAX_CONCURRENT, Rejecting(s), Continuations(after));
    forall i | 0 <= i < |s.probes| ensures i in p.settled <==> s.probes[i].settled {
      SettledTogether(s, ports, i);
    }
    if forall i | 0 <= i < p.size :: i in p.settled {
      AllClaimed(p, MAX_CONCURRENT);
    }
  }
}
