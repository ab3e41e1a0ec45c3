/** The probes inside a scan: each ran through its own events as if alone, and the report is read from that. */
module ScanHistory {
  import opened Basics
  import opened WorkerPool
  import opened SocketMachine
  import opened TimedScan
  import opened PortScan

  /** The probe of call i went through exactly these events, from the moment it was started. */
  ghost predicate Went(s: Scan, ports: seq<nat>, i: nat, es: seq<Stamped>)
    requires i < |s.probes| == |s.timed.starts| && |s.probes| <= |ports|
  {
    s.probes[i] == HandleAll(Opened(ports[i], s.timed.starts[i]), es)
  }

  ghost predicate Recorded(s: Scan, ports: seq<nat>, logs: seq<seq<Stamped>>) {
    && |logs| == |s.probes| == |s.timed.starts| <= |ports|
    && forall i | 0 <= i < |logs| :: Went(s, ports, i, logs[i])
  }

  lemma HandleAllSnoc(p: Probe, es: seq<Stamped>, e: SocketEvent, now: nat)
    ensures HandleAll(p, es + [At(e, now)]) == Handle(HandleAll(p, es), e, now)
  {
    assert (es + [At(e, now)])[..|es|] == es;
  }

  lemma RecordFires(s: Scan, ports: seq<nat>, logs: seq<seq<Stamped>>, w: nat, e: SocketEvent)
      returns (more: seq<seq<Stamped>>)
    requires ScanInv(s, ports) && Recorded(s, ports, logs) && CanScan(s, SocketFires(w, e))
    ensures Recorded(Fire(s, w, e), ports, more)
  {
    var i := s.timed.pool.workers[w].task;
    more := logs[i := logs[i] + [At(e, s.timed.now)]];
    FireIsMove(s, ports, w, e);
    assert Went(s, ports, i, logs[i]);
    HandleAllSnoc(Opened(ports[i], s.timed.starts[i]), logs[i], e, s.timed.now);
    forall j | 0 <= j < |more| ensures Went(Fire(s, w, e), ports, j, more[j]) {
      assert Went(s, ports, j, logs[j]);
    }
  }

  lemma RecordContinues(s: Scan, ports: seq<nat>, logs: seq<seq<Stamped>>, w: nat) returns (more: seq<seq<Stamped>>)
    requires ScanInv(s, ports) && Recorded(s, ports, logs) && CanScan(s, Continues(w))
    ensures Recorded(ScanStep(ports, s, Continues(w)), ports, more)
  {
    var t := ScanStep(ports, s, Continues(w));
    ContinuesKeepsProbes(s, ports, w);
    more := logs + seq(|t.probes| - |s.probes|, _ => []);
    forall j | 0 <= j < |more| ensures Went(t, ports, j, more[j]) {
      assert j < |logs| ==> Went(s, ports, j, logs[j]);
    }
  }

  lemma {:induction false} RecordRun(s: Scan, ports: seq<nat>, logs: seq<seq<Stamped>>, ms: seq<ScanMove>)
      returns (more: seq<seq<Stamped>>)
    requires ScanInv(s, ports) && Recorded(s, ports, logs) && ScanRun(ports, s, ms)
    ensures Recorded(ScanAfter(ports, s, ms), ports, more)
    decreases |ms|
  {
    if ms == [] {
      more := logs;
    } else {
      var t := ScanStep(ports, s, ms[0]);
      ScanInvStep(s, ports, ms[0]);
      match ms[0] {
        case SocketFires(w, e) => more := RecordFires(s, ports, logs, w, e);
        case Continues(w) => more := RecordContinues(s, ports, logs, w);
        case Passes(dt) =>
          more := logs;
          forall j | 0 <= j < |more| ensures Went(t, ports, j, more[j]) {
            assert Went(s, ports, j, logs[j]);
          }
      }
      more := RecordRun(t, ports, more, ms[1..]);
    }
  }

  /** In every run of a scan each probe behaves as a probe alone does, with its own events and start. */
  lemma EachProbeRanAlone(ports: seq<nat>, ms: seq<ScanMove>) returns (logs: seq<seq<Stamped>>)
    requires ScanRun(ports, ScanStart(ports), ms)
    ensures Recorded(ScanAfter(ports, ScanStart(ports), ms), ports, logs)
  {
    var s := ScanStart(ports);
    ScanInvStart(ports);
    logs := seq(|s.probes|, _ => []);
    forall i | 0 <= i < |logs| ensures Went(s, ports, i, logs[i]) {
    }
    logs := RecordRun(s, ports, logs, ms);
  }

  lemma {:induction false} LeastSettling(port: nat, es: seq<Stamped>, n: nat) returns (k: nat)
    requires n < |es| && Settles(port, es, n)
    ensures FirstSettling(port, es, k)
  {
    if m: nat :| m < n && Settles(port, es, m) {
      k := LeastSettling(port, es, m);
    } else {
      k := n;
    }
  }

  lemma ResultIsOutcome(s: Scan, ports: seq<nat>, i: nat, r: PortResult)
    requires ScanInv(s, ports) && i < |s.timed.pool.results| && s.timed.pool.results[i] == Some(r)
    ensures i < |s.probes| && s.probes[i].outcomes == [Resolved(r)]
  {
  }

  /** A result is what the first settling event of its probe says. */
  ghost predicate ResultExplained(s: Scan, ports: seq<nat>, logs: seq<seq<Stamped>>, i: nat, r: PortResult)
    requires i < |logs| == |s.probes| <= |ports|
  {
    && s.probes[i].outcomes == [Resolved(r)]
    && exists k: nat :: FirstSettling(ports[i], logs[i], k) && SettledBy(s.probes[i], logs[i], k)
  }

  /** A latency is the time from the start of the probe to its first connect event. */
  ghost predicate LatencyExplained(s: Scan, logs: seq<seq<Stamped>>, i: nat, latency: int)
    requires i < |logs| == |s.timed.starts|
  {
    exists j: nat :: FirstConnect(logs[i], j) && latency == logs[i][j].time - s.timed.starts[i]
  }

  lemma ResultFollowsEvents(s: Scan, ports: seq<nat>, logs: seq<seq<Stamped>>, i: nat, r: PortResult)
    requires ScanInv(s, ports) && Recorded(s, ports, logs)
    requires i < |s.timed.pool.results| && s.timed.pool.results[i] == Some(r)
    ensures i < |logs| && ResultExplained(s, ports, logs, i, r)
  {
    ResultIsOutcome(s, ports, i, r);
    assert Went(s, ports, i, logs[i]);
    SettlesOnceByTheFirst(ports[i], s.timed.starts[i], logs[i]);
    var n: nat :| n < |logs[i]| && Settles(ports[i], logs[i], n);
    var k := LeastSettling(ports[i], logs[i], n);
  }

  lemma LatencyFollowsEvents(s: Scan, ports: seq<nat>, logs: seq<seq<Stamped>>, i: nat, r: PortResult)
    requires ScanInv(s, ports) && Recorded(s, ports, logs)
    requires i < |s.timed.pool.results| && s.timed.pool.results[i] == Some(r) && r.latency.Some?
    ensures i < |logs| && LatencyExplained(s, logs, i, r.latency.value)
  {
    ResultIsOutcome(s, ports, i, r);
    assert Went(s, ports, i, logs[i]);
    LatencyFromFirstConnect(ports[i], s.timed.starts[i], logs[i]);
    assert Resolved(r) in s.probes[i].outcomes;
  }

  lemma LatencySource(results: seq<PortResult>, report: Report) returns (i: nat)
    requires Summarizes(report, results) && report.latency.Some?
    ensures i < |results| && results[i].latency == report.latency
    ensures forall k | 0 <= k < i :: results[k].latency.None?
  {
    i :| 0 <= i < |results| && results[i].latency == report.latency
         && forall k | 0 <= k < i :: results[k].latency.None?;
  }

  ghost predicate ReportExplained(s: Scan, ports: seq<nat>, logs: seq<seq<Stamped>>,
                                  results: seq<PortResult>, report: Report)
    requires |logs| == |s.probes| == |s.timed.starts| == |results| <= |ports|
  {
    && (forall i | 0 <= i < |results| :: ResultExplained(s, ports, logs, i, results[i]))
    && (report.latency.Some? ==> exists i: nat ::
          && i < |results| && (forall k | 0 <= k < i :: results[k].latency.None?)
          && LatencyExplained(s, logs, i, report.latency.value))
  }

  lemma ExplainReport(s: Scan, ports: seq<nat>, logs: seq<seq<Stamped>>, results: seq<PortResult>, report: Report)
    requires ScanInv(s, ports) && Recorded(s, ports, logs) && Summarizes(report, results)
    requires |results| == |s.timed.pool.results| == |logs|
    requires forall i | 0 <= i < |results| :: s.timed.pool.results[i] == Some(results[i])
    ensures ReportExplained(s, ports, logs, results, report)
  {
    forall i | 0 <= i < |results| ensures ResultExplained(s, ports, logs, i, results[i]) {
      ResultFollowsEvents(s, ports, logs, i, results[i]);
    }
    if report.latency.Some? {
      var i := LatencySource(results, report);
      LatencyFollowsEvents(s, ports, logs, i, results[i]);
    }
  }

  /**
   The report of a fulfilled scan, down to the events of its probes: every result is what the first
   settling event of its probe says, and the latency is that of the first port that has one, the time
   from the start of its probe to its first connect event.
   */
  lemma ReportFollowsEvents(ports: seq<nat>, ms: seq<ScanMove>, results: seq<PortResult>, report: Report)
      returns (logs: seq<seq<Stamped>>)
    requires ScanRun(ports, ScanStart(ports), ms)
    requires var s := ScanAfter(ports, ScanStart(ports), ms);
      && Settlement(s.timed.pool) == Fulfilled
      && |results| == |s.timed.pool.results|
      && forall k | 0 <= k < |results| :: s.timed.pool.results[k] == Some(results[k])
    requires Summarizes(report, results)
    ensures var s := ScanAfter(ports, ScanStart(ports), ms);
      && Recorded(s, ports, logs) && |logs| == |results| == |s.probes|
      && ReportExplained(s, ports, logs, results, report)
  {
    var s := ScanAfter(ports, ScanStart(ports), ms);
    logs := EachProbeRanAlone(ports, ms);
    ScanInvStart(ports);
    ScanInvRun(ScanStart(ports), ports, ms);
    NativeScanEndsInTime(ports, ms);
    ExplainReport(s, ports, logs, results, report);
  }
}
