/** `scanPorts` in backend/scan/ports.js: probe results sorted into a report. */
module PortScan {
  import opened Basics
  import opened SocketMachine
  import opened Sorting
  import opened TimedScan
  import WorkerPool

  datatype Row = Row(port: nat, banner: Option<string>, reason: Reason)

  datatype Report = Report(
    openPorts: seq<Row>,
    closedPorts: seq<Row>,
    filteredPorts: seq<Row>,
    hostUp: bool,
    latency: Option<int>,
    closedCount: nat,
    filteredCount: nat,
    totalPortsScanned: nat)

  function RowOf(r: PortResult): Row {
    Row(r.port, if r.state == Open then Some(r.banner) else None, r.reason)
  }

  function PortKey(row: Row): int { row.port }

  /** The rows of the results in one state, in result order. */
  function Rows(results: seq<PortResult>, state: PortState): seq<Row> {
    if results == [] then []
    else
      var last := results[|results| - 1];
      Rows(results[..|results| - 1], state) + (if last.state == state then [RowOf(last)] else [])
  }

  function PortsOf(rows: seq<Row>): seq<nat> {
    seq(|rows|, i requires 0 <= i < |rows| => rows[i].port)
  }

  function ScannedPorts(results: seq<PortResult>): seq<nat> {
    seq(|results|, i requires 0 <= i < |results| => results[i].port)
  }

  ghost predicate FirstLatency(results: seq<PortResult>, latency: Option<int>) {
    match latency
    case None => forall i | 0 <= i < |results| :: results[i].latency.None?
    case Some(ms) => exists i :: 0 <= i < |results| && results[i].latency == Some(ms)
                                 && forall j | 0 <= j < i :: results[j].latency.None?
  }

  ghost predicate Summarizes(report: Report, results: seq<PortResult>) {
    && multiset(report.openPorts) == multiset(Rows(results, Open))
    && multiset(report.closedPorts) == multiset(Rows(results, Closed))
    && multiset(report.filteredPorts) == multiset(Rows(results, Filtered))
    && SortedBy(report.openPorts, PortKey)
    && SortedBy(report.closedPorts, PortKey)
    && SortedBy(report.filteredPorts, PortKey)
    && (report.hostUp <==> exists i :: 0 <= i < |results| && results[i].reason != NoResponse)
    && FirstLatency(results, report.latency)
    && report.closedCount == |report.closedPorts| && report.filteredCount == |report.filteredPorts|
    && report.totalPortsScanned == |results|
  }

  /** The three-way split of the result loop. */
  method SplitByState(results: seq<PortResult>)
      returns (openPorts: seq<Row>, closedPorts: seq<Row>, filteredPorts: seq<Row>)
    ensures openPorts == Rows(results, Open)
    ensures closedPorts == Rows(results, Closed)
    ensures filteredPorts == Rows(results, Filtered)
  {
    openPorts, closedPorts, filteredPorts := [], [], [];
    for i := 0 to |results|
      invariant openPorts == Rows(results[..i], Open)
      invariant closedPorts == Rows(results[..i], Closed)
      invariant filteredPorts == Rows(results[..i], Filtered)
    {
      var result := results[i];
      assert results[..i + 1][..i] == results[..i];
      if result.state == Open {
        openPorts := openPorts + [RowOf(result)];
        continue;
      }
      if result.state == Filtered {
        filteredPorts := filteredPorts + [RowOf(result)];
        continue;
      }
      closedPorts := closedPorts + [RowOf(result)];
    }
    assert results[..|results|] == results;
  }

  /** The first finite latency, and whether any port answered. */
  method HostStatus(results: seq<PortResult>) returns (hostUp: bool, latency: Option<int>)
    ensures hostUp <==> exists i :: 0 <= i < |results| && results[i].reason != NoResponse
    ensures FirstLatency(results, latency)
  {
    latency, hostUp := None, false;
    for i := 0 to |results|
      invariant latency.None? ==> forall j | 0 <= j < i :: results[j].latency.None?
      invariant latency.Some? ==> FirstLatency(results, latency)
      invariant hostUp <==> exists j :: 0 <= j < i && results[j].reason != NoResponse
    {
      if latency.None? && results[i].latency.Some? {
        latency := results[i].latency;
      }
      hostUp := hostUp || results[i].reason != NoResponse;
    }
  }

  method Summarize(results: seq<PortResult>) returns (report: Report)
    ensures Summarizes(report, results)
  {
    var openPorts, closedPorts, filteredPorts := SplitByState(results);
    var hostUp, latency := HostStatus(results);
    SortSorts(openPorts, PortKey);
    SortSorts(closedPorts, PortKey);
    SortSorts(filteredPorts, PortKey);
    report := Report(Sort(openPorts, PortKey), Sort(closedPorts, PortKey), Sort(filteredPorts, PortKey),
                     hostUp, latency, |closedPorts|, |filteredPorts|, |results|);
    SameSize(report.closedPorts, closedPorts);
    SameSize(report.filteredPorts, filteredPorts);
  }

  /** A row tells what its result does, with the banner of an open port and no other. */
  ghost predicate Tells(row: Row, r: PortResult) {
    && row.port == r.port && row.reason == r.reason
    && row.banner == if r.state == Open then Some(r.banner) else None
  }

  lemma {:induction false} RowsTellResults(results: seq<PortResult>, state: PortState)
    ensures forall row | row in Rows(results, state) ::
      exists i :: 0 <= i < |results| && results[i].state == state && Tells(row, results[i])
    ensures forall i | 0 <= i < |results| && results[i].state == state ::
      exists row :: row in Rows(results, state) && Tells(row, results[i])
  {
    if results == [] {
    } else {
      var n := |results| - 1;
      RowsTellResults(results[..n], state);
      var added := if results[n].state == state then [RowOf(results[n])] else [];
      assert Rows(results, state) == Rows(results[..n], state) + added;
      forall row | row in Rows(results, state)
        ensures exists i :: 0 <= i < |results| && results[i].state == state && Tells(row, results[i])
      {
        if row in Rows(results[..n], state) {
          var i :| 0 <= i < n && results[..n][i].state == state && Tells(row, results[..n][i]);
          assert results[i].state == state && Tells(row, results[i]);
        } else {
          assert Tells(row, results[n]);
        }
      }
      forall i | 0 <= i < |results| && results[i].state == state
        ensures exists row :: row in Rows(results, state) && Tells(row, results[i])
      {
        if i < n {
          var row :| row in Rows(results[..n], state) && Tells(row, results[..n][i]);
          assert row in Rows(results, state) && Tells(row, results[i]);
        } else {
          assert RowOf(results[n]) in Rows(results, state) && Tells(RowOf(results[n]), results[n]);
        }
      }
    }
  }

  /** The rows of one heading, and the results in its state: each has its match in the other. */
  ghost predicate Listed(rows: seq<Row>, results: seq<PortResult>, state: PortState) {
    && (forall row | row in rows ::
          exists i :: 0 <= i < |results| && results[i].state == state && Tells(row, results[i]))
    && (forall i | 0 <= i < |results| && results[i].state == state ::
          exists row :: row in rows && Tells(row, results[i]))
  }

  lemma ListedAfterSort(rows: seq<Row>, results: seq<PortResult>, state: PortState)
    requires multiset(rows) == multiset(Rows(results, state))
    ensures Listed(rows, results, state)
  {
    RowsTellResults(results, state);
    forall row ensures row in rows <==> row in Rows(results, state) {
      assert row in multiset(rows) <==> row in multiset(Rows(results, state));
    }
  }

  /** A report lists every result under the heading of its state, with its port, reason and banner, and nothing else. */
  lemma ReportListsResults(report: Report, results: seq<PortResult>)
    requires Summarizes(report, results)
    ensures Listed(report.openPorts, results, Open)
    ensures Listed(report.closedPorts, results, Closed)
    ensures Listed(report.filteredPorts, results, Filtered)
  {
    ListedAfterSort(report.openPorts, results, Open);
    ListedAfterSort(report.closedPorts, results, Closed);
    ListedAfterSort(report.filteredPorts, results, Filtered);
  }

  lemma SameSize<T>(xs: seq<T>, ys: seq<T>)
    requires multiset(xs) == multiset(ys)
    ensures |xs| == |ys|
  {
    assert |multiset(xs)| == |xs| && |multiset(ys)| == |ys|;
  }

  lemma RowPortsSnoc(results: seq<PortResult>, state: PortState)
    requires results != []
    ensures var init, last := results[..|results| - 1], results[|results| - 1];
      multiset(PortsOf(Rows(results, state))) ==
        multiset(PortsOf(Rows(init, state))) + (if last.state == state then multiset{last.port} else multiset{})
  {
    var init, last := results[..|results| - 1], results[|results| - 1];
    var rows := Rows(init, state);
    if last.state == state {
      assert PortsOf(rows + [RowOf(last)]) == PortsOf(rows) + [last.port];
    } else {
      assert rows + [] == rows;
    }
  }

  /** No port is lost, duplicated or put under two headings. */
  lemma {:induction false} StatesPartitionPorts(results: seq<PortResult>)
    ensures multiset(PortsOf(Rows(results, Open))) + multiset(PortsOf(Rows(results, Closed)))
            + multiset(PortsOf(Rows(results, Filtered))) == multiset(ScannedPorts(results))
  {
    if results == [] {
    } else {
      var n := |results| - 1;
      var init, last := results[..n], results[n];
      StatesPartitionPorts(init);
      assert ScannedPorts(results) == ScannedPorts(init) + [last.port];
      RowPortsSnoc(results, Open);
      RowPortsSnoc(results, Closed);
      RowPortsSnoc(results, Filtered);
    }
  }

  /** Permuting the rows permutes their ports. */
  lemma {:induction false} PortsOfPermutation(xs: seq<Row>, ys: seq<Row>)
    requires multiset(xs) == multiset(ys)
    ensures multiset(PortsOf(xs)) == multiset(PortsOf(ys))
  {
    SameSize(xs, ys);
    if xs == [] {
    } else {
      var k := PositionOf(xs[0], ys);
      var rest := ys[..k] + ys[k + 1..];
      DropOne(xs, 0, ys, k);
      PortsOfPermutation(xs[..0] + xs[1..], rest);
      PortsOfOne(xs, 0);
      PortsOfOne(ys, k);
    }
  }

  lemma PositionOf(x: Row, ys: seq<Row>) returns (k: nat)
    requires x in multiset(ys)
    ensures k < |ys| && ys[k] == x
  {
    assert x in ys;
    k :| 0 <= k < |ys| && ys[k] == x;
  }

  lemma DropOne(xs: seq<Row>, i: nat, ys: seq<Row>, k: nat)
    requires i < |xs| && k < |ys| && xs[i] == ys[k] && multiset(xs) == multiset(ys)
    ensures multiset(xs[..i] + xs[i + 1..]) == multiset(ys[..k] + ys[k + 1..])
  {
    assert xs == xs[..i] + [xs[i]] + xs[i + 1..];
    assert ys == ys[..k] + [ys[k]] + ys[k + 1..];
    assert multiset(xs[..i] + xs[i + 1..]) == multiset(xs) - multiset{xs[i]};
    assert multiset(ys[..k] + ys[k + 1..]) == multiset(ys) - multiset{ys[k]};
  }

  lemma PortsOfOne(xs: seq<Row>, k: nat)
    requires k < |xs|
    ensures multiset(PortsOf(xs)) == multiset(PortsOf(xs[..k] + xs[k + 1..])) + multiset{xs[k].port}
  {
    assert PortsOf(xs) == PortsOf(xs[..k]) + [xs[k].port] + PortsOf(xs[k + 1..]);
    assert PortsOf(xs[..k] + xs[k + 1..]) == PortsOf(xs[..k]) + PortsOf(xs[k + 1..]);
  }

  /** From the socket events to the report: a fulfilled scan accounts for exactly the ports it was given. */
  lemma ReportAccountsForEveryPort(ports: seq<nat>, ms: seq<ScanMove>, results: seq<PortResult>, report: Report)
    requires ScanRun(ports, ScanStart(ports), ms)
    requires var s := ScanAfter(ports, ScanStart(ports), ms);
      && WorkerPool.Settlement(s.timed.pool) == WorkerPool.Fulfilled
      && |results| == |s.timed.pool.results|
      && forall i | 0 <= i < |results| :: s.timed.pool.results[i] == Some(results[i])
    requires Summarizes(report, results)
    ensures multiset(PortsOf(report.openPorts)) + multiset(PortsOf(report.closedPorts))
            + multiset(PortsOf(report.filteredPorts)) == multiset(ports)
    ensures report.hostUp <==> exists i :: 0 <= i < |results| && results[i].state != Filtered
    ensures var s := ScanAfter(ports, ScanStart(ports), ms);
      |s.probes| == |results| == |ports| && forall i | 0 <= i < |results| ::
        results[i].port == ports[i] && (results[i].state == Open <==> s.probes[i].connectedAt.Some?)
  {
    NativeScanEndsInTime(ports, ms);
    StatesPartitionPorts(results);
    PortsOfPermutation(report.openPorts, Rows(results, Open));
    PortsOfPermutation(report.closedPorts, Rows(results, Closed));
    PortsOfPermutation(report.filteredPorts, Rows(results, Filtered));
    var s := ScanAfter(ports, ScanStart(ports), ms);
    forall i | 0 <= i < |results|
      ensures results[i].port == ports[i]
      ensures results[i].reason == NoResponse <==> results[i].state == Filtered
      ensures results[i].state == Open <==> s.probes[i].connectedAt.Some?
    {
      assert s.timed.pool.results[i] == Some(results[i]);
    }
    assert ScannedPorts(results) == ports;
  }
}
