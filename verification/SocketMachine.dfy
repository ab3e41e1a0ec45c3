/**
 One TCP probe (`checkPort` in backend/scan/ports.js): a promise settled by whichever of the
 socket events, the banner timer and the abort signal gets there first.
 */
module SocketMachine {
  import opened Basics

  const HTTP_PROBE_PORTS: set<nat> := {80, 443, 8000, 8080, 8443, 8888}
  const FILTERED_ERROR_CODES: set<string> := {"ETIMEDOUT", "EHOSTUNREACH", "ENETUNREACH"}
  const CONNECT_TIMEOUT_MS: nat := 1500
  const BANNER_TIMEOUT_MS: nat := 2000

  datatype PortState = Open | Closed | Filtered
  datatype Reason = SynAck | ConnRefused | NoResponse

  datatype PortResult = PortResult(port: nat, state: PortState, banner: string, reason: Reason, latency: Option<int>)

  /** writeThrows: the HTTP probe write throws; Data carries the formatted banner text. */
  datatype SocketEvent =
    | Connect(writeThrows: bool)
    | Data(banner: string)
    | Timeout
    | Error(code: string)
    | BannerTimer
    | AbortSignal

  datatype Stamped = At(event: SocketEvent, time: nat)

  /** `outcomes` logs every resolve and reject; `listening` says whether the handlers are still attached. */
  datatype Probe = Probe(
    port: nat,
    startedAt: nat,
    connectedAt: Option<nat>,
    settled: bool,
    listening: bool,
    bannerArmed: bool,
    outcomes: seq<Outcome<PortResult>>)

  function Opened(port: nat, now: nat): Probe {
    Probe(port, now, None, false, true, false, [])
  }

  /** A signal that has already fired makes the promise reject before any socket exists. */
  function Refused(port: nat, now: nat): Probe {
    Probe(port, now, None, true, false, false, [Rejected])
  }

  function Finish(p: Probe, result: PortResult): Probe {
    if p.settled then p
    else p.(settled := true, listening := false, bannerArmed := false, outcomes := p.outcomes + [Resolved(result)])
  }

  /** From opening the socket to the connect event. */
  function Elapsed(p: Probe): int {
    if p.connectedAt.Some? then p.connectedAt.value - p.startedAt else 0
  }

  function OnConnect(p: Probe, writeThrows: bool, now: nat): Probe {
    if p.connectedAt.Some? then p // a once listener
    else
      var c := p.(connectedAt := Some(now));
      if p.port in HTTP_PROBE_PORTS && writeThrows then
        Finish(c, PortResult(p.port, Open, "", SynAck, Some(Elapsed(c))))
      else
        c.(bannerArmed := true)
  }

  function Handle(p: Probe, e: SocketEvent, now: nat): Probe {
    match e
    case Connect(writeThrows) => if p.listening then OnConnect(p, writeThrows, now) else p
    case Data(banner) =>
      if p.listening && p.connectedAt.Some? then
        Finish(p, PortResult(p.port, Open, banner, SynAck, Some(Elapsed(p))))
      else p
    case BannerTimer =>
      if p.bannerArmed then Finish(p, PortResult(p.port, Open, "", SynAck, Some(Elapsed(p)))) else p
    case Timeout =>
      if !p.listening then p
      else if p.connectedAt.Some? then Finish(p, PortResult(p.port, Open, "", SynAck, None))
      else Finish(p, PortResult(p.port, Filtered, "", NoResponse, None))
    case Error(code) =>
      if !p.listening then p
      else if p.connectedAt.Some? then Finish(p, PortResult(p.port, Open, "", SynAck, None))
      else
        var state := if code in FILTERED_ERROR_CODES then Filtered else Closed;
        Finish(p, PortResult(p.port, state, "", if state == Filtered then NoResponse else ConnRefused, None))
    case AbortSignal =>
      if p.listening && !p.settled then
        p.(settled := true, listening := false, bannerArmed := false, outcomes := p.outcomes + [Rejected])
      else p
  }

  function HandleAll(p: Probe, es: seq<Stamped>): Probe
    decreases |es|
  {
    if es == [] then p
    else
      var q := HandleAll(p, es[..|es| - 1]);
      Handle(q, es[|es| - 1].event, es[|es| - 1].time)
  }

  // ---------------------------------------------------------------- declarative reading of an event sequence

  ghost predicate ConnectedBefore(es: seq<Stamped>, k: nat) {
    exists j | 0 <= j < k && j < |es| :: es[j].event.Connect?
  }

  /** Event k settles a probe that is still open just before it. */
  ghost predicate Settles(port: nat, es: seq<Stamped>, k: nat)
    requires k < |es|
  {
    match es[k].event
    case Connect(writeThrows) => writeThrows && port in HTTP_PROBE_PORTS && !ConnectedBefore(es, k)
    case Data(_) => ConnectedBefore(es, k)
    case BannerTimer => ConnectedBefore(es, k)
    case Timeout => true
    case Error(_) => true
    case AbortSignal => true
  }

  ghost predicate FirstSettling(port: nat, es: seq<Stamped>, k: nat) {
    k < |es| && Settles(port, es, k) && forall j: nat | j < k :: !Settles(port, es, j)
  }

  ghost predicate ProbeInv(p: Probe) {
    && p.listening == !p.settled
    && |p.outcomes| == (if p.settled then 1 else 0)
    && (p.bannerArmed ==> p.connectedAt.Some? && !p.settled)
    && (!p.settled && p.connectedAt.Some? ==> p.bannerArmed)
    && (forall o | o in p.outcomes && o.Resolved? :: ResultOk(p, o.value))
  }

  predicate ResultOk(p: Probe, r: PortResult) {
    && r.port == p.port
    && (r.state == Open <==> p.connectedAt.Some?)
    && (r.state == Open <==> r.reason == SynAck)
    && (r.state == Filtered <==> r.reason == NoResponse)
    && (r.latency.Some? ==> r.state == Open && r.latency.value == Elapsed(p))
    && (r.banner != "" ==> r.state == Open)
  }

  lemma ProbeInvHandle(p: Probe, e: SocketEvent, now: nat)
    requires ProbeInv(p)
    ensures ProbeInv(Handle(p, e, now))
    ensures p.settled ==> Handle(p, e, now) == p
    ensures Handle(p, e, now).port == p.port && Handle(p, e, now).startedAt == p.startedAt
    ensures p.connectedAt.Some? ==> Handle(p, e, now).connectedAt == p.connectedAt
  {
  }

  /** The state the probe reports when event k settles it. */
  ghost function StateAt(es: seq<Stamped>, k: nat): PortState
    requires k < |es|
  {
    if ConnectedBefore(es, k + 1) then Open
    else if es[k].event.Error? && es[k].event.code !in FILTERED_ERROR_CODES then Closed
    else Filtered
  }

  ghost predicate SettledBy(p: Probe, es: seq<Stamped>, k: nat)
    requires k < |es|
  {
    && |p.outcomes| == 1
    && (p.connectedAt.Some? <==> ConnectedBefore(es, k + 1))
    && match p.outcomes[0]
       case Rejected => es[k].event.AbortSignal?
       case Resolved(r) =>
         && !es[k].event.AbortSignal?
         && ResultOk(p, r)
         && r.state == StateAt(es, k)
         && r.banner == (if es[k].event.Data? then es[k].event.banner else "")
         && (r.latency.Some? <==> es[k].event.Connect? || es[k].event.Data? || es[k].event.BannerTimer?)
  }

  /**
   For every order of events: the probe settles at most once, exactly when some event settles it,
   and then as the first such event says, whatever follows.
   */
  lemma {:induction false} SettlesOnceByTheFirst(port: nat, start: nat, es: seq<Stamped>)
    ensures var p := HandleAll(Opened(port, start), es);
      && ProbeInv(p) && p.port == port && p.startedAt == start
      && |p.outcomes| <= 1
      && (p.outcomes == [] <==> forall k: nat | k < |es| :: !Settles(port, es, k))
      && (p.outcomes == [] ==> (p.connectedAt.Some? <==> ConnectedBefore(es, |es|)))
      && (forall k: nat | FirstSettling(port, es, k) :: SettledBy(p, es, k))
    decreases |es|
  {
    if es == [] {
      return;
    }
    var p := HandleAll(Opened(port, start), es);
    var n := |es| - 1;
    var init := es[..n];
    SettlesOnceByTheFirst(port, start, init);
    var q := HandleAll(Opened(port, start), init);
    ProbeInvHandle(q, es[n].event, es[n].time);
    PrefixReads(port, es);
    if q.settled {
      forall k: nat | FirstSettling(port, es, k) ensures SettledBy(p, es, k) {
        var j: nat :| j < n && Settles(port, init, j);
        assert FirstSettling(port, init, k);
        assert ConnectedBefore(es, k + 1) <==> ConnectedBefore(init, k + 1);
      }
    } else {
      assert p.settled <==> Settles(port, es, n);
    }
  }

  /** One event sets the connect time exactly if it is the first connect event a listening probe gets. */
  lemma ConnectTimeStep(p: Probe, e: SocketEvent, now: nat)
    ensures Handle(p, e, now).connectedAt ==
      if p.listening && p.connectedAt.None? && e.Connect? then Some(now) else p.connectedAt
  {
  }

  ghost predicate FirstConnect(es: seq<Stamped>, j: nat) {
    j < |es| && es[j].event.Connect? && !ConnectedBefore(es, j)
  }

  /** An open probe without a connect time has seen no connect event. */
  lemma OpenUnconnected(port: nat, start: nat, es: seq<Stamped>)
    requires HandleAll(Opened(port, start), es).listening && HandleAll(Opened(port, start), es).connectedAt.None?
    ensures !ConnectedBefore(es, |es|)
  {
    SettlesOnceByTheFirst(port, start, es);
  }

  /** The connect time, from which the latency is taken, is that of the first connect event. */
  lemma {:induction false} ConnectTimeIsFirstConnect(port: nat, start: nat, es: seq<Stamped>)
    ensures var p := HandleAll(Opened(port, start), es);
      p.connectedAt.Some? ==> exists j: nat :: FirstConnect(es, j) && p.connectedAt == Some(es[j].time)
    decreases |es|
  {
    if es == [] {
    } else {
      var n := |es| - 1;
      var q := HandleAll(Opened(port, start), es[..n]);
      ConnectTimeIsFirstConnect(port, start, es[..n]);
      ConnectTimeStep(q, es[n].event, es[n].time);
      PrefixReads(port, es);
      if q.connectedAt.Some? {
        var j: nat :| FirstConnect(es[..n], j) && q.connectedAt == Some(es[..n][j].time);
        assert FirstConnect(es, j);
      } else if q.listening && es[n].event.Connect? {
        OpenUnconnected(port, start, es[..n]);
        assert FirstConnect(es, n);
      }
    }
  }

  /** Reading an earlier event does not depend on the last one. */
  lemma PrefixReads(port: nat, es: seq<Stamped>)
    requires es != []
    ensures var n := |es| - 1;
      && (forall k: nat | k <= n :: ConnectedBefore(es, k) <==> ConnectedBefore(es[..n], k))
      && (forall k: nat | k < n :: Settles(port, es, k) <==> Settles(port, es[..n], k))
      && (ConnectedBefore(es, n + 1) <==> ConnectedBefore(es, n) || es[n].event.Connect?)
  {
    var n := |es| - 1;
    forall k: nat | k < n ensures Settles(port, es, k) <==> Settles(port, es[..n], k) {
      assert ConnectedBefore(es, k) <==> ConnectedBefore(es[..n], k);
    }
  }

  /** A reported latency is the time from the start of the probe to the first connect event. */
  ghost predicate LatencyIsFromConnect(outcomes: seq<Outcome<PortResult>>, start: nat, es: seq<Stamped>) {
    forall o | o in outcomes && o.Resolved? && o.value.latency.Some? ::
      exists j: nat :: FirstConnect(es, j) && o.value.latency.value == es[j].time - start
  }

  lemma LatencyFromFirstConnect(port: nat, start: nat, es: seq<Stamped>)
    ensures LatencyIsFromConnect(HandleAll(Opened(port, start), es).outcomes, start, es)
  {
    SettlesOnceByTheFirst(port, start, es);
    ConnectTimeIsFirstConnect(port, start, es);
    var p := HandleAll(Opened(port, start), es);
    forall o | o in p.outcomes && o.Resolved? && o.value.latency.Some?
      ensures exists j: nat :: FirstConnect(es, j) && o.value.latency.value == es[j].time - start
    {
      assert ResultOk(p, o.value);
    }
  }

  /** A probe that was refused at the start has rejected, and whatever comes changes nothing. */
  lemma {:induction false} RefusedStays(port: nat, start: nat, es: seq<Stamped>)
    ensures HandleAll(Refused(port, start), es) == Probe(port, start, None, true, false, false, [Rejected])
    decreases |es|
  {
    if es == [] {
    } else {
      RefusedStays(port, start, es[..|es| - 1]);
    }
  }

  /** The probe as the code keeps it: flags in a closure, changed by callbacks. */
  class PortProbe {
    const port: nat
    const startedAt: nat
    var connectedAt: Option<nat>
    var settled: bool
    var listening: bool
    var bannerArmed: bool
    var outcomes: seq<Outcome<PortResult>>

    function Model(): Probe
      reads this
    {
      Probe(port, startedAt, connectedAt, settled, listening, bannerArmed, outcomes)
    }

    ghost predicate Valid()
      reads this
    {
      ProbeInv(Model())
    }

    constructor (port: nat, now: nat, alreadyAborted: bool)
      ensures Valid()
      ensures Model() == if alreadyAborted then Refused(port, now) else Opened(port, now)
    {
      this.port := port;
      startedAt := now;
      connectedAt := None;
      settled := alreadyAborted;
      listening := !alreadyAborted;
      bannerArmed := false;
      outcomes := if alreadyAborted then [Rejected] else [];
    }

    method Settle(outcome: Outcome<PortResult>)
      modifies this
      ensures old(settled) ==> Model() == old(Model())
      ensures !old(settled) ==> Model() == old(Model()).(settled := true, listening := false, bannerArmed := false,
                                                         outcomes := old(outcomes) + [outcome])
    {
      if settled {
        return;
      }
      settled := true;
      bannerArmed := false;
      listening := false;
      outcomes := outcomes + [outcome];
    }

    /** Delivers one event to the handlers that are still attached. */
    method Deliver(e: SocketEvent, now: nat)
      requires Valid()
      modifies this
      ensures Valid()
      ensures Model() == Handle(old(Model()), e, now)
    {
      ProbeInvHandle(Model(), e, now);
      match e {
        case Connect(writeThrows) =>
          if listening && connectedAt.None? {
            connectedAt := Some(now);
            var latency := now - startedAt;
            if port in HTTP_PROBE_PORTS && writeThrows {
              Settle(Resolved(PortResult(port, Open, "", SynAck, Some(latency))));
              return;
            }
            bannerArmed := true;
          }
        case Data(banner) =>
          if listening && connectedAt.Some? {
            Settle(Resolved(PortResult(port, Open, banner, SynAck, Some(Elapsed(Model())))));
          }
        case BannerTimer =>
          if bannerArmed {
            Settle(Resolved(PortResult(port, Open, "", SynAck, Some(Elapsed(Model())))));
          }
        case Timeout =>
          if listening {
            if connectedAt.Some? {
              Settle(Resolved(PortResult(port, Open, "", SynAck, None)));
              return;
            }
            Settle(Resolved(PortResult(port, Filtered, "", NoResponse, None)));
          }
        case Error(code) =>
          if listening {
            if connectedAt.Some? {
              Settle(Resolved(PortResult(port, Open, "", SynAck, None)));
              return;
            }
            var state := if code in FILTERED_ERROR_CODES then Filtered else Closed;
            var reason := if state == Filtered then NoResponse else ConnRefused;
            Settle(Resolved(PortResult(port, state, "", reason, None)));
          }
        case AbortSignal =>
          if listening {
            Settle(Rejected);
          }
      }
    }
  }

  /** A probe from its start through any events: what its promise is settled with, by which event, and how fast. */
  method CheckPort(port: nat, start: nat, alreadyAborted: bool, es: seq<Stamped>)
      returns (outcomes: seq<Outcome<PortResult>>, ghost p: Probe)
    ensures p.port == port && p.outcomes == outcomes && |outcomes| <= 1
    ensures alreadyAborted ==> outcomes == [Rejected]
    ensures !alreadyAborted ==>
      && (outcomes == [] <==> forall k: nat | k < |es| :: !Settles(port, es, k))
      && (forall k: nat | FirstSettling(port, es, k) :: SettledBy(p, es, k))
    ensures !alreadyAborted ==> LatencyIsFromConnect(outcomes, start, es)
  {
    ghost var origin := if alreadyAborted then Refused(port, start) else Opened(port, start);
    var probe := new PortProbe(port, start, alreadyAborted);
    for i := 0 to |es|
      invariant fresh(probe) && probe.Valid()
      invariant probe.Model() == HandleAll(origin, es[..i])
    {
      assert es[..i + 1][..i] == es[..i] && es[..i + 1][i] == es[i];
      probe.Deliver(es[i].event, es[i].time);
    }
    assert es[..|es|] == es;
    outcomes, p := probe.outcomes, probe.Model();
    if alreadyAborted {
      RefusedStays(port, start, es);
    } else {
      SettlesOnceByTheFirst(port, start, es);
      LatencyFromFirstConnect(port, start, es);
    }
  }
}
