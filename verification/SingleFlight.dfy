/**
 The two nested promise locks of backend/scan/legacy-rank.js. Attempts are numbered in the order
 they are started; a slot names the attempt whose promise it holds. The clean-up attached to each
 attempt runs one reaction after its work has settled, and callers may arrive in between.
 */
module SingleFlight {
  import opened Basics

  datatype Status = Running | WorkDone | WorkFailed | Fulfilled | Rejected

  /** A parse first waits for a download, then streams the file. */
  datatype Parse = Parse(status: Status, waitsFor: nat, streaming: bool)

  datatype Store = Store(
    downloads: seq<Status>,
    downloadSlot: Option<nat>,
    parses: seq<Parse>,
    parseSlot: Option<nat>,
    cached: Option<nat>)

  /** What a caller is handed: ranks at once, from the parse that read them, or the promise of a parse. */
  datatype Ticket = Ranks(parse: nat) | Promised(parse: nat)

  datatype Event =
    | Call
    | DownloadEnds(download: nat, ok: bool)
    | DownloadReacts(download: nat)
    | ParseHears(parse: nat)
    | ParseEnds(parse: nat, ok: bool)
    | ParseReacts(parse: nat)

  const EMPTY := Store([], None, [], None, None)

  /** ensureCsvDownloaded: join the attempt in the slot, or start one. */
  function Download(s: Store): (Store, nat) {
    if s.downloadSlot.Some? then (s, s.downloadSlot.value)
    else (s.(downloads := s.downloads + [Running], downloadSlot := Some(|s.downloads|)), |s.downloads|)
  }

  /** ensureRanksParsed. */
  function Ranked(s: Store): (Store, Ticket) {
    if s.cached.Some? then (s, Ranks(s.cached.value))
    else if s.parseSlot.Some? then (s, Promised(s.parseSlot.value))
    else
      var (t, d) := Download(s);
      (t.(parses := t.parses + [Parse(Running, d, false)], parseSlot := Some(|t.parses|)), Promised(|t.parses|))
  }

  predicate Enabled(s: Store, e: Event) {
    match e
    case Call => true
    case DownloadEnds(d, _) => d < |s.downloads| && s.downloads[d].Running?
    case DownloadReacts(d) => d < |s.downloads| && (s.downloads[d].WorkDone? || s.downloads[d].WorkFailed?)
    case ParseHears(p) =>
      && p < |s.parses| && s.parses[p].status.Running? && !s.parses[p].streaming
      && s.parses[p].waitsFor < |s.downloads|
      && (s.downloads[s.parses[p].waitsFor].Fulfilled? || s.downloads[s.parses[p].waitsFor].Rejected?)
    case ParseEnds(p, _) => p < |s.parses| && s.parses[p].status.Running? && s.parses[p].streaming
    case ParseReacts(p) => p < |s.parses| && (s.parses[p].status.WorkDone? || s.parses[p].status.WorkFailed?)
  }

  function Step(s: Store, e: Event): Store
    requires Enabled(s, e)
  {
    match e
    case Call => Ranked(s).0
    case DownloadEnds(d, ok) => s.(downloads := s.downloads[d := if ok then WorkDone else WorkFailed])
    case DownloadReacts(d) =>
      if s.downloads[d].WorkDone? then s.(downloads := s.downloads[d := Fulfilled])
      else s.(downloads := s.downloads[d := Status.Rejected], downloadSlot := None)
    case ParseHears(p) =>
      var q := s.parses[p];
      s.(parses := s.parses[p := if s.downloads[q.waitsFor].Fulfilled? then q.(streaming := true)
                                 else q.(status := WorkFailed)])
    case ParseEnds(p, ok) =>
      if ok then s.(parses := s.parses[p := s.parses[p].(status := WorkDone)], cached := Some(p))
      else s.(parses := s.parses[p := s.parses[p].(status := WorkFailed)])
    case ParseReacts(p) =>
      if s.parses[p].status.WorkDone? then s.(parses := s.parses[p := s.parses[p].(status := Fulfilled)])
      else s.(parses := s.parses[p := s.parses[p].(status := Status.Rejected)], parseSlot := None)
  }

  predicate ValidRun(s: Store, es: seq<Event>)
    decreases |es|
  {
    es == [] || (Enabled(s, es[0]) && ValidRun(Step(s, es[0]), es[1..]))
  }

  function After(s: Store, es: seq<Event>): Store
    requires ValidRun(s, es)
    decreases |es|
  {
    if es == [] then s else After(Step(s, es[0]), es[1..])
  }

  // ---------------------------------------------------------------- invariant

  predicate Failed(status: Status) { status.Rejected? }

  predicate FailedParse(p: Parse) { p.status.Rejected? }

  /** The slot holds the newest attempt unless that one has been rejected, and then it is empty. */
  predicate SlotFits(slot: Option<nat>, attempts: nat, newestRejected: bool) {
    slot == if attempts == 0 || newestRejected then None else Some((attempts - 1) as nat)
  }

  ghost predicate Inv(s: Store) {
    && (forall d | 0 <= d < |s.downloads| - 1 :: s.downloads[d].Rejected?)
    && (forall p | 0 <= p < |s.parses| - 1 :: s.parses[p].status.Rejected?)
    && SlotFits(s.downloadSlot, |s.downloads|, s.downloads != [] && s.downloads[|s.downloads| - 1].Rejected?)
    && SlotFits(s.parseSlot, |s.parses|, s.parses != [] && s.parses[|s.parses| - 1].status.Rejected?)
    && (forall p | 0 <= p < |s.parses| :: s.parses[p].waitsFor < |s.downloads|)
    && (forall p | 0 <= p < |s.parses| && s.parses[p].status.Running? :: s.parses[p].waitsFor == |s.downloads| - 1)
    && (forall p | 0 <= p < |s.parses|
                   && (s.parses[p].streaming || s.parses[p].status.WorkDone? || s.parses[p].status.Fulfilled?) ::
          s.downloads[s.parses[p].waitsFor].Fulfilled?)
    && (s.cached.Some? ==>
          s.parses != [] && s.cached.value == |s.parses| - 1
          && (s.parses[s.cached.value].status.WorkDone? || s.parses[s.cached.value].status.Fulfilled?))
    && (s.cached.None? ==>
          s.parses == [] || !(s.parses[|s.parses| - 1].status.WorkDone? || s.parses[|s.parses| - 1].status.Fulfilled?))
  }

  lemma InvCall(s: Store)
    requires Inv(s)
    ensures Inv(Ranked(s).0)
  {
  }

  lemma InvDownload(s: Store, e: Event)
    requires Inv(s) && Enabled(s, e) && (e.DownloadEnds? || e.DownloadReacts?)
    ensures Inv(Step(s, e))
  {
    assert e.download == |s.downloads| - 1;
  }

  lemma InvParse(s: Store, e: Event)
    requires Inv(s) && Enabled(s, e) && (e.ParseHears? || e.ParseEnds? || e.ParseReacts?)
    ensures Inv(Step(s, e))
  {
    assert e.parse == |s.parses| - 1;
  }

  lemma InvStep(s: Store, e: Event)
    requires Inv(s) && Enabled(s, e)
    ensures Inv(Step(s, e))
  {
    match e
    case Call => InvCall(s);
    case DownloadEnds(_, _) => InvDownload(s, e);
    case DownloadReacts(_) => InvDownload(s, e);
    case _ => InvParse(s, e);
  }

  lemma {:induction false} InvRun(s: Store, es: seq<Event>)
    requires Inv(s) && ValidRun(s, es)
    ensures Inv(After(s, es))
    decreases |es|
  {
    if es == [] {
    } else {
      InvStep(s, es[0]);
      InvRun(Step(s, es[0]), es[1..]);
    }
  }

  // ---------------------------------------------------------------- what callers can rely on

  /** Conservation, for both locks in every reachable state: every attempt has failed, but for the one in the slot. */
  lemma AttemptsAreConserved(es: seq<Event>)
    requires ValidRun(EMPTY, es)
    ensures var s := After(EMPTY, es);
      && |s.downloads| == Count(s.downloads, Failed) + (if s.downloadSlot.Some? then 1 else 0)
      && |s.parses| == Count(s.parses, FailedParse) + (if s.parseSlot.Some? then 1 else 0)
      && (s.downloadSlot.Some? ==> s.downloadSlot.value < |s.downloads| && !s.downloads[s.downloadSlot.value].Rejected?)
      && (s.parseSlot.Some? ==> s.parseSlot.value < |s.parses| && !s.parses[s.parseSlot.value].status.Rejected?)
  {
    InvRun(EMPTY, es);
    InvCounts(After(EMPTY, es));
  }

  lemma InvCounts(s: Store)
    requires Inv(s)
    ensures |s.downloads| == Count(s.downloads, Failed) + (if s.downloadSlot.Some? then 1 else 0)
    ensures |s.parses| == Count(s.parses, FailedParse) + (if s.parseSlot.Some? then 1 else 0)
  {
    AllButLast(s.downloads, Failed);
    AllButLast(s.parses, FailedParse);
  }

  lemma AllButLast<T>(xs: seq<T>, p: T -> bool)
    requires forall i | 0 <= i < |xs| - 1 :: p(xs[i])
    ensures Count(xs, p) == if xs == [] || p(xs[|xs| - 1]) then |xs| else |xs| - 1
  {
    if xs != [] {
      var init, last := xs[..|xs| - 1], xs[|xs| - 1];
      assert xs == init + [last];
      CountAppend(init, [last], p);
      CountExtremes(init, p);
    }
  }

  /** At most one download and one parse are under way, and whoever calls meanwhile joins them. */
  lemma CallersShareOneAttempt(s: Store)
    requires Inv(s)
    ensures var (t, ticket) := Ranked(s);
      && Ranked(t) == (t, ticket)
      && |t.parses| <= |s.parses| + 1 && |t.downloads| <= |s.downloads| + 1
      && (s.parseSlot.Some? ==> t == s)
      && (s.downloadSlot.Some? ==> t.downloads == s.downloads)
    ensures forall d | 0 <= d < |s.downloads| && s.downloads[d].Running? :: d == |s.downloads| - 1
    ensures forall p | 0 <= p < |s.parses| && s.parses[p].status.Running? :: p == |s.parses| - 1
  {
  }

  lemma {:induction false} RejectedStays(s: Store, es: seq<Event>, p: nat)
    requires ValidRun(s, es) && p < |s.parses| && s.parses[p].status.Rejected?
    ensures p < |After(s, es).parses| && After(s, es).parses[p].status.Rejected?
    decreases |es|
  {
    if es == [] {
    } else {
      RejectedStays(Step(s, es[0]), es[1..], p);
    }
  }

  /** No caller is handed an attempt that has already failed. */
  lemma TicketIsLive(s: Store)
    requires Inv(s)
    ensures var (t, ticket) := Ranked(s);
      && s.parses <= t.parses
      && ticket.parse < |t.parses| && !t.parses[ticket.parse].status.Rejected?
  {
  }

  /** A caller that saw an attempt fail and calls again, however much later, is never handed that attempt. */
  lemma RetryIsNeverTheFailedAttempt(s: Store, es: seq<Event>, p: nat)
    requires Inv(s) && ValidRun(s, es)
    requires p < |s.parses| && s.parses[p].status.Rejected?
    ensures Ranked(After(s, es)).1.parse != p
    ensures Ranked(After(s, es)).1.parse < |Ranked(After(s, es)).0.parses|
    ensures !Ranked(After(s, es)).0.parses[Ranked(After(s, es)).1.parse].status.Rejected?
  {
    InvRun(s, es);
    RejectedStays(s, es, p);
    TicketIsLive(After(s, es));
  }

  /** Once a parse has succeeded nothing is ever started again, and every caller gets that parse's ranks. */
  lemma {:induction false} SuccessIsFinal(s: Store, es: seq<Event>)
    requires Inv(s) && ValidRun(s, es) && s.cached.Some?
    ensures var t := After(s, es);
      && t.cached == s.cached
      && Ranked(t) == (t, Ranks(s.cached.value))
      && |t.parses| == |s.parses| && |t.downloads| == |s.downloads|
    decreases |es|
  {
    if es == [] {
    } else {
      InvStep(s, es[0]);
      SuccessIsFinal(Step(s, es[0]), es[1..]);
    }
  }

  /** All promises that fulfil are one and the same attempt, and its ranks are the cached ones. */
  lemma AllSuccessesAgree(s: Store, p: nat)
    requires Inv(s) && p < |s.parses| && s.parses[p].status.Fulfilled?
    ensures s.cached == Some(p)
  {
  }

  function StatusWork(status: Status): nat {
    match status
    case Running => 2
    case WorkDone => 1
    case WorkFailed => 1
    case _ => 0
  }

  /** What the newest download and the newest parse still have to do. */
  function Remaining(s: Store): nat {
    (if s.downloads == [] then 0 else StatusWork(s.downloads[|s.downloads| - 1]))
    + (if s.parses == [] then 0
       else
         var p := s.parses[|s.parses| - 1];
         StatusWork(p.status) + (if p.status.Running? && !p.streaming then 1 else 0))
  }

  /** A joined promise does not hang on the locks: until it settles some reaction is due. */
  lemma PendingParseMoves(s: Store)
    requires Inv(s)
    ensures s.parseSlot.Some? && !s.parses[s.parseSlot.value].status.Fulfilled? ==>
      exists e: Event :: !e.Call? && Enabled(s, e)
  {
    if s.parseSlot.Some? && !s.parses[s.parseSlot.value].status.Fulfilled? {
      var p := s.parseSlot.value;
      var d := s.parses[p].waitsFor;
      if !s.parses[p].status.Running? {
        assert Enabled(s, ParseReacts(p));
      } else if s.parses[p].streaming {
        assert Enabled(s, ParseEnds(p, true));
      } else if s.downloads[d].Running? {
        assert Enabled(s, DownloadEnds(d, true));
      } else if s.downloads[d].WorkDone? || s.downloads[d].WorkFailed? {
        assert Enabled(s, DownloadReacts(d));
      } else {
        assert Enabled(s, ParseHears(p));
      }
    }
  }

  lemma ReactionsRunOut(s: Store, e: Event)
    requires Inv(s) && Enabled(s, e) && !e.Call?
    ensures Remaining(Step(s, e)) < Remaining(s)
  {
    if e.DownloadEnds? || e.DownloadReacts? {
      assert e.download == |s.downloads| - 1;
    } else {
      assert e.parse == |s.parses| - 1;
    }
  }

  // ---------------------------------------------------------------- the module-level variables

  class RankStore {
    var downloads: seq<Status>
    var downloadPromise: Option<nat>
    var parses: seq<Parse>
    var parsePromise: Option<nat>
    var cachedRanks: Option<nat>

    function Model(): Store
      reads this
    {
      Store(downloads, downloadPromise, parses, parsePromise, cachedRanks)
    }

    ghost predicate Valid()
      reads this
    {
      Inv(Model())
    }

    constructor ()
      ensures Valid()
      ensures Model() == EMPTY
    {
      downloads, downloadPromise, parses, parsePromise, cachedRanks := [], None, [], None, None;
    }

    method EnsureCsvDownloaded() returns (download: nat)
      modifies this
      ensures (Model(), download) == Download(old(Model()))
    {
      if downloadPromise.Some? {
        return downloadPromise.value;
      }
      download := |downloads|;
      downloads := downloads + [Running];
      downloadPromise := Some(download);
    }

    /** Every caller gets an attempt that has not failed, and the attempts under way go on as they were. */
    method EnsureRanksParsed() returns (ticket: Ticket)
      requires Valid()
      modifies this
      ensures Valid() && (Model(), ticket) == Ranked(old(Model()))
      ensures ticket.parse < |parses| && !parses[ticket.parse].status.Rejected?
      ensures old(parses) <= parses && old(downloads) <= downloads
    {
      InvCall(Model());
      TicketIsLive(Model());
      if cachedRanks.Some? {
        return Ranks(cachedRanks.value);
      }
      if parsePromise.Some? {
        return Promised(parsePromise.value);
      }
      var download := EnsureCsvDownloaded();
      ticket := Promised(|parses|);
      parsePromise := Some(|parses|);
      parses := parses + [Parse(Running, download, false)];
    }

    /** The clean-up of a download: on failure the slot is emptied before the promise rejects. */
    method DownloadReaction(d: nat)
      requires Valid() && Enabled(Model(), DownloadReacts(d))
      modifies this
      ensures Valid() && Model() == Step(old(Model()), DownloadReacts(d))
    {
      InvStep(Model(), DownloadReacts(d));
      if downloads[d].WorkDone? {
        downloads := downloads[d := Fulfilled];
      } else {
        downloadPromise := None;
        downloads := downloads[d := Status.Rejected];
      }
    }

    /** The file has arrived, or has not: the clean-up that follows is one reaction away. */
    method DownloadFinished(d: nat, ok: bool)
      requires Valid() && Enabled(Model(), DownloadEnds(d, ok))
      modifies this
      ensures Valid() && Model() == Step(old(Model()), DownloadEnds(d, ok))
    {
      InvStep(Model(), DownloadEnds(d, ok));
      downloads := downloads[d := if ok then WorkDone else WorkFailed];
    }

    /** A waiting parse hears how its download settled: it starts streaming, or fails with it. */
    method DownloadHeard(p: nat)
      requires Valid() && Enabled(Model(), ParseHears(p))
      modifies this
      ensures Valid() && Model() == Step(old(Model()), ParseHears(p))
    {
      InvStep(Model(), ParseHears(p));
      var waiting := parses[p];
      if downloads[waiting.waitsFor].Fulfilled? {
        parses := parses[p := waiting.(streaming := true)];
      } else {
        parses := parses[p := waiting.(status := WorkFailed)];
      }
    }

    method ParseFinished(p: nat, ok: bool)
      requires Valid() && Enabled(Model(), ParseEnds(p, ok))
      modifies this
      ensures Valid() && Model() == Step(old(Model()), ParseEnds(p, ok))
    {
      InvStep(Model(), ParseEnds(p, ok));
      if ok {
        cachedRanks := Some(p);
        parses := parses[p := parses[p].(status := WorkDone)];
      } else {
        parses := parses[p := parses[p].(status := WorkFailed)];
      }
    }

    method ParseReaction(p: nat)
      requires Valid() && Enabled(Model(), ParseReacts(p))
      modifies this
      ensures Valid() && Model() == Step(old(Model()), ParseReacts(p))
    {
      InvStep(Model(), ParseReacts(p));
      if parses[p].status.WorkDone? {
        parses := parses[p := parses[p].(status := Fulfilled)];
      } else {
        parsePromise := None;
        parses := parses[p := parses[p].(status := Status.Rejected)];
      }
    }
  }

  method Deliver(store: RankStore, e: Event) returns (ticket: Option<Ticket>)
    requires store.Valid() && Enabled(store.Model(), e)
    modifies store
    ensures store.Valid() && store.Model() == Step(old(store.Model()), e)
    ensures ticket == if e.Call? then Some(Ranked(old(store.Model())).1) else None
  {
    ticket := None;
    match e {
      case Call =>
        var handed := store.EnsureRanksParsed();
        ticket := Some(handed);
      case DownloadEnds(d, ok) => store.DownloadFinished(d, ok);
      case DownloadReacts(d) => store.DownloadReaction(d);
      case ParseHears(p) => store.DownloadHeard(p);
      case ParseEnds(p, ok) => store.ParseFinished(p, ok);
      case ParseReacts(p) => store.ParseReaction(p);
    }
  }

  /** What the callers of a whole run are handed, in order. */
  function Tickets(s: Store, es: seq<Event>): seq<Ticket>
    requires ValidRun(s, es)
    decreases |es|
  {
    if es == [] then []
    else (if es[0].Call? then [Ranked(s).1] else []) + Tickets(Step(s, es[0]), es[1..])
  }

  /** The store through any run, callers and outcomes in any order. */
  method DriveFrom(store: RankStore, es: seq<Event>) returns (tickets: seq<Ticket>)
    requires store.Valid() && ValidRun(store.Model(), es)
    modifies store
    ensures store.Valid() && store.Model() == After(old(store.Model()), es)
    ensures tickets == Tickets(old(store.Model()), es)
    decreases |es|
  {
    if es == [] {
      return [];
    }
    var first := Deliver(store, es[0]);
    tickets := DriveFrom(store, es[1..]);
    if first.Some? {
      tickets := [first.value] + tickets;
    }
  }

  /** From the start it reaches the state of the run, in which all attempts but those in the slots have failed. */
  method Drive(es: seq<Event>) returns (store: RankStore, tickets: seq<Ticket>)
    requires ValidRun(EMPTY, es)
    ensures fresh(store) && store.Valid() && store.Model() == After(EMPTY, es)
    ensures tickets == Tickets(EMPTY, es)
    ensures |store.downloads| == Count(store.downloads, Failed) + (if store.downloadPromise.Some? then 1 else 0)
    ensures |store.parses| == Count(store.parses, FailedParse) + (if store.parsePromise.Some? then 1 else 0)
  {
    store := new RankStore();
    tickets := DriveFrom(store, es);
    AttemptsAreConserved(es);
  }
}
