/** What became of every download and parse, in terms of the events of the run alone. */
module FlightHistory {
  import opened Basics
  import opened SingleFlight

  predicate Good(status: Status) { status.WorkDone? || status.Fulfilled? }

  predicate Bad(status: Status) { status.WorkFailed? || status.Rejected? }

  predicate Over(status: Status) { status.Fulfilled? || status.Rejected? }

  ghost predicate DownloadExplained(s: Store, past: seq<Event>, d: nat) {
    && ((d < |s.downloads| && Good(s.downloads[d])) <==> DownloadEnds(d, true) in past)
    && ((d < |s.downloads| && Bad(s.downloads[d])) <==> DownloadEnds(d, false) in past)
    && ((d < |s.downloads| && Over(s.downloads[d])) <==> DownloadReacts(d) in past)
  }

  /** A parse fails on its own, or when it hears that the download it waits for has failed. */
  ghost predicate FailedWith(s: Store, past: seq<Event>, p: nat) {
    || ParseEnds(p, false) in past
    || (p < |s.parses| && ParseHears(p) in past && DownloadEnds(s.parses[p].waitsFor, false) in past)
  }

  ghost predicate HeardRightly(s: Store, past: seq<Event>, p: nat) {
    && (ParseHears(p) in past ==>
          p < |s.parses| && s.parses[p].waitsFor < |s.downloads| && Over(s.downloads[s.parses[p].waitsFor]))
    && (p < |s.parses| ==>
          (s.parses[p].streaming <==> ParseHears(p) in past && DownloadEnds(s.parses[p].waitsFor, true) in past))
  }

  ghost predicate ParseExplained(s: Store, past: seq<Event>, p: nat) {
    && ((p < |s.parses| && Good(s.parses[p].status)) <==> ParseEnds(p, true) in past)
    && ((p < |s.parses| && Bad(s.parses[p].status)) <==> FailedWith(s, past, p))
    && ((p < |s.parses| && Over(s.parses[p].status)) <==> ParseReacts(p) in past)
    && (s.cached == Some(p) <==> ParseEnds(p, true) in past)
  }

  ghost predicate Explained(s: Store, past: seq<Event>) {
    && (forall d: nat :: DownloadExplained(s, past, d))
    && (forall p: nat :: ParseExplained(s, past, p))
    && (forall p: nat :: HeardRightly(s, past, p))
  }

  lemma SnocMember(past: seq<Event>, e: Event)
    ensures forall f :: f in past + [e] <==> f in past || f == e
  {
  }

  lemma DownloadStep(s: Store, past: seq<Event>, e: Event, d: nat)
    requires DownloadExplained(s, past, d) && Enabled(s, e)
    ensures DownloadExplained(Step(s, e), past + [e], d)
  {
    SnocMember(past, e);
  }

  lemma HeardStep(s: Store, past: seq<Event>, e: Event, p: nat)
    requires Inv(s) && Enabled(s, e) && HeardRightly(s, past, p)
    requires p < |s.parses| ==> DownloadExplained(s, past, s.parses[p].waitsFor)
    requires p >= |s.parses| ==> ParseExplained(s, past, p)
    ensures HeardRightly(Step(s, e), past + [e], p)
  {
    SnocMember(past, e);
    if e.ParseHears? && e.parse == p {
      HearsOnce(s, past, p);
    }
  }

  lemma HearsOnce(s: Store, past: seq<Event>, p: nat)
    requires Inv(s) && Enabled(s, ParseHears(p)) && DownloadExplained(s, past, s.parses[p].waitsFor)
    ensures DownloadEnds(s.parses[p].waitsFor, true) in past <==> s.downloads[s.parses[p].waitsFor].Fulfilled?
  {
  }

  lemma ParseStep(s: Store, past: seq<Event>, e: Event, p: nat)
    requires Inv(s) && Enabled(s, e) && ParseExplained(s, past, p) && HeardRightly(s, past, p)
    requires p < |s.parses| ==> DownloadExplained(s, past, s.parses[p].waitsFor)
    ensures ParseExplained(Step(s, e), past + [e], p)
  {
    if e.ParseHears? || e.ParseEnds? || e.ParseReacts? {
      OwnStep(s, past, e, p);
    } else {
      SnocMember(past, e);
      if e.Call? && p >= |s.parses| {
        assert !FailedWith(s, past, p);
      }
    }
  }

  lemma OwnStep(s: Store, past: seq<Event>, e: Event, p: nat)
    requires Inv(s) && Enabled(s, e) && ParseExplained(s, past, p) && HeardRightly(s, past, p)
    requires p < |s.parses| ==> DownloadExplained(s, past, s.parses[p].waitsFor)
    requires e.ParseHears? || e.ParseEnds? || e.ParseReacts?
    ensures ParseExplained(Step(s, e), past + [e], p)
  {
    SnocMember(past, e);
    assert e.parse == |s.parses| - 1;
  }

  lemma ExplainedStep(s: Store, past: seq<Event>, e: Event)
    requires Inv(s) && Explained(s, past) && Enabled(s, e)
    ensures Explained(Step(s, e), past + [e])
  {
    forall d: nat ensures DownloadExplained(Step(s, e), past + [e], d) {
      DownloadStep(s, past, e, d);
    }
    forall p: nat ensures ParseExplained(Step(s, e), past + [e], p) && HeardRightly(Step(s, e), past + [e], p) {
      assert ParseExplained(s, past, p) && HeardRightly(s, past, p);
      assert p < |s.parses| ==> DownloadExplained(s, past, s.parses[p].waitsFor);
      ParseStep(s, past, e, p);
      HeardStep(s, past, e, p);
    }
  }

  lemma {:induction false} ExplainedRun(s: Store, past: seq<Event>, es: seq<Event>)
    requires Inv(s) && Explained(s, past) && ValidRun(s, es)
    ensures Explained(After(s, es), past + es)
    decreases |es|
  {
    if es == [] {
      assert past + es == past;
    } else {
      InvStep(s, es[0]);
      ExplainedStep(s, past, es[0]);
      ExplainedRun(Step(s, es[0]), past + [es[0]], es[1..]);
      assert past + [es[0]] + es[1..] == past + es;
    }
  }

  /** In every reachable state. */
  lemma RunIsExplained(es: seq<Event>)
    requires ValidRun(EMPTY, es)
    ensures Explained(After(EMPTY, es), es)
  {
    assert [] + es == es;
    ExplainedRun(EMPTY, [], es);
  }

  /**
   What became of the attempts. Ranks are cached from parse p exactly if it ended well. A parse has
   failed only because it ended badly or because the download it waits for did. A download has done
   its work exactly if it ended well.
   */
  lemma OutcomesFollowEvents(es: seq<Event>)
    requires ValidRun(EMPTY, es)
    ensures var s := After(EMPTY, es);
      && (forall p: nat :: s.cached == Some(p) <==> ParseEnds(p, true) in es)
      && (forall p: nat | p < |s.parses| ::
            s.parses[p].status.WorkDone? || s.parses[p].status.Fulfilled? <==> ParseEnds(p, true) in es)
      && (forall p: nat | p < |s.parses| && (s.parses[p].status.WorkFailed? || s.parses[p].status.Rejected?) ::
            ParseEnds(p, false) in es || DownloadEnds(s.parses[p].waitsFor, false) in es)
      && (forall d: nat | d < |s.downloads| ::
            s.downloads[d].WorkDone? || s.downloads[d].Fulfilled? <==> DownloadEnds(d, true) in es)
      && (forall d: nat | d < |s.downloads| ::
            s.downloads[d].WorkFailed? || s.downloads[d].Rejected? <==> DownloadEnds(d, false) in es)
  {
    RunIsExplained(es);
    var s := After(EMPTY, es);
    forall p: nat
      ensures s.cached == Some(p) <==> ParseEnds(p, true) in es
      ensures p < |s.parses| ==>
        (s.parses[p].status.WorkDone? || s.parses[p].status.Fulfilled? <==> ParseEnds(p, true) in es)
      ensures p < |s.parses| && (s.parses[p].status.WorkFailed? || s.parses[p].status.Rejected?) ==>
        ParseEnds(p, false) in es || DownloadEnds(s.parses[p].waitsFor, false) in es
    {
      assert ParseExplained(s, es, p);
    }
    forall d: nat | d < |s.downloads|
      ensures s.downloads[d].WorkDone? || s.downloads[d].Fulfilled? <==> DownloadEnds(d, true) in es
      ensures s.downloads[d].WorkFailed? || s.downloads[d].Rejected? <==> DownloadEnds(d, false) in es
    {
      assert DownloadExplained(s, es, d);
    }
  }

  /** The next caller gets ranks exactly if some parse has ended well, and then that parse's. */
  lemma CallerGetsRanksIffParsed(es: seq<Event>)
    requires ValidRun(EMPTY, es)
    ensures forall p: nat :: Ranked(After(EMPTY, es)).1 == Ranks(p) <==> ParseEnds(p, true) in es
  {
    RunIsExplained(es);
    var s := After(EMPTY, es);
    forall p: nat ensures Ranked(s).1 == Ranks(p) <==> ParseEnds(p, true) in es {
      assert ParseExplained(s, es, p);
    }
  }
}
