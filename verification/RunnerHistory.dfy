/** What a module run reports, in terms of what happened to it: the events of the run are the only witness. */
module RunnerHistory {
  import opened Basics
  import opened ModuleRunner

  function Elapsed<D>(past: seq<Event<D>>): int {
    if past == [] then 0
    else
      var last := past[|past| - 1];
      Elapsed(past[..|past| - 1]) + (if last.Passes? then last.ms else 0)
  }

  /** An event settles the handler with an outcome, of its own accord or on hearing the abort. */
  predicate SettlesWith<D(==)>(e: Event<D>, outcome: Settlement<D>) {
    || (e.HandlerSettles? && e.outcome == outcome)
    || (e.TimerFires? && e.reaction.Some? && e.reaction.value.0 == outcome)
  }

  ghost predicate HandlerDid<D>(past: seq<Event<D>>, outcome: Settlement<D>) {
    exists e | e in past :: SettlesWith(e, outcome)
  }

  ghost predicate TimerDid<D>(past: seq<Event<D>>) {
    exists e | e in past :: e.TimerFires?
  }

  ghost predicate SlotAt<D>(past: seq<Event<D>>, k: nat) {
    k < |past| && past[k].SlotAcquired?
  }

  /** The state tells what has happened, and no more. */
  ghost predicate Explained<D(!new)>(r: Run<D>, start: int, past: seq<Event<D>>) {
    && r.now == start + Elapsed(past)
    && (r.acquiredAt.None? ==> forall k: nat :: !SlotAt(past, k))
    && (r.acquiredAt.Some? ==> exists k: nat :: SlotAt(past, k) && r.acquiredAt.value == start + Elapsed(past[..k]))
    && (forall outcome :: r.handler == Some(outcome) <==> HandlerDid(past, outcome))
    && (r.timer.Fired? <==> TimerDid(past))
  }

  lemma ElapsedSnoc<D>(past: seq<Event<D>>, e: Event<D>)
    ensures Elapsed(past + [e]) == Elapsed(past) + (if e.Passes? then e.ms else 0)
  {
    assert (past + [e])[..|past|] == past;
  }

  lemma HandlerDidSnoc<D>(past: seq<Event<D>>, e: Event<D>, outcome: Settlement<D>)
    ensures HandlerDid(past + [e], outcome) <==> HandlerDid(past, outcome) || SettlesWith(e, outcome)
  {
    if HandlerDid(past, outcome) {
      var f :| f in past && SettlesWith(f, outcome);
      assert f in past + [e];
    }
    assert e in past + [e];
  }

  lemma TimerDidSnoc<D>(past: seq<Event<D>>, e: Event<D>)
    ensures TimerDid(past + [e]) <==> TimerDid(past) || e.TimerFires?
  {
    if TimerDid(past) {
      var f :| f in past && f.TimerFires?;
      assert f in past + [e];
    }
    assert e in past + [e];
  }

  lemma SlotStep<D(!new)>(r: Run<D>, start: int, past: seq<Event<D>>, e: Event<D>)
    requires Explained(r, start, past) && Enabled(r, e)
    ensures var s, all := Step(r, e), past + [e];
      && (s.acquiredAt.None? ==> forall k: nat :: !SlotAt(all, k))
      && (s.acquiredAt.Some? ==> exists k: nat :: SlotAt(all, k) && s.acquiredAt.value == start + Elapsed(all[..k]))
  {
    var s, all := Step(r, e), past + [e];
    assert all[..|past|] == past;
    if e.SlotAcquired? {
      assert SlotAt(all, |past|);
    } else if r.acquiredAt.Some? {
      var k: nat :| SlotAt(past, k) && r.acquiredAt.value == start + Elapsed(past[..k]);
      assert SlotAt(all, k) && all[..k] == past[..k];
    } else {
      forall k: nat ensures !SlotAt(all, k) {
        assert !SlotAt(past, k);
      }
    }
  }

  lemma HandlerStep<D(!new)>(r: Run<D>, start: int, past: seq<Event<D>>, e: Event<D>)
    requires Explained(r, start, past) && Enabled(r, e)
    ensures forall outcome :: Step(r, e).handler == Some(outcome) <==> HandlerDid(past + [e], outcome)
  {
    forall outcome ensures Step(r, e).handler == Some(outcome) <==> HandlerDid(past + [e], outcome) {
      HandlerDidSnoc(past, e, outcome);
      assert r.handler == Some(outcome) <==> HandlerDid(past, outcome);
    }
  }

  lemma ExplainedStep<D(!new)>(r: Run<D>, start: int, past: seq<Event<D>>, e: Event<D>)
    requires Explained(r, start, past) && Enabled(r, e)
    ensures Explained(Step(r, e), start, past + [e])
  {
    ElapsedSnoc(past, e);
    TimerDidSnoc(past, e);
    SlotStep(r, start, past, e);
    HandlerStep(r, start, past, e);
  }

  lemma {:induction false} ExplainedRun<D(!new)>(r: Run<D>, start: int, past: seq<Event<D>>, es: seq<Event<D>>)
    requires Explained(r, start, past) && ValidRun(r, es)
    ensures Explained(After(r, es), start, past + es)
    decreases |es|
  {
    if es == [] {
      assert past + es == past;
    } else {
      ExplainedStep(r, start, past, es[0]);
      ExplainedRun(Step(r, es[0]), start, past + [es[0]], es[1..]);
      assert past + [es[0]] + es[1..] == past + es;
    }
  }

  /** From the start, every state is explained by the events so far. */
  lemma RunIsExplained<D(!new)>(timeoutMs: nat, start: int, es: seq<Event<D>>)
    requires ValidRun(Started(timeoutMs, start), es)
    ensures Explained(After(Started(timeoutMs, start), es), start, es)
  {
    assert [] + es == es;
    ExplainedRun(Started(timeoutMs, start), start, [], es);
  }

  /**
   What a run reports. If the timer fired: a timeout. If it did not and the handler returned: its
   data. If the handler threw: a timeout if the error reads as one, and otherwise a failure.
   */
  lemma EnvelopeTellsWhatHappened<D(!new)>(timeoutMs: nat, start: int, es: seq<Event<D>>)
    requires ValidRun(Started(timeoutMs, start), es)
    ensures var envelopes := After(Started(timeoutMs, start), es).envelopes;
      envelopes != [] ==>
        && (TimerDid(es) ==> envelopes == [TimedOut])
        && (!TimerDid(es) ==>
              && (forall data :: HandlerDid(es, Returned(data)) ==> envelopes == [FromResult(data)])
              && (HandlerDid(es, Threw(true)) ==> envelopes == [TimedOut])
              && (HandlerDid(es, Threw(false)) ==> envelopes == [Failure])
              && exists outcome :: HandlerDid(es, outcome))
  {
    RunIsExplained(timeoutMs, start, es);
    FiredTimerWins(timeoutMs, start, es);
    var r := After(Started(timeoutMs, start), es);
    if r.envelopes != [] && !TimerDid(es) {
      assert HandlerDid(es, r.handler.value);
    }
  }

  /** The timer fires timeoutMs after the slot was acquired, or later, by the clock of the run. */
  lemma TimerFiresAfterTheSlot<D(!new)>(timeoutMs: nat, start: int, es: seq<Event<D>>, k: nat, m: nat)
    requires ValidRun(Started(timeoutMs, start), es) && SlotAt(es, k)
    requires m < |es| && es[m].TimerFires?
    ensures k < m && Elapsed(es[..m]) - Elapsed(es[..k]) >= timeoutMs
  {
    FiresWhenDue(timeoutMs, start, es, m);
    var r := After(Started(timeoutMs, start), es[..m]);
    RunIsExplained(timeoutMs, start, es[..m]);
    var j: nat :| SlotAt(es[..m], j) && r.acquiredAt.value == start + Elapsed(es[..m][..j]);
    assert es[..m][..j] == es[..j];
    OneSlot(timeoutMs, start, es, j, k);
  }

  lemma {:induction false} PrefixIsRun<D(!new)>(r: Run<D>, es: seq<Event<D>>, m: nat)
    requires ValidRun(r, es) && m < |es|
    ensures ValidRun(r, es[..m]) && Enabled(After(r, es[..m]), es[m])
    decreases |es|
  {
    if m == 0 {
    } else {
      PrefixIsRun(Step(r, es[0]), es[1..], m - 1);
      assert es[..m][1..] == es[1..][..m - 1];
    }
  }

  lemma FiresWhenDue<D(!new)>(timeoutMs: nat, start: int, es: seq<Event<D>>, m: nat)
    requires ValidRun(Started(timeoutMs, start), es) && m < |es| && es[m].TimerFires?
    ensures ValidRun(Started(timeoutMs, start), es[..m])
    ensures var r := After(Started(timeoutMs, start), es[..m]);
      r.acquiredAt.Some? && r.now >= r.acquiredAt.value + timeoutMs
  {
    PrefixIsRun(Started(timeoutMs, start), es, m);
    InvStarted<D>(timeoutMs, start);
    InvRun(Started(timeoutMs, start), es[..m]);
    TimeoutFixed(Started(timeoutMs, start), es[..m]);
  }

  /** The slot is acquired once. */
  lemma OneSlot<D(!new)>(timeoutMs: nat, start: int, es: seq<Event<D>>, j: nat, k: nat)
    requires ValidRun(Started(timeoutMs, start), es) && SlotAt(es, j) && SlotAt(es, k)
    ensures j == k
  {
    if j != k {
      var first, second := if j < k then j else k, if j < k then k else j;
      PrefixIsRun(Started(timeoutMs, start), es, second);
      RunIsExplained(timeoutMs, start, es[..second]);
      assert SlotAt(es[..second], first);
    }
  }
}
