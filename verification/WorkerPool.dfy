/**
 The worker pool of backend/scan/ports.js: min(concurrency, n) cooperative workers share one
 claim counter, call an asynchronous function once per item, and write each value into its slot.

 A worker is suspended either on a call that has not settled (Awaiting) or on a settled call whose
 continuation has not run yet (Ready). Everything between two suspensions is one atomic step.
 */
module WorkerPool {
  import opened Basics

  datatype Worker<+R> =
    | Awaiting(task: nat)
    | Ready(task: nat, outcome: Outcome<R>)
    | Finished              // left the loop: nothing was left to claim
    | Failed(task: nat)     // the call it awaited rejected
    | Stopped               // the abort check at the loop head threw

  /** `calls` and `settled` are the history: which calls were made, and what each settled with. */
  datatype Pool<+R> = Pool(
    size: nat,
    index: nat,
    results: seq<Option<R>>,
    workers: seq<Worker<R>>,
    aborted: bool,
    calls: seq<nat>,
    settled: map<nat, Outcome<R>>)

  /** Abort carries the in-flight calls that listen to the signal and reject when it fires. */
  datatype Event<+R> =
    | Settle(worker: nat, outcome: Outcome<R>)
    | Resume(worker: nat)
    | Abort(heard: set<nat>)

  datatype Verdict = Pending | Fulfilled | Rejects

  predicate Holds<R>(w: Worker<R>) { w.Awaiting? || w.Ready? || w.Failed? }

  predicate Active<R>(w: Worker<R>) { w.Awaiting? || w.Ready? }

  predicate Fails<R>(w: Worker<R>) { w.Failed? || w.Stopped? }

  predicate IsAwaiting<R>(w: Worker<R>) { w.Awaiting? }

  predicate IsReady<R>(w: Worker<R>) { w.Ready? }

  predicate Stored<R>(r: Option<R>) { r.Some? }

  /** The loop head: leave, throw, or claim the next index and call. */
  function LoopHead<R>(s: Pool<R>, w: nat): Pool<R>
    requires w < |s.workers|
  {
    if s.index >= s.size then
      s.(workers := s.workers[w := Finished])
    else if s.aborted then
      s.(workers := s.workers[w := Stopped])
    else
      s.(workers := s.workers[w := Awaiting(s.index)], index := s.index + 1, calls := s.calls + [s.index])
  }

  function Interrupt<R>(w: Worker<R>, heard: set<nat>): Worker<R> {
    if w.Awaiting? && w.task in heard then Ready(w.task, Rejected) else w
  }

  predicate Enabled<R>(s: Pool<R>, e: Event<R>) {
    match e
    case Settle(w, _) => w < |s.workers| && s.workers[w].Awaiting?
    case Resume(w) => w < |s.workers| && s.workers[w].Ready? && s.workers[w].task < |s.results|
    case Abort(heard) => !s.aborted
  }

  function Step<R>(s: Pool<R>, e: Event<R>): Pool<R>
    requires Enabled(s, e)
  {
    match e
    case Settle(w, o) =>
      var i := s.workers[w].task;
      s.(workers := s.workers[w := Ready(i, o)], settled := s.settled[i := o])
    case Resume(w) =>
      var i := s.workers[w].task;
      if s.workers[w].outcome.Resolved? then
        LoopHead(s.(results := s.results[i := Some(s.workers[w].outcome.value)]), w)
      else
        s.(workers := s.workers[w := Failed(i)])
    case Abort(heard) =>
      var interrupted := set w | 0 <= w < |s.workers| && s.workers[w].Awaiting? && s.workers[w].task in heard
                           :: s.workers[w].task;
      s.(aborted := true,
         workers := seq(|s.workers|, w requires 0 <= w < |s.workers| => Interrupt(s.workers[w], heard)),
         settled := s.settled + map i | i in interrupted :: Rejected)
  }

  /** The pool right after its workers have been created and have run to their first suspension. */
  function Launched<R>(n: nat, width: nat, aborted: bool): Pool<R> {
    var k := Min(width, n);
    if aborted then
      Pool(n, 0, seq(n, _ => None), seq(k, _ => Stopped), true, [], map[])
    else
      Pool(n, k, seq(n, _ => None), seq(k, w requires 0 <= w < k => Awaiting(w)), false, UpTo(k), map[])
  }

  predicate ValidRun<R>(s: Pool<R>, es: seq<Event<R>>)
    decreases |es|
  {
    es == [] || (Enabled(s, es[0]) && ValidRun(Step(s, es[0]), es[1..]))
  }

  function After<R>(s: Pool<R>, es: seq<Event<R>>): Pool<R>
    requires ValidRun(s, es)
    decreases |es|
  {
    if es == [] then s else After(Step(s, es[0]), es[1..])
  }

  /** How the promise over all workers stands. */
  function Settlement<R>(s: Pool<R>): Verdict {
    if exists w | 0 <= w < |s.workers| :: Fails(s.workers[w]) then Rejects
    else if forall w | 0 <= w < |s.workers| :: s.workers[w].Finished? then Fulfilled
    else Pending
  }

  predicate Quiescent<R>(s: Pool<R>) {
    forall w | 0 <= w < |s.workers| :: !Active(s.workers[w])
  }

  // ---------------------------------------------------------------- invariant

  ghost predicate WorkerOk<R(!new)>(s: Pool<R>, w: nat)
    requires w < |s.workers| && s.index <= s.size == |s.results|
  {
    match s.workers[w]
    case Awaiting(i) => i < s.index && s.results[i].None? && i !in s.settled
    case Ready(i, o) => i < s.index && s.results[i].None? && i in s.settled && s.settled[i] == o
    case Failed(i) => i < s.index && s.results[i].None? && i in s.settled && s.settled[i].Rejected?
    case Finished => s.index == s.size
    case Stopped => s.aborted && s.index < s.size
  }

  ghost predicate Unsettled<R(!new)>(s: Pool<R>, i: nat) {
    exists w | 0 <= w < |s.workers| :: s.workers[w] == Awaiting(i)
  }

  ghost predicate Shape<R>(s: Pool<R>, width: nat) {
    && |s.results| == s.size
    && |s.workers| == Min(width, s.size)
    && s.index <= s.size
    && (s.index >= |s.workers| || s.aborted)
    && s.calls == UpTo(s.index)
  }

  ghost predicate WorkersOk<R(!new)>(s: Pool<R>)
    requires s.index <= s.size == |s.results|
  {
    forall w | 0 <= w < |s.workers| :: WorkerOk(s, w)
  }

  ghost predicate OwnTasks<R>(s: Pool<R>) {
    forall v, w | 0 <= v < w < |s.workers| && Holds(s.workers[v]) && Holds(s.workers[w]) ::
      s.workers[v].task != s.workers[w].task
  }

  ghost predicate SlotsOk<R(!new)>(s: Pool<R>)
    requires |s.results| == s.size
  {
    forall i | 0 <= i < s.size && s.results[i].Some? ::
      i < s.index && i in s.settled && s.settled[i] == Resolved(s.results[i].value)
  }

  ghost predicate HistoryOk<R(!new)>(s: Pool<R>) {
    && (forall i | i in s.settled :: i < s.index)
    && (forall i | 0 <= i < s.index && i !in s.settled :: Unsettled(s, i))
  }

  ghost predicate Inv<R(!new)>(s: Pool<R>, width: nat) {
    && Shape(s, width)
    && WorkersOk(s)
    && OwnTasks(s)
    && SlotsOk(s)
    && HistoryOk(s)
    // every claimed index is either stored or held by a worker
    && Count(s.results, Stored<R>) + Count(s.workers, Holds<R>) == s.index
  }

  lemma InvLaunched<R(!new)>(n: nat, width: nat, aborted: bool)
    ensures Inv(Launched<R>(n, width, aborted), width)
  {
    var s := Launched<R>(n, width, aborted);
    CountExtremes(s.results, Stored<R>);
    CountExtremes(s.workers, Holds<R>);
    forall i | 0 <= i < s.index ensures Unsettled(s, i) {
      assert s.workers[i] == Awaiting(i);
    }
  }

  lemma InvSettle<R(!new)>(s: Pool<R>, width: nat, w: nat, o: Outcome<R>)
    requires Inv(s, width) && Enabled(s, Settle(w, o))
    ensures Inv(Step(s, Settle(w, o)), width)
  {
    var t := Step(s, Settle(w, o));
    CountUpdate(s.workers, w, t.workers[w], Holds<R>);
    assert WorkerOk(s, w);
    forall v | 0 <= v < |t.workers| ensures WorkerOk(t, v) {
      assert WorkerOk(s, v);
    }
    forall i | 0 <= i < t.index && i !in t.settled ensures Unsettled(t, i) {
      var v :| 0 <= v < |s.workers| && s.workers[v] == Awaiting(i);
      assert t.workers[v] == Awaiting(i);
    }
  }

  lemma ResumeKeepsWorkers<R(!new)>(s: Pool<R>, width: nat, w: nat)
    requires Inv(s, width) && Enabled(s, Resume(w))
    ensures Shape(Step(s, Resume(w)), width) && WorkersOk(Step(s, Resume(w)))
  {
    var t := Step(s, Resume(w));
    assert WorkerOk(s, w);
    forall v | 0 <= v < |t.workers| ensures WorkerOk(t, v) {
      assert WorkerOk(s, v);
    }
  }

  lemma ResumeKeepsTasks<R(!new)>(s: Pool<R>, width: nat, w: nat)
    requires Inv(s, width) && Enabled(s, Resume(w))
    ensures OwnTasks(Step(s, Resume(w)))
  {
    var t := Step(s, Resume(w));
    forall v | 0 <= v < |t.workers| && v != w && Holds(t.workers[v]) && Holds(t.workers[w])
      ensures t.workers[v].task != t.workers[w].task
    {
      assert WorkerOk(s, v) && WorkerOk(s, w);
    }
  }

  lemma ResumeKeepsSlots<R(!new)>(s: Pool<R>, width: nat, w: nat)
    requires Inv(s, width) && Enabled(s, Resume(w))
    ensures SlotsOk(Step(s, Resume(w))) && HistoryOk(Step(s, Resume(w)))
  {
    var t := Step(s, Resume(w));
    assert WorkerOk(s, w);
    forall i | 0 <= i < t.index && i !in t.settled ensures Unsettled(t, i) {
      ResumeKeepsUnsettled(s, width, w, i);
    }
  }

  lemma ResumeKeepsCounts<R(!new)>(s: Pool<R>, width: nat, w: nat)
    requires Inv(s, width) && Enabled(s, Resume(w))
    ensures var t := Step(s, Resume(w));
      Count(t.results, Stored<R>) + Count(t.workers, Holds<R>) == t.index
  {
    var t := Step(s, Resume(w));
    var i := s.workers[w].task;
    assert WorkerOk(s, w);
    CountUpdate(s.workers, w, t.workers[w], Holds<R>);
    if s.workers[w].outcome.Resolved? {
      CountUpdate(s.results, i, t.results[i], Stored<R>);
    }
  }

  lemma ResumeKeepsUnsettled<R(!new)>(s: Pool<R>, width: nat, w: nat, i: nat)
    requires Inv(s, width) && Enabled(s, Resume(w))
    requires i < Step(s, Resume(w)).index && i !in s.settled
    ensures Unsettled(Step(s, Resume(w)), i)
  {
    var t := Step(s, Resume(w));
    if i == s.index {
      assert t.workers[w] == Awaiting(i);
    } else {
      var v :| 0 <= v < |s.workers| && s.workers[v] == Awaiting(i);
      assert t.workers[v] == Awaiting(i);
    }
  }

  lemma InvResume<R(!new)>(s: Pool<R>, width: nat, w: nat)
    requires Inv(s, width) && Enabled(s, Resume(w))
    ensures Inv(Step(s, Resume(w)), width)
  {
    ResumeKeepsWorkers(s, width, w);
    ResumeKeepsTasks(s, width, w);
    ResumeKeepsSlots(s, width, w);
    ResumeKeepsCounts(s, width, w);
  }

  lemma AbortKeepsWorkers<R(!new)>(s: Pool<R>, width: nat, heard: set<nat>)
    requires Inv(s, width) && Enabled(s, Abort(heard))
    ensures Shape(Step(s, Abort(heard)), width) && WorkersOk(Step(s, Abort(heard)))
  {
    var t := Step(s, Abort(heard));
    forall v | 0 <= v < |t.workers| ensures WorkerOk(t, v) {
      assert WorkerOk(s, v);
    }
  }

  lemma AbortKeepsSlots<R(!new)>(s: Pool<R>, width: nat, heard: set<nat>)
    requires Inv(s, width) && Enabled(s, Abort(heard))
    ensures SlotsOk(Step(s, Abort(heard)))
  {
    var t := Step(s, Abort(heard));
    forall i | 0 <= i < t.size && t.results[i].Some?
      ensures t.settled[i] == s.settled[i]
    {
      forall v | 0 <= v < |s.workers| && s.workers[v].Awaiting? ensures s.workers[v].task != i {
        assert WorkerOk(s, v);
      }
    }
  }

  lemma AbortKeepsHistory<R(!new)>(s: Pool<R>, width: nat, heard: set<nat>)
    requires Inv(s, width) && Enabled(s, Abort(heard))
    ensures HistoryOk(Step(s, Abort(heard)))
  {
    var t := Step(s, Abort(heard));
    forall i | i in t.settled ensures i < t.index {
      if i !in s.settled {
        var v :| 0 <= v < |s.workers| && s.workers[v].Awaiting? && s.workers[v].task == i;
        assert WorkerOk(s, v);
      }
    }
    forall i | 0 <= i < t.index && i !in t.settled ensures Unsettled(t, i) {
      var v :| 0 <= v < |s.workers| && s.workers[v] == Awaiting(i);
      assert t.workers[v] == Awaiting(i);
    }
  }

  lemma InvAbort<R(!new)>(s: Pool<R>, width: nat, heard: set<nat>)
    requires Inv(s, width) && Enabled(s, Abort(heard))
    ensures Inv(Step(s, Abort(heard)), width)
  {
    AbortKeepsWorkers(s, width, heard);
    AbortKeepsSlots(s, width, heard);
    AbortKeepsHistory(s, width, heard);
    CountPointwise(s.workers, Step(s, Abort(heard)).workers, Holds<R>);
  }

  lemma InvStep<R(!new)>(s: Pool<R>, width: nat, e: Event<R>)
    requires Inv(s, width) && Enabled(s, e)
    ensures Inv(Step(s, e), width)
  {
    match e
    case Settle(w, o) => InvSettle(s, width, w, o);
    case Resume(w) => InvResume(s, width, w);
    case Abort(heard) => InvAbort(s, width, heard);
  }

  lemma {:induction false} InvRun<R(!new)>(s: Pool<R>, width: nat, es: seq<Event<R>>)
    requires Inv(s, width) && ValidRun(s, es)
    ensures Inv(After(s, es), width)
    decreases |es|
  {
    if es == [] {
    } else {
      InvStep(s, width, es[0]);
      InvRun(Step(s, es[0]), width, es[1..]);
    }
  }

  // ---------------------------------------------------------------- results

  /** Over every interleaving: calls are made once each, in index order, and a slot holds what its own call gave. */
  lemma EachIndexCalledOnceIntoItsSlot<R(!new)>(n: nat, width: nat, aborted: bool, es: seq<Event<R>>)
    requires ValidRun(Launched(n, width, aborted), es)
    ensures var s := After(Launched(n, width, aborted), es);
      && s.size == n == |s.results|
      && s.calls == UpTo(s.index) && s.index <= n
      && (forall i | i in s.settled :: i in s.calls)
      && (forall i | 0 <= i < n && s.results[i].Some? ::
            i in s.settled && s.settled[i] == Resolved(s.results[i].value))
  {
    InvLaunched<R>(n, width, aborted);
    InvRun(Launched(n, width, aborted), width, es);
    SizeFixed(Launched(n, width, aborted), es);
    var s := After(Launched(n, width, aborted), es);
    forall i | i in s.settled ensures i in s.calls {
      assert s.calls[i] == i;
    }
  }

  /** With a signal that has already fired nothing is called; the pool has rejected unless there was nothing to do. */
  lemma AbortedBeforeTheStart<R(!new)>(n: nat, width: nat, es: seq<Event<R>>)
    requires ValidRun(Launched(n, width, true), es)
    ensures es == [] && Launched<R>(n, width, true).calls == []
    ensures Settlement(Launched<R>(n, width, true)) == if n == 0 || width == 0 then Fulfilled else Rejects
  {
    var s := Launched<R>(n, width, true);
    if n > 0 && width > 0 {
      assert Fails(s.workers[0]);
    }
  }

  lemma {:induction false} SizeFixed<R(!new)>(s: Pool<R>, es: seq<Event<R>>)
    requires ValidRun(s, es)
    ensures After(s, es).size == s.size
    ensures |After(s, es).workers| == |s.workers|
    decreases |es|
  {
    if es == [] {
    } else {
      SizeFixed(Step(s, es[0]), es[1..]);
    }
  }

  lemma FulfilledHasAll<R(!new)>(s: Pool<R>, width: nat)
    requires Inv(s, width) && width > 0 && Settlement(s) == Fulfilled
    ensures s.index == s.size
    ensures forall i | 0 <= i < s.size :: s.results[i].Some?
  {
    CountExtremes(s.workers, Holds<R>);
    CountExtremes(s.results, Stored<R>);
    if s.size > 0 {
      assert WorkerOk(s, 0);
    }
  }

  /** A fulfilled pool has called every index and its result array is the sequential map. */
  lemma FulfilledIsMap<R(!new)>(s: Pool<R>, width: nat, values: seq<R>)
    requires Inv(s, width) && width > 0
    requires Settlement(s) == Fulfilled
    requires |values| == s.size
    requires forall i | i in s.settled && s.settled[i].Resolved? && i < s.size :: s.settled[i].value == values[i]
    ensures s.calls == UpTo(s.size)
    ensures s.results == seq(s.size, i requires 0 <= i < s.size => Some(values[i]))
  {
    FulfilledHasAll(s, width);
  }

  /** While nothing has failed, exactly min(width, items not yet stored) calls are in flight. */
  lemma WorkConserving<R(!new)>(s: Pool<R>, width: nat)
    requires Inv(s, width)
    requires forall w | 0 <= w < |s.workers| :: !Fails(s.workers[w])
    ensures Count(s.results, Stored<R>) <= s.size
    ensures Count(s.workers, Active<R>) == Min(width, s.size - Count(s.results, Stored<R>))
  {
    CountExtremes(s.results, Stored<R>);
    CountPointwise(s.workers, s.workers, Holds<R>);
    HoldsIsActive(s.workers);
    CountExtremes(s.workers, Active<R>);
    if w :| 0 <= w < |s.workers| && s.workers[w].Finished? {
      assert WorkerOk(s, w);
    } else {
      assert forall w | 0 <= w < |s.workers| :: Active(s.workers[w]);
    }
  }

  lemma {:induction false} HoldsIsActive<R(!new)>(ws: seq<Worker<R>>)
    requires forall w | 0 <= w < |ws| :: !Fails(ws[w])
    ensures Count(ws, Holds<R>) == Count(ws, Active<R>)
  {
    if ws == [] {
    } else {
      assert !Fails(ws[0]);
      HoldsIsActive(ws[1..]);
    }
  }

  // ---------------------------------------------------------------- termination

  function Work<R>(s: Pool<R>): int {
    2 * (s.size - s.index) + 2 * Count(s.workers, IsAwaiting<R>) + Count(s.workers, IsReady<R>)
  }

  lemma StepDoesWork<R(!new)>(s: Pool<R>, width: nat, e: Event<R>)
    requires Inv(s, width) && Enabled(s, e)
    ensures !e.Abort? ==> Work(Step(s, e)) < Work(s)
    ensures e.Abort? ==> Work(Step(s, e)) <= Work(s) && Step(s, e).aborted
    ensures s.aborted ==> Step(s, e).aborted
  {
    var t := Step(s, e);
    if e.Abort? {
      InterruptedWork(s.workers, t.workers, e.heard);
    } else {
      CountUpdate(s.workers, e.worker, t.workers[e.worker], IsAwaiting<R>);
      CountUpdate(s.workers, e.worker, t.workers[e.worker], IsReady<R>);
    }
  }

  lemma {:induction false} InterruptedWork<R(!new)>(ws: seq<Worker<R>>, us: seq<Worker<R>>, heard: set<nat>)
    requires |us| == |ws| && forall w | 0 <= w < |ws| :: us[w] == Interrupt(ws[w], heard)
    ensures 2 * Count(us, IsAwaiting<R>) + Count(us, IsReady<R>) <= 2 * Count(ws, IsAwaiting<R>) + Count(ws, IsReady<R>)
  {
    if ws == [] {
    } else {
      assert us[0] == Interrupt(ws[0], heard);
      InterruptedWork(ws[1..], us[1..], heard);
    }
  }

  lemma {:induction false} RunLength<R(!new)>(s: Pool<R>, width: nat, es: seq<Event<R>>)
    requires Inv(s, width) && ValidRun(s, es)
    ensures |es| <= Work(s) + (if s.aborted then 0 else 1)
    decreases |es|
  {
    if es == [] {
    } else {
      StepDoesWork(s, width, es[0]);
      InvStep(s, width, es[0]);
      RunLength(Step(s, es[0]), width, es[1..]);
    }
  }

  /** Every run is finite: two events an item, and one abort. */
  lemma PoolTerminates<R(!new)>(n: nat, width: nat, aborted: bool, es: seq<Event<R>>)
    requires ValidRun(Launched(n, width, aborted), es)
    ensures |es| <= 2 * n + 1
  {
    var s := Launched<R>(n, width, aborted);
    InvLaunched<R>(n, width, aborted);
    CountExtremes(s.workers, IsAwaiting<R>);
    CountExtremes(s.workers, IsReady<R>);
    RunLength(s, width, es);
  }

  /** The pool only rests once it has settled; until then some worker can move. */
  lemma RestsOnlyWhenSettled<R(!new)>(s: Pool<R>, width: nat)
    requires Inv(s, width)
    ensures Settlement(s) == Pending ==>
      exists w: nat :: Enabled(s, Settle(w, Rejected)) || Enabled(s, Resume(w))
    ensures Quiescent(s) ==> Settlement(s) != Pending
    ensures Settlement(s) == Fulfilled ==> Quiescent(s)
  {
    if Settlement(s) == Pending {
      var w :| 0 <= w < |s.workers| && !s.workers[w].Finished?;
      assert WorkerOk(s, w) && !Fails(s.workers[w]);
      assert Enabled(s, Settle(w, Rejected)) || Enabled(s, Resume(w));
    }
  }

  /** The promise over the workers never changes its mind, and a fulfilled result array is never written again. */
  lemma SettlementIsFinal<R(!new)>(s: Pool<R>, width: nat, e: Event<R>)
    requires Inv(s, width) && Enabled(s, e)
    requires Settlement(s) != Pending
    ensures Settlement(Step(s, e)) == Settlement(s)
    ensures Settlement(s) == Fulfilled ==> Step(s, e).results == s.results
  {
    var t := Step(s, e);
    if Settlement(s) == Rejects {
      var w :| 0 <= w < |s.workers| && Fails(s.workers[w]);
      assert Fails(t.workers[w]);
    } else {
      assert forall w | 0 <= w < |s.workers| :: s.workers[w].Finished?;
      assert forall w | 0 <= w < |t.workers| :: t.workers[w].Finished?;
    }
  }

  // ---------------------------------------------------------------- abort

  /** A worker that has failed, or will on its next turn. */
  predicate Doomed<R>(w: Worker<R>) {
    w.Failed? || (w.Ready? && w.outcome.Rejected?)
  }

  /** After the abort the claim counter and the calls never move again, and no rejection is forgotten. */
  lemma {:induction false} AbortFreezesClaims<R(!new)>(s: Pool<R>, es: seq<Event<R>>)
    requires ValidRun(s, es) && s.aborted
    ensures After(s, es).index == s.index
    ensures After(s, es).calls == s.calls
    ensures forall w | 0 <= w < |s.workers| && Doomed(s.workers[w]) ::
      w < |After(s, es).workers| && Doomed(After(s, es).workers[w])
    decreases |es|
  {
    if es == [] {
    } else {
      var t := Step(s, es[0]);
      assert forall w | 0 <= w < |s.workers| && Doomed(s.workers[w]) ::
        Doomed(t.workers[w]);
      AbortFreezesClaims(t, es[1..]);
    }
  }

  /**
   After an abort nothing more is ever called. Once the pool has drained it has either rejected or
   had already called every index; if every pending call hears the signal, it has either rejected or
   every call had already settled when the abort came.
   */
  lemma AbortRejectsOrCameTooLate<R(!new)>(s: Pool<R>, width: nat, heard: set<nat>, es: seq<Event<R>>)
    requires Inv(s, width) && width > 0 && Enabled(s, Abort(heard))
    requires ValidRun(Step(s, Abort(heard)), es)
    ensures After(Step(s, Abort(heard)), es).calls == s.calls
    ensures var t := After(Step(s, Abort(heard)), es);
      Quiescent(t) ==> Settlement(t) == Rejects || s.calls == UpTo(s.size)
    ensures var t := After(Step(s, Abort(heard)), es);
      (forall w | 0 <= w < |s.workers| && s.workers[w].Awaiting? :: s.workers[w].task in heard) && Quiescent(t) ==>
        Settlement(t) == Rejects || forall i | 0 <= i < s.size :: i in s.settled
  {
    var a := Step(s, Abort(heard));
    var t := After(a, es);
    AbortFreezesClaims(a, es);
    InvStep(s, width, Abort(heard));
    InvRun(a, width, es);
    SizeFixed(a, es);
    if Quiescent(t) && Settlement(t) != Rejects {
      if s.size > 0 {
        assert WorkerOk(t, 0);
      }
      if forall w | 0 <= w < |s.workers| && s.workers[w].Awaiting? :: s.workers[w].task in heard {
        forall w | 0 <= w < |s.workers| ensures !s.workers[w].Awaiting? {
          assert s.workers[w].Awaiting? ==> a.workers[w] == Ready(s.workers[w].task, Rejected);
          assert !Fails(t.workers[w]) && !Active(t.workers[w]);
        }
        assert forall i | 0 <= i < s.size && i !in s.settled :: Unsettled(s, i);
      }
    }
  }

  /**
   When every pending call hears the signal and nothing has failed before it, the drained pool has
   fulfilled exactly if every call had already settled when the abort came, and otherwise rejects.
   */
  lemma AbortOutcome<R(!new)>(s: Pool<R>, width: nat, heard: set<nat>, es: seq<Event<R>>)
    requires Inv(s, width) && width > 0 && Enabled(s, Abort(heard))
    requires forall w | 0 <= w < |s.workers| && s.workers[w].Awaiting? :: s.workers[w].task in heard
    requires forall i | i in s.settled :: s.settled[i].Resolved?
    requires ValidRun(Step(s, Abort(heard)), es) && Quiescent(After(Step(s, Abort(heard)), es))
    ensures var verdict := Settlement(After(Step(s, Abort(heard)), es));
      && (verdict == Fulfilled <==> forall i | 0 <= i < s.size :: i in s.settled)
      && (verdict == Fulfilled || verdict == Rejects)
  {
    var a := Step(s, Abort(heard));
    var t := After(a, es);
    AbortRejectsOrCameTooLate(s, width, heard, es);
    InvStep(s, width, Abort(heard));
    InvRun(a, width, es);
    RestsOnlyWhenSettled(t, width);
    if forall i | 0 <= i < s.size :: i in s.settled {
      AbortFreezesClaims(a, es);
      SizeFixed(a, es);
      AllClaimed(s, width);
      NothingLeftToInterrupt(s, width, heard);
      SettledStays(a, es);
      forall w | 0 <= w < |t.workers| ensures t.workers[w].Finished? {
        assert WorkerOk(t, w);
      }
    }
  }

  lemma AllClaimed<R(!new)>(s: Pool<R>, width: nat)
    requires Inv(s, width) && forall i | 0 <= i < s.size :: i in s.settled
    ensures s.index == s.size
  {
    if s.size > 0 {
      var last: nat := s.size - 1;
      assert last in s.settled;
    }
  }

  lemma NothingLeftToInterrupt<R(!new)>(s: Pool<R>, width: nat, heard: set<nat>)
    requires Inv(s, width) && Enabled(s, Abort(heard))
    requires forall i | 0 <= i < s.size :: i in s.settled
    ensures Step(s, Abort(heard)).workers == s.workers
    ensures Step(s, Abort(heard)).settled == s.settled
  {
    forall w | 0 <= w < |s.workers| ensures !s.workers[w].Awaiting? {
      assert WorkerOk(s, w);
    }
  }

  /** With no call pending, the history is complete: nothing settles any more. */
  lemma {:induction false} SettledStays<R(!new)>(s: Pool<R>, es: seq<Event<R>>)
    requires ValidRun(s, es) && s.aborted
    requires forall w | 0 <= w < |s.workers| :: !s.workers[w].Awaiting?
    ensures After(s, es).settled == s.settled
    ensures forall w | 0 <= w < |After(s, es).workers| :: !After(s, es).workers[w].Awaiting?
    decreases |es|
  {
    if es == [] {
    } else {
      SettledStays(Step(s, es[0]), es[1..]);
    }
  }
}
