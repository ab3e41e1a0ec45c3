/** `mapWithConcurrency` in its own form: a shared counter, a result array written in place, and callbacks. */
module PoolRun {
  import opened Basics
  import opened WorkerPool

  class Run<R> {
    const size: nat
    const width: nat
    var index: nat
    const results: array<Option<R>>
    var workers: seq<Worker<R>>
    var aborted: bool
    ghost var calls: seq<nat>
    ghost var settled: map<nat, Outcome<R>>

    ghost function State(): Pool<R>
      reads this, results
    {
      Pool(size, index, results[..], workers, aborted, calls, settled)
    }

    /** Array.from over the workers: each runs to its first suspension before the next one starts. */
    constructor (n: nat, concurrency: nat, alreadyAborted: bool)
      ensures State() == Launched(n, concurrency, alreadyAborted)
      ensures width == concurrency && fresh(results)
    {
      size := n;
      width := concurrency;
      index := 0;
      results := new Option<R>[n](_ => None);
      workers := [];
      aborted := alreadyAborted;
      calls := [];
      settled := map[];
      new;
      var k := Min(concurrency, n);
      for w := 0 to k
        invariant workers == seq(w, v requires 0 <= v < w => if alreadyAborted then Stopped else Awaiting(v))
        invariant aborted == alreadyAborted
        invariant index == (if alreadyAborted then 0 else w)
        invariant calls == (if alreadyAborted then [] else UpTo(w))
        invariant settled == map[]
        invariant results[..] == seq(n, _ => None)
      {
        workers := workers + [Finished];
        Loop(w);
      }
    }

    /** One pass of the loop head, up to the next suspension or the end of the worker. */
    method Loop(w: nat)
      requires w < |workers|
      modifies this
      ensures State() == LoopHead(old(State()), w)
    {
      if index < size {
        if aborted {
          workers := workers[w := Stopped];
          return;
        }
        var currentIndex := index;
        index := index + 1;
        calls := calls + [currentIndex];
        workers := workers[w := Awaiting(currentIndex)];
      } else {
        workers := workers[w := Finished];
      }
    }

    /** The call a worker awaits settles; its continuation is queued. */
    method Settle(w: nat, outcome: Outcome<R>)
      requires Enabled(State(), Event.Settle(w, outcome))
      modifies this
      ensures State() == Step(old(State()), Event.Settle(w, outcome))
    {
      var task := workers[w].task;
      workers := workers[w := Ready(task, outcome)];
      settled := settled[task := outcome];
    }

    /** The continuation runs: store the value, or rethrow, then go round the loop. */
    method Resume(w: nat)
      requires Enabled(State(), Event.Resume(w))
      modifies this, results
      ensures State() == Step(old(State()), Event.Resume(w))
    {
      var task := workers[w].task;
      match workers[w].outcome {
        case Resolved(value) =>
          results[task] := Some(value);
          assert results[..] == old(results[..])[task := Some(value)];
          Loop(w);
        case Rejected =>
          workers := workers[w := Failed(task)];
      }
    }

    /** The signal fires: pending calls that listen to it reject at once. */
    method Abort(heard: set<nat>)
      requires Enabled(State(), Event.Abort(heard))
      modifies this
      ensures State() == Step(old(State()), Event.Abort(heard))
    {
      ghost var rejected := Step(State(), Event.Abort(heard)).settled;
      aborted := true;
      var before := workers;
      workers := seq(|before|, w requires 0 <= w < |before| => Interrupt(before[w], heard));
      settled := rejected;
    }
  }

  /** Every settled call settled the way fn says. */
  ghost predicate Faithful<R>(s: Pool<R>, outcomes: seq<Outcome<R>>) {
    forall i | i in s.settled && i < |outcomes| :: s.settled[i] == outcomes[i]
  }

  /** One scheduling choice for worker w: its call settles as fn says, or its continuation runs. */
  method Advance<T, R(!new)>(pool: Run<R>, items: seq<T>, fn: (T, nat) -> Outcome<R>, w: nat,
                             ghost outcomes: seq<Outcome<R>>)
    requires Inv(pool.State(), pool.width) && pool.size == |items| == |outcomes|
    requires forall i | 0 <= i < |items| :: outcomes[i] == fn(items[i], i)
    requires Faithful(pool.State(), outcomes) && !pool.aborted
    requires w < |pool.workers| && Active(pool.workers[w])
    modifies pool, pool.results
    ensures Inv(pool.State(), pool.width)
    ensures Faithful(pool.State(), outcomes) && !pool.aborted
    ensures Work(pool.State()) < old(Work(pool.State()))
    ensures |pool.workers| == old(|pool.workers|)
  {
    ghost var before := pool.State();
    assert WorkerOk(before, w);
    var worker := pool.workers[w];
    if worker.Awaiting? {
      var outcome := fn(items[worker.task], worker.task);
      InvStep(before, pool.width, Settle(w, outcome));
      StepDoesWork(before, pool.width, Settle(w, outcome));
      pool.Settle(w, outcome);
    } else {
      InvStep(before, pool.width, Resume(w));
      StepDoesWork(before, pool.width, Resume(w));
      pool.Resume(w);
    }
  }

  /** A drained pool has fulfilled exactly when every call of fn resolves, and has rejected otherwise. */
  lemma UnabortedQuietIsMap<R(!new)>(s: Pool<R>, width: nat, outcomes: seq<Outcome<R>>)
    requires Inv(s, width) && width > 0 && Faithful(s, outcomes) && |outcomes| == s.size && !s.aborted && Quiescent(s)
    ensures Settlement(s) == Fulfilled <==> forall i | 0 <= i < s.size :: outcomes[i].Resolved?
    ensures Settlement(s) == Fulfilled || Settlement(s) == Rejects
    ensures Settlement(s) == Fulfilled ==>
      forall i | 0 <= i < s.size :: s.results[i].Some? && outcomes[i] == Resolved(s.results[i].value)
  {
    forall w | 0 <= w < |s.workers|
      ensures s.workers[w].Finished?
           || (s.workers[w].Failed? && s.workers[w].task < s.size && outcomes[s.workers[w].task].Rejected?)
    {
      assert WorkerOk(s, w);
    }
    if Settlement(s) == Fulfilled {
      FulfilledHasAll(s, width);
    } else {
      var w :| 0 <= w < |s.workers| && s.workers[w].Failed?;
      assert outcomes[s.workers[w].task].Rejected?;
    }
  }

  /** Schedules until nothing is in flight, in any order. */
  method Drain<T, R(!new)>(pool: Run<R>, items: seq<T>, fn: (T, nat) -> Outcome<R>, ghost outcomes: seq<Outcome<R>>)
    requires Inv(pool.State(), pool.width) && pool.size == |items| == |outcomes|
    requires forall i | 0 <= i < |items| :: outcomes[i] == fn(items[i], i)
    requires Faithful(pool.State(), outcomes) && !pool.aborted
    modifies pool, pool.results
    ensures Inv(pool.State(), pool.width) && Quiescent(pool.State())
    ensures |pool.workers| == old(|pool.workers|)
    ensures |pool.workers| == 0 ==> pool.results[..] == old(pool.results[..])
    ensures Faithful(pool.State(), outcomes) && !pool.aborted
  {
    while exists w | 0 <= w < |pool.workers| :: Active(pool.workers[w])
      invariant Inv(pool.State(), pool.width)
      invariant Faithful(pool.State(), outcomes) && !pool.aborted
      invariant |pool.workers| == old(|pool.workers|)
      invariant |pool.workers| == 0 ==> pool.results[..] == old(pool.results[..])
      decreases Work(pool.State())
    {
      var w :| 0 <= w < |pool.workers| && Active(pool.workers[w]);
      Advance(pool, items, fn, w, outcomes);
    }
  }

  /**
   The whole call, under an arbitrary schedule: any pending call may settle next and any settled
   call may be resumed next. It rejects exactly when fn rejects some item, and otherwise gives the
   values in item order; which of the two, and the values, do not depend on the schedule. Without a
   worker it calls nothing and gives the array as it was created, with no slot filled.
   */
  method MapWithConcurrency<T, R(!new)>(items: seq<T>, fn: (T, nat) -> Outcome<R>, concurrency: nat)
      returns (mapped: Outcome<seq<Option<R>>>)
    ensures concurrency == 0 ==> mapped == Resolved(seq(|items|, _ => None))
    ensures concurrency > 0 ==> (mapped.Resolved? <==> forall i | 0 <= i < |items| :: fn(items[i], i).Resolved?)
    ensures concurrency > 0 && mapped.Resolved? ==> |mapped.value| == |items| && forall i | 0 <= i < |items| ::
      mapped.value[i].Some? && fn(items[i], i) == Resolved(mapped.value[i].value)
  {
    ghost var outcomes := seq(|items|, i requires 0 <= i < |items| => fn(items[i], i));
    var pool := new Run<R>(|items|, concurrency, false);
    InvLaunched<R>(|items|, concurrency, false);
    Drain(pool, items, fn, outcomes);
    if concurrency > 0 {
      UnabortedQuietIsMap(pool.State(), pool.width, outcomes);
    }
    if exists w | 0 <= w < |pool.workers| :: Fails(pool.workers[w]) {
      return Rejected;
    }
    mapped := Resolved(pool.results[..]);
  }
}
