/**
 Time in the worker pool. Continuations run as soon as their call settles, and no call is
 pending for longer than limit milliseconds. Nothing else is assumed about the schedule.
 */
module PoolTiming {
  import opened Basics
  import opened WorkerPool

  /** starts[i] is the time at which call i was made. */
  datatype Timed<+R> = Timed(pool: Pool<R>, now: nat, starts: seq<nat>)

  datatype Move<+R> =
    | Settles(worker: nat, value: R)
    | Resumes(worker: nat)
    | Tick(elapsed: nat)

  predicate InTime<R>(w: Worker<R>, starts: seq<nat>, now: nat, limit: nat) {
    Active(w) ==> w.task < |starts| && now <= starts[w.task] + limit
  }

  /** The clock waits for every queued continuation and for every call that is due. */
  predicate CanMove<R>(t: Timed<R>, m: Move<R>, limit: nat) {
    match m
    case Settles(w, v) => Enabled(t.pool, Settle(w, Resolved(v)))
    case Resumes(w) => Enabled(t.pool, Resume(w))
    case Tick(dt) =>
      forall w | 0 <= w < |t.pool.workers| ::
        !t.pool.workers[w].Ready? && InTime(t.pool.workers[w], t.starts, t.now + dt, limit)
  }

  function Timestamped<R>(t: Timed<R>, p: Pool<R>): Timed<R> {
    Timed(p, t.now, if p.index > t.pool.index then t.starts + [t.now] else t.starts)
  }

  function Moved<R>(t: Timed<R>, m: Move<R>, limit: nat): Timed<R>
    requires CanMove(t, m, limit)
  {
    match m
    case Settles(w, v) => Timestamped(t, Step(t.pool, Settle(w, Resolved(v))))
    case Resumes(w) => Timestamped(t, Step(t.pool, Resume(w)))
    case Tick(dt) => t.(now := t.now + dt)
  }

  function Start<R>(n: nat, width: nat): Timed<R> {
    Timed(Launched(n, width, false), 0, seq(Min(width, n), _ => 0))
  }

  predicate TimedRun<R>(t: Timed<R>, ms: seq<Move<R>>, limit: nat)
    decreases |ms|
  {
    ms == [] || (CanMove(t, ms[0], limit) && TimedRun(Moved(t, ms[0], limit), ms[1..], limit))
  }

  function TimedAfter<R>(t: Timed<R>, ms: seq<Move<R>>, limit: nat): Timed<R>
    requires TimedRun(t, ms, limit)
    decreases |ms|
  {
    if ms == [] then t else TimedAfter(Moved(t, ms[0], limit), ms[1..], limit)
  }

  // ---------------------------------------------------------------- invariant

  ghost predicate Punctual<R>(t: Timed<R>, limit: nat) {
    forall w | 0 <= w < |t.pool.workers| :: InTime(t.pool.workers[w], t.starts, t.now, limit)
  }

  ghost predicate NothingFails<R>(p: Pool<R>) {
    && !p.aborted
    && (forall w | 0 <= w < |p.workers| :: !Fails(p.workers[w]))
    && (forall w | 0 <= w < |p.workers| && p.workers[w].Ready? :: p.workers[w].outcome.Resolved?)
  }

  ghost predicate StartsBounded(starts: seq<nat>, width: nat, limit: nat)
    requires width > 0
  {
    forall i | 0 <= i < |starts| :: starts[i] <= i / width * limit
  }

  ghost predicate TimedInv<R(!new)>(t: Timed<R>, width: nat, limit: nat)
    requires width > 0
  {
    && Inv(t.pool, width)
    && NothingFails(t.pool)
    && |t.starts| == t.pool.index
    && (forall i, j | 0 <= i <= j < |t.starts| :: t.starts[i] <= t.starts[j])
    && (forall i | 0 <= i < |t.starts| :: t.starts[i] <= t.now)
    && Punctual(t, limit)
    && StartsBounded(t.starts, width, limit)
  }

  lemma TimedInvStart<R(!new)>(n: nat, width: nat, limit: nat)
    requires width > 0
    ensures TimedInv(Start<R>(n, width), width, limit)
  {
    InvLaunched<R>(n, width, false);
    ZeroIsBounded(Start<R>(n, width).starts, width, limit);
  }

  lemma ZeroIsBounded(starts: seq<nat>, width: nat, limit: nat)
    requires width > 0 && forall i | 0 <= i < |starts| :: starts[i] == 0
    ensures StartsBounded(starts, width, limit)
  {
    forall i: nat | i < |starts| ensures starts[i] <= i / width * limit {
      ProductMonotone(0, i / width, limit);
    }
  }

  /** While items are left to claim, all workers hold distinct calls, so one holds a call at least W back. */
  lemma SomeCallIsOld<R(!new)>(p: Pool<R>, width: nat) returns (w: nat)
    requires width > 0 && Inv(p, width) && NothingFails(p) && p.index < p.size
    ensures width <= p.index
    ensures w < |p.workers| && Active(p.workers[w]) && p.workers[w].task <= p.index - width
  {
    forall v | 0 <= v < |p.workers| ensures Active(p.workers[v]) && p.workers[v].task < p.index {
      assert WorkerOk(p, v);
    }
    assert |p.workers| == width;
    if forall v | 0 <= v < |p.workers| :: p.workers[v].task > p.index - width {
      var tasks := seq(width, v requires 0 <= v < width => p.workers[v].task);
      DistinctFit(tasks, p.index - width + 1, p.index);
    }
    w :| 0 <= w < |p.workers| && p.workers[w].task <= p.index - width;
  }

  /** So the next call starts at most limit after the call W places before it. */
  lemma NextStartBound<R(!new)>(t: Timed<R>, width: nat, limit: nat)
    requires width > 0 && TimedInv(t, width, limit) && t.pool.index < t.pool.size
    ensures t.now <= t.pool.index / width * limit
  {
    var w := SomeCallIsOld(t.pool, width);
    var back := t.pool.index - width;
    assert InTime(t.pool.workers[w], t.starts, t.now, limit);
    assert t.starts[t.pool.workers[w].task] <= t.starts[back];
    RoundStep(t.pool.index, width, limit);
  }

  lemma RoundStep(i: nat, width: nat, limit: nat)
    requires 0 < width <= i
    ensures (i - width) / width * limit + limit == i / width * limit
  {
    var q, p := i / width, (i - width) / width;
    if p < q - 1 {
      ProductMonotone(p + 1, q - 1, width);
    }
    if q <= p {
      ProductMonotone(q, p, width);
    }
    assert (q - 1) * limit + limit == q * limit;
  }

  lemma TimedInvTick<R(!new)>(t: Timed<R>, width: nat, limit: nat, dt: nat)
    requires width > 0 && TimedInv(t, width, limit) && CanMove(t, Tick(dt), limit)
    ensures TimedInv(Moved(t, Tick(dt), limit), width, limit)
  {
  }

  lemma TimedInvSettles<R(!new)>(t: Timed<R>, width: nat, limit: nat, w: nat, v: R)
    requires width > 0 && TimedInv(t, width, limit) && CanMove(t, Settles(w, v), limit)
    ensures TimedInv(Moved(t, Settles(w, v), limit), width, limit)
  {
    InvStep(t.pool, width, Settle(w, Resolved(v)));
    assert InTime(t.pool.workers[w], t.starts, t.now, limit);
  }

  lemma TimedInvResumes<R(!new)>(t: Timed<R>, width: nat, limit: nat, w: nat)
    requires width > 0 && TimedInv(t, width, limit) && CanMove(t, Resumes(w), limit)
    ensures TimedInv(Moved(t, Resumes(w), limit), width, limit)
  {
    InvStep(t.pool, width, Resume(w));
    ResumeStaysPunctual(t, width, limit, w);
    if t.pool.index < t.pool.size {
      NextStartBound(t, width, limit);
    }
  }

  /** A resumed worker holds no call or one that starts now; the others go on as before. */
  lemma ResumeStaysPunctual<R(!new)>(t: Timed<R>, width: nat, limit: nat, w: nat)
    requires width > 0 && TimedInv(t, width, limit) && CanMove(t, Resumes(w), limit)
    ensures Punctual(Moved(t, Resumes(w), limit), limit) && NothingFails(Moved(t, Resumes(w), limit).pool)
  {
    var u := Moved(t, Resumes(w), limit);
    forall v | 0 <= v < |u.pool.workers|
      ensures InTime(u.pool.workers[v], u.starts, u.now, limit)
      ensures !Fails(u.pool.workers[v])
      ensures u.pool.workers[v].Ready? ==> u.pool.workers[v].outcome.Resolved?
    {
      assert InTime(t.pool.workers[v], t.starts, t.now, limit);
      assert WorkerOk(t.pool, v);
    }
  }

  lemma TimedInvMove<R(!new)>(t: Timed<R>, width: nat, limit: nat, m: Move<R>)
    requires width > 0 && TimedInv(t, width, limit) && CanMove(t, m, limit)
    ensures TimedInv(Moved(t, m, limit), width, limit)
  {
    match m
    case Settles(w, v) => TimedInvSettles(t, width, limit, w, v);
    case Resumes(w) => TimedInvResumes(t, width, limit, w);
    case Tick(dt) => TimedInvTick(t, width, limit, dt);
  }

  lemma {:induction false} TimedInvRun<R(!new)>(t: Timed<R>, width: nat, limit: nat, ms: seq<Move<R>>)
    requires width > 0 && TimedInv(t, width, limit) && TimedRun(t, ms, limit)
    ensures TimedInv(TimedAfter(t, ms, limit), width, limit)
    decreases |ms|
  {
    if ms == [] {
    } else {
      TimedInvMove(t, width, limit, ms[0]);
      TimedInvRun(Moved(t, ms[0], limit), width, limit, ms[1..]);
    }
  }

  // ---------------------------------------------------------------- the bound

  function Rounds(n: nat, width: nat): nat
    requires width > 0
  {
    (n + width - 1) / width
  }

  /** In an invariant state with a call in flight, the clock has not passed ceil(n / W) * limit. */
  lemma InFlightMeansEarly<R(!new)>(t: Timed<R>, width: nat, limit: nat, w: nat)
    requires width > 0 && TimedInv(t, width, limit)
    requires w < |t.pool.workers| && Active(t.pool.workers[w])
    ensures t.now <= Rounds(t.pool.size, width) * limit
  {
    var i, n := t.pool.workers[w].task, t.pool.size;
    assert WorkerOk(t.pool, w);
    assert InTime(t.pool.workers[w], t.starts, t.now, limit);
    assert t.starts[i] <= i / width * limit;
    RoundsCover(i, n, width, limit);
  }

  /** The round of the last item ends with the last round. */
  lemma RoundsCover(i: nat, n: nat, width: nat, limit: nat)
    requires width > 0 && i < n
    ensures i / width * limit + limit <= Rounds(n, width) * limit
  {
    RoundStep(i + width, width, limit);
    QuotientMonotone(i + width, n + width - 1, width);
    ProductMonotone((i + width) / width, Rounds(n, width), limit);
  }

  lemma QuotientMonotone(a: nat, b: nat, d: nat)
    requires d > 0 && a <= b
    ensures a / d <= b / d
  {
    if b / d < a / d {
      ProductMonotone(b / d + 1, a / d, d);
    }
  }

  lemma ProductMonotone(a: nat, b: nat, d: nat)
    requires a <= b
    ensures a * d <= b * d
  {
  }

  /**
   List scheduling, under every schedule: item i starts by floor(i / W) * limit, and past
   ceil(n / W) * limit the pool has fulfilled.
   */
  lemma ListSchedulingBound<R(!new)>(n: nat, width: nat, limit: nat, ms: seq<Move<R>>)
    requires width > 0 && TimedRun(Start(n, width), ms, limit)
    ensures var t := TimedAfter(Start(n, width), ms, limit);
      && (forall i | 0 <= i < |t.starts| :: t.starts[i] <= i / width * limit)
      && |t.starts| == t.pool.index
      && (t.now > Rounds(n, width) * limit ==> Settlement(t.pool) == Fulfilled)
  {
    TimedInvStart<R>(n, width, limit);
    TimedInvRun(Start(n, width), width, limit, ms);
    var t := TimedAfter(Start(n, width), ms, limit);
    TimedSize(Start(n, width), ms, limit);
    if t.now > Rounds(n, width) * limit {
      forall w | 0 <= w < |t.pool.workers| ensures t.pool.workers[w].Finished? {
        if Active(t.pool.workers[w]) {
          InFlightMeansEarly(t, width, limit, w);
        }
      }
    }
  }

  lemma {:induction false} TimedSize<R(!new)>(t: Timed<R>, ms: seq<Move<R>>, limit: nat)
    requires TimedRun(t, ms, limit)
    ensures TimedAfter(t, ms, limit).pool.size == t.pool.size
    decreases |ms|
  {
    if ms == [] {
    } else {
      TimedSize(Moved(t, ms[0], limit), ms[1..], limit);
    }
  }
}
