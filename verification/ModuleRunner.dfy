/**
 One module run of backend/scan/runner.js: a deferred timer raced against the handler, which runs
 under a host limiter. Promise reactions go through a first-in first-out job queue; the clock and
 the timer only act when that queue is empty.
 */
module ModuleRunner {
  import opened Basics

  /** How the handler's promise settles; an error may itself read as a timeout. */
  datatype Settlement<+D> = Returned(data: D) | Threw(looksTimedOut: bool)

  datatype Envelope<+D> = FromResult(data: D) | TimedOut | Failure

  /** The timer variable: undefined, armed for a due time, cleared after arming, or gone off at a time. */
  datatype Timer = Unset | Armed(due: int) | Cleared | Fired(at: int)

  /** Reactions on their way to the race. The limiter adds `hops` turns of the queue before the race hears. */
  datatype Job<+D> =
    | TimeoutRejected
    | HandlerSettled(outcome: Settlement<D>, hops: nat)
    | Continue

  datatype Race<+D> = Undecided | ByTimer | ByHandler(outcome: Settlement<D>)

  datatype Run<+D> = Run(
    timeoutMs: nat,
    now: int,
    acquiredAt: Option<int>,
    timer: Timer,
    handler: Option<Settlement<D>>,
    aborted: bool,
    race: Race<D>,
    queue: seq<Job<D>>,
    envelopes: seq<Envelope<D>>)

  /** TimerFires may carry what the handler does when it hears the abort in the same tick. */
  datatype Event<+D> =
    | Passes(ms: nat)
    | SlotAcquired
    | HandlerSettles(outcome: Settlement<D>, hops: nat)
    | TimerFires(reaction: Option<(Settlement<D>, nat)>)
    | NextJob

  function Started<D>(timeoutMs: nat, now: int): Run<D> {
    Run(timeoutMs, now, None, Unset, None, false, Undecided, [], [])
  }

  predicate Pending<D>(r: Run<D>) {
    r.acquiredAt.Some? && r.handler.None?
  }

  predicate Enabled<D>(r: Run<D>, e: Event<D>) {
    match e
    case Passes(_) => r.queue == []
    case SlotAcquired => r.acquiredAt.None?
    case HandlerSettles(_, _) => Pending(r)
    case TimerFires(reaction) =>
      r.queue == [] && r.timer.Armed? && r.now >= r.timer.due && (reaction.Some? ==> Pending(r))
    case NextJob => r.queue != []
  }

  function Settle<D>(r: Run<D>, outcome: Settlement<D>, hops: nat): Run<D> {
    r.(handler := Some(outcome), queue := r.queue + [HandlerSettled(outcome, hops)])
  }

  function EnvelopeOf<D>(race: Race<D>): Envelope<D> {
    match race
    case ByHandler(Returned(data)) => FromResult(data)
    case ByHandler(Threw(looksTimedOut)) => if looksTimedOut then TimedOut else Failure
    case _ => TimedOut
  }

  /** The first reaction to reach the race decides it and queues the continuation of the await. */
  function Decide<D>(r: Run<D>, winner: Race<D>): Run<D> {
    if r.race.Undecided? then r.(race := winner, queue := r.queue + [Continue]) else r
  }

  function RunJob<D>(r: Run<D>, job: Job<D>): Run<D> {
    match job
    case TimeoutRejected => Decide(r, ByTimer)
    case HandlerSettled(outcome, hops) =>
      if hops > 0 then r.(queue := r.queue + [HandlerSettled(outcome, hops - 1)])
      else Decide(r, ByHandler(outcome))
    case Continue =>
      r.(envelopes := r.envelopes + [EnvelopeOf(r.race)], timer := if r.timer.Armed? then Cleared else r.timer)
  }

  function Step<D>(r: Run<D>, e: Event<D>): Run<D>
    requires Enabled(r, e)
  {
    match e
    case Passes(ms) => r.(now := r.now + ms)
    case SlotAcquired =>
      r.(acquiredAt := Some(r.now), timer := if r.timer.Unset? then Armed(r.now + r.timeoutMs) else r.timer)
    case HandlerSettles(outcome, hops) => Settle(r, outcome, hops)
    case TimerFires(reaction) =>
      var rejected := r.(timer := Fired(r.now), queue := r.queue + [TimeoutRejected], aborted := true);
      if reaction.Some? then Settle(rejected, reaction.value.0, reaction.value.1) else rejected
    case NextJob => RunJob(r.(queue := r.queue[1..]), r.queue[0])
  }

  predicate ValidRun<D>(r: Run<D>, es: seq<Event<D>>)
    decreases |es|
  {
    es == [] || (Enabled(r, es[0]) && ValidRun(Step(r, es[0]), es[1..]))
  }

  function After<D>(r: Run<D>, es: seq<Event<D>>): Run<D>
    requires ValidRun(r, es)
    decreases |es|
  {
    if es == [] then r else After(Step(r, es[0]), es[1..])
  }

  // ---------------------------------------------------------------- invariant

  predicate IsContinue<D>(j: Job<D>) { j.Continue? }

  predicate IsTimeout<D>(j: Job<D>) { j.TimeoutRejected? }

  predicate IsHandler<D>(j: Job<D>) { j.HandlerSettled? }

  function One(b: bool): nat { if b then 1 else 0 }

  ghost predicate Inv<D(!new)>(r: Run<D>) {
    // the timer is armed with the slot and no earlier
    && (r.acquiredAt.None? ==> r.timer.Unset? && r.handler.None?)
    && (r.acquiredAt.Some? ==> !r.timer.Unset? && r.acquiredAt.value <= r.now)
    && (r.timer.Armed? ==> r.timer.due == r.acquiredAt.value + r.timeoutMs)
    && (r.timer.Fired? ==> r.acquiredAt.value + r.timeoutMs <= r.timer.at <= r.now)
    && (r.aborted <==> r.timer.Fired?)
    // one continuation for a decided race, one envelope for a run continuation
    && Count(r.queue, IsContinue<D>) + |r.envelopes| == One(!r.race.Undecided?)
    && (forall e | e in r.envelopes :: e == EnvelopeOf(r.race))
    // the two contenders
    && (r.race.ByTimer? ==> r.timer.Fired?)
    && (r.race.ByHandler? ==> r.handler == Some(r.race.outcome))
    && (r.timer.Fired? && r.race.Undecided? ==> r.queue != [] && r.queue[0] == TimeoutRejected)
    && (r.timer.Fired? ==> !r.race.ByHandler?)
    && (forall j | j in r.queue && j.HandlerSettled? :: r.handler == Some(j.outcome))
    && (r.handler.Some? && r.race.Undecided? ==> Count(r.queue, IsHandler<D>) == 1)
    && (Count(r.queue, IsTimeout<D>) <= One(r.timer.Fired?))
    // once the envelope is out the timer is not running
    && (r.envelopes != [] ==> !r.timer.Armed?)
    && (r.timer.Cleared? ==> r.envelopes != [])
  }

  lemma InvStarted<D(!new)>(timeoutMs: nat, now: int)
    ensures Inv(Started<D>(timeoutMs, now))
  {
  }

  lemma CountLast<D>(queue: seq<Job<D>>, j: Job<D>, p: Job<D> -> bool)
    ensures Count(queue + [j], p) == Count(queue, p) + One(p(j))
  {
    CountAppend(queue, [j], p);
  }

  lemma InvSettle<D(!new)>(r: Run<D>, outcome: Settlement<D>, hops: nat)
    requires Inv(r) && Pending(r)
    ensures Inv(Settle(r, outcome, hops))
  {
    CountLast(r.queue, HandlerSettled(outcome, hops), IsContinue<D>);
    CountLast(r.queue, HandlerSettled(outcome, hops), IsTimeout<D>);
    CountLast(r.queue, HandlerSettled(outcome, hops), IsHandler<D>);
    CountExtremes(r.queue, IsHandler<D>);
  }

  lemma InvTimerFires<D(!new)>(r: Run<D>)
    requires Inv(r) && Enabled(r, TimerFires(None))
    ensures Inv(Step(r, TimerFires(None)))
  {
  }

  /** Taking the head of the queue and running it. */
  lemma InvNextJob<D(!new)>(r: Run<D>)
    requires Inv(r) && Enabled(r, NextJob)
    ensures Inv(Step(r, NextJob))
  {
    var job, rest := r.queue[0], r.queue[1..];
    CountLast(rest, Continue, IsContinue<D>);
    CountLast(rest, Continue, IsTimeout<D>);
    CountLast(rest, Continue, IsHandler<D>);
    if job.HandlerSettled? && job.hops > 0 {
      var again := HandlerSettled(job.outcome, job.hops - 1);
      CountLast(rest, again, IsContinue<D>);
      CountLast(rest, again, IsTimeout<D>);
      CountLast(rest, again, IsHandler<D>);
    }
  }

  lemma InvStep<D(!new)>(r: Run<D>, e: Event<D>)
    requires Inv(r) && Enabled(r, e)
    ensures Inv(Step(r, e))
  {
    match e
    case HandlerSettles(outcome, hops) => InvSettle(r, outcome, hops);
    case TimerFires(reaction) =>
      InvTimerFires(r);
      if reaction.Some? {
        InvSettle(Step(r, TimerFires(None)), reaction.value.0, reaction.value.1);
      }
    case NextJob => InvNextJob(r);
    case _ =>
  }

  lemma {:induction false} InvRun<D(!new)>(r: Run<D>, es: seq<Event<D>>)
    requires Inv(r) && ValidRun(r, es)
    ensures Inv(After(r, es))
    decreases |es|
  {
    if es == [] {
    } else {
      InvStep(r, es[0]);
      InvRun(Step(r, es[0]), es[1..]);
    }
  }

  // ---------------------------------------------------------------- what a run guarantees

  /** Never two envelopes; and exactly one once the queue has drained after the handler settled or the timer fired. */
  lemma ExactlyOneEnvelope<D(!new)>(timeoutMs: nat, start: int, es: seq<Event<D>>)
    requires ValidRun(Started(timeoutMs, start), es)
    ensures var r := After(Started(timeoutMs, start), es);
      && |r.envelopes| <= 1
      && (r.queue == [] && (r.handler.Some? || r.timer.Fired?) ==> |r.envelopes| == 1)
      && (|r.envelopes| == 1 ==> r.handler.Some? || r.timer.Fired?)
  {
    InvStarted<D>(timeoutMs, start);
    InvRun(Started(timeoutMs, start), es);
  }

  function Weight<D>(queue: seq<Job<D>>): nat {
    if queue == [] then 0
    else
      (match queue[0]
       case TimeoutRejected => 2
       case HandlerSettled(_, hops) => 2 + hops
       case Continue => 1) + Weight(queue[1..])
  }

  lemma {:induction false} WeightAppend<D>(queue: seq<Job<D>>, j: Job<D>)
    ensures Weight(queue + [j]) == Weight(queue) + Weight([j])
  {
    if queue == [] {
      assert queue + [j] == [j];
    } else {
      assert (queue + [j])[1..] == queue[1..] + [j];
      WeightAppend(queue[1..], j);
    }
  }

  /** Every job makes the queue lighter, so it always drains. */
  lemma QueueDrains<D(!new)>(r: Run<D>)
    requires Enabled(r, NextJob)
    ensures Weight(Step(r, NextJob).queue) < Weight(r.queue)
  {
    var job, rest := r.queue[0], r.queue[1..];
    WeightAppend(rest, Continue);
    if job.HandlerSettled? && job.hops > 0 {
      WeightAppend(rest, HandlerSettled(job.outcome, job.hops - 1));
    }
  }

  /**
   The time spent queueing for a slot is free: without a slot the timer never runs, and it fires
   timeoutMs after the slot or later.
   */
  lemma TimerCountsFromTheSlot<D(!new)>(timeoutMs: nat, start: int, es: seq<Event<D>>)
    requires ValidRun(Started(timeoutMs, start), es)
    ensures var r := After(Started(timeoutMs, start), es);
      && (r.acquiredAt.None? ==> r.timer.Unset?)
      && (r.timer.Fired? ==> r.acquiredAt.Some? && r.timer.at >= r.acquiredAt.value + timeoutMs)
      && (r.aborted ==> r.timer.Fired?)
  {
    InvStarted<D>(timeoutMs, start);
    InvRun(Started(timeoutMs, start), es);
    TimeoutFixed(Started(timeoutMs, start), es);
  }

  lemma {:induction false} TimeoutFixed<D(!new)>(r: Run<D>, es: seq<Event<D>>)
    requires ValidRun(r, es)
    ensures After(r, es).timeoutMs == r.timeoutMs
    decreases |es|
  {
    if es == [] {
    } else {
      TimeoutFixed(Step(r, es[0]), es[1..]);
    }
  }

  /** The envelope a settled handler deserves: its data, or a timeout if its error reads as one, or a failure. */
  ghost predicate EnvelopeSays<D>(envelope: Envelope<D>, outcome: Settlement<D>) {
    && (outcome.Returned? <==> envelope.FromResult?)
    && (outcome.Returned? ==> envelope == FromResult(outcome.data))
    && (outcome.Threw? && outcome.looksTimedOut <==> envelope.TimedOut?)
  }

  /**
   The envelope is the timeout envelope if the timer ever fired, whatever the handler did on hearing
   the abort, and otherwise says what the handler's promise settled with.
   */
  lemma FiredTimerWins<D(!new)>(timeoutMs: nat, start: int, es: seq<Event<D>>)
    requires ValidRun(Started(timeoutMs, start), es)
    ensures var r := After(Started(timeoutMs, start), es);
      r.envelopes != [] ==>
        && |r.envelopes| == 1
        && (r.timer.Fired? ==> r.envelopes == [TimedOut])
        && (!r.timer.Fired? ==> r.handler.Some? && EnvelopeSays(r.envelopes[0], r.handler.value))
  {
    InvStarted<D>(timeoutMs, start);
    InvRun(Started(timeoutMs, start), es);
    var r := After(Started(timeoutMs, start), es);
    if r.envelopes != [] {
      assert r.envelopes[0] in r.envelopes;
    }
  }

  /** A handler that reacts to the abort by settling at once, one way or the other, changes nothing. */
  lemma AbortReactionLoses<D(!new)>(r: Run<D>, reaction: (Settlement<D>, nat), es: seq<Event<D>>)
    requires Inv(r) && Enabled(r, TimerFires(Some(reaction)))
    requires ValidRun(Step(r, TimerFires(Some(reaction))), es)
    ensures forall e | e in After(Step(r, TimerFires(Some(reaction))), es).envelopes :: e == TimedOut
  {
    var fired := Step(r, TimerFires(Some(reaction)));
    InvStep(r, TimerFires(Some(reaction)));
    InvRun(fired, es);
    FiredStays(fired, es);
  }

  lemma {:induction false} FiredStays<D(!new)>(r: Run<D>, es: seq<Event<D>>)
    requires ValidRun(r, es) && r.timer.Fired? && r.acquiredAt.Some?
    ensures After(r, es).timer.Fired?
    decreases |es|
  {
    if es == [] {
    } else {
      FiredStays(Step(r, es[0]), es[1..]);
    }
  }

  /** Once the envelope is out the timer is not running and cannot start or fire. */
  lemma NoTimerSurvivesTheRun<D(!new)>(r: Run<D>, es: seq<Event<D>>)
    requires Inv(r) && r.envelopes != [] && ValidRun(r, es)
    ensures !After(r, es).timer.Armed?
    ensures After(r, es).envelopes == r.envelopes
    ensures forall reaction: Option<(Settlement<D>, nat)> :: !Enabled(After(r, es), TimerFires(reaction))
    decreases |es|
  {
    if es == [] {
    } else {
      var s := Step(r, es[0]);
      InvStep(r, es[0]);
      assert r.envelopes <= s.envelopes && |s.envelopes| <= 1;
      NoTimerSurvivesTheRun(s, es[1..]);
    }
  }

  lemma DrainedEnvelope<D(!new)>(r: Run<D>)
    requires Inv(r) && r.queue == [] && (r.handler.Some? || r.timer.Fired?)
    ensures r.envelopes == [if r.timer.Fired? then TimedOut else EnvelopeOf(ByHandler(r.handler.value))]
    ensures !r.timer.Armed?
  {
    assert r.envelopes[0] in r.envelopes;
  }

  // ---------------------------------------------------------------- the timeout is hard

  /** The clock waits for a due timer, as it does for a queued reaction. */
  predicate Prompt<D>(r: Run<D>, e: Event<D>) {
    e.Passes? && r.timer.Armed? ==> r.now + e.ms <= r.timer.due
  }

  predicate PromptRun<D>(r: Run<D>, es: seq<Event<D>>)
    decreases |es|
  {
    es == [] || (Enabled(r, es[0]) && Prompt(r, es[0]) && PromptRun(Step(r, es[0]), es[1..]))
  }

  ghost predicate InTime<D>(r: Run<D>) {
    r.acquiredAt.Some? ==> r.now <= r.acquiredAt.value + r.timeoutMs || |r.envelopes| == 1
  }

  lemma InTimeStep<D(!new)>(r: Run<D>, e: Event<D>)
    requires Inv(r) && InTime(r) && Enabled(r, e) && Prompt(r, e)
    ensures InTime(Step(r, e))
  {
    InvStep(r, e);
    if e.Passes? && r.timer.Fired? {
      DrainedEnvelope(r);
    }
  }

  lemma {:induction false} InTimeRun<D(!new)>(r: Run<D>, es: seq<Event<D>>)
    requires Inv(r) && InTime(r) && PromptRun(r, es)
    ensures ValidRun(r, es) && InTime(After(r, es))
    decreases |es|
  {
    if es == [] {
    } else {
      InvStep(r, es[0]);
      InTimeStep(r, es[0]);
      InTimeRun(Step(r, es[0]), es[1..]);
    }
  }

  /**
   The hard timeout: however the handler behaves, a run that got its slot has its one envelope once
   timeoutMs have passed.
   */
  lemma TimeoutIsHard<D(!new)>(timeoutMs: nat, start: int, es: seq<Event<D>>)
    requires PromptRun(Started(timeoutMs, start), es)
    ensures ValidRun(Started(timeoutMs, start), es)
    ensures var r := After(Started(timeoutMs, start), es);
      r.acquiredAt.Some? && r.now > r.acquiredAt.value + timeoutMs ==> |r.envelopes| == 1
  {
    InvStarted<D>(timeoutMs, start);
    InTimeRun(Started(timeoutMs, start), es);
    TimeoutFixed(Started(timeoutMs, start), es);
  }

  /** And the clock can get there: it is only ever held up by a reaction that can run or a timer that can fire. */
  lemma ClockIsHeldOnlyByWork<D(!new)>(r: Run<D>)
    requires Inv(r)
    ensures || (Enabled(r, Passes(1)) && Prompt(r, Passes(1)))
            || Enabled(r, NextJob)
            || Enabled(r, TimerFires(None))
  {
  }

  // ---------------------------------------------------------------- the run as the code keeps it

  class ModuleRun<D(!new)> {
    const timeoutMs: nat
    var now: int
    var acquiredAt: Option<int>
    var timer: Timer
    var handler: Option<Settlement<D>>
    var aborted: bool
    var race: Race<D>
    var queue: seq<Job<D>>
    var envelopes: seq<Envelope<D>>

    function Model(): Run<D>
      reads this
    {
      Run(timeoutMs, now, acquiredAt, timer, handler, aborted, race, queue, envelopes)
    }

    ghost predicate Valid()
      reads this
    {
      Inv(Model())
    }

    constructor (timeoutMs: nat, now: int)
      ensures Valid()
      ensures Model() == Started(timeoutMs, now)
    {
      this.timeoutMs, this.now := timeoutMs, now;
      acquiredAt, timer, handler, aborted := None, Unset, None, false;
      race, queue, envelopes := Undecided, [], [];
    }

    /** start(): arms the timer once, and only from inside the slot. */
    method AcquireSlot()
      requires Valid() && Enabled(Model(), SlotAcquired)
      modifies this
      ensures Valid() && Model() == Step(old(Model()), SlotAcquired)
    {
      InvStep(Model(), SlotAcquired);
      acquiredAt := Some(now);
      if timer.Unset? {
        timer := Armed(now + timeoutMs);
      }
    }

    method HandlerSettles(outcome: Settlement<D>, hops: nat)
      requires Valid() && Enabled(Model(), Event.HandlerSettles(outcome, hops))
      modifies this
      ensures Valid() && Model() == Step(old(Model()), Event.HandlerSettles(outcome, hops))
    {
      InvStep(Model(), Event.HandlerSettles(outcome, hops));
      handler := Some(outcome);
      queue := queue + [HandlerSettled(outcome, hops)];
    }

    /** The timer callback: reject first, then abort, which the handler may hear at once. */
    method Fire(reaction: Option<(Settlement<D>, nat)>)
      requires Valid() && Enabled(Model(), TimerFires(reaction))
      modifies this
      ensures Valid() && Model() == Step(old(Model()), TimerFires(reaction))
    {
      InvStep(Model(), TimerFires(reaction));
      timer := Fired(now);
      queue := queue + [TimeoutRejected];
      aborted := true;
      if reaction.Some? {
        handler := Some(reaction.value.0);
        queue := queue + [HandlerSettled(reaction.value.0, reaction.value.1)];
      }
    }

    method RunNextJob()
      requires Valid() && Enabled(Model(), NextJob)
      modifies this
      ensures Valid() && Model() == Step(old(Model()), NextJob)
    {
      InvStep(Model(), NextJob);
      var job := queue[0];
      queue := queue[1..];
      match job {
        case TimeoutRejected =>
          if race.Undecided? {
            race, queue := ByTimer, queue + [Continue];
          }
        case HandlerSettled(outcome, hops) =>
          if hops > 0 {
            queue := queue + [HandlerSettled(outcome, hops - 1)];
          } else if race.Undecided? {
            race, queue := ByHandler(outcome), queue + [Continue];
          }
        case Continue =>
          envelopes := envelopes + [EnvelopeOf(race)];
          if timer.Armed? {
            timer := Cleared;
          }
      }
    }

    /**
     Runs the queued reactions to the end. If the handler had settled or the timer had fired, there
     is now exactly one envelope: the timeout one if the timer fired, else the handler's.
     */
    method RunQueue()
      requires Valid()
      modifies this
      ensures Valid() && queue == []
      ensures handler == old(handler) && (timer.Fired? <==> old(timer.Fired?))
      ensures handler.Some? || timer.Fired? ==> |envelopes| == 1 && !timer.Armed?
      ensures timer.Fired? ==> envelopes == [TimedOut]
      ensures handler.Some? && !timer.Fired? ==>
        match handler.value
        case Returned(data) => envelopes == [FromResult(data)]
        case Threw(looksTimedOut) => envelopes == [if looksTimedOut then TimedOut else Failure]
    {
      while queue != []
        invariant Valid()
        invariant handler == old(handler) && (timer.Fired? <==> old(timer.Fired?))
        decreases Weight(queue)
      {
        QueueDrains(Model());
        RunNextJob();
      }
      if handler.Some? || timer.Fired? {
        DrainedEnvelope(Model());
      }
    }
  }
}
