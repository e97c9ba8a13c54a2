/** Scheduling of background GC and its exclusion by column family drops. */
module Scheduling {
  import opened Wrappers

  /**
   * The counters under the mutex, and where the threads are. `ready` workers have been submitted or
   * woken and `asleep` ones wait for drops; `running` ones are in a job. Drops are about to look at
   * `running`, asleep, past their wait, or failed there. `closing` threads wait for all workers.
   */
  datatype Sched = Sched(queue: seq<nat>, unscheduled: nat, scheduled: nat, running: nat, dropRequests: nat,
                         ready: nat, asleep: nat, dropsReady: nat, dropsAsleep: nat, dropping: nat, failed: nat,
                         closersReady: nat, closersAsleep: nat, shuttingDown: bool)

  datatype Limits = Limits(maxGC: nat, disabled: bool)

  function Min(a: nat, b: nat): nat { if a <= b then a else b }

  /** `MaybeScheduleGC`, in one go: as many workers as there is work and room for. */
  function Scheduled(l: Limits, s: Sched): Sched {
    if l.disabled || s.shuttingDown || s.scheduled >= l.maxGC then s
    else
      var n := Min(s.unscheduled, l.maxGC - s.scheduled);
      s.(unscheduled := s.unscheduled - n, scheduled := s.scheduled + n, ready := s.ready + n)
  }

  function Queued(s: Sched, cf: nat): Sched {
    s.(unscheduled := s.unscheduled + 1, queue := s.queue + [cf])
  }

  /** `SignalAll`: every sleeping thread will look again. */
  function Signalled(s: Sched): Sched {
    s.(ready := s.ready + s.asleep, asleep := 0, dropsReady := s.dropsReady + s.dropsAsleep, dropsAsleep := 0,
       closersReady := s.closersReady + s.closersAsleep, closersAsleep := 0)
  }

  /** A worker gets the mutex at the start of `BackgroundCallGC`: it sleeps, or takes the first of the queue. */
  function WorkerLooks(s: Sched): Sched
    requires s.ready > 0 && s.queue != []
  {
    if s.dropRequests > 0 then s.(ready := s.ready - 1, asleep := s.asleep + 1)
    else s.(ready := s.ready - 1, running := s.running + 1, queue := s.queue[1..])
  }

  /** Whether a finished job may queue its column family again. */
  predicate MayRepeat(l: Limits, s: Sched) { s.scheduled - 1 + |s.queue| < 2 * l.maxGC }

  /** The end of `BackgroundCallGC`; `again` is the column family of a job that wants another run. */
  function WorkerEnds(l: Limits, s: Sched, again: Option<nat>): Sched
    requires s.running > 0 && s.scheduled > 0
  {
    SignalledIfIdle(Scheduled(l, Freed(Repeated(l, s, again))))
  }

  function Repeated(l: Limits, s: Sched, again: Option<nat>): Sched {
    if again.Some? && MayRepeat(l, s) then Queued(s, again.value) else s
  }

  function Freed(s: Sched): Sched
    requires s.running > 0 && s.scheduled > 0
  {
    s.(running := s.running - 1, scheduled := s.scheduled - 1)
  }

  /** Closing threads are told when no worker is scheduled, drops when none runs. */
  function SignalledIfIdle(s: Sched): Sched {
    if s.scheduled == 0 || s.running == 0 then Signalled(s) else s
  }

  function DropLooks(s: Sched): Sched
    requires s.dropsReady > 0
  {
    if s.running > 0 then s.(dropsReady := s.dropsReady - 1, dropsAsleep := s.dropsAsleep + 1)
    else s.(dropsReady := s.dropsReady - 1, dropping := s.dropping + 1)
  }

  /** The drop is counted down only when the base database has dropped the families. */
  function DropEnds(s: Sched, ok: bool): Sched
    requires s.dropping > 0 && s.dropRequests > 0
  {
    if !ok then s.(dropping := s.dropping - 1, failed := s.failed + 1)
    else
      var s1 := s.(dropping := s.dropping - 1, dropRequests := s.dropRequests - 1);
      if s1.dropRequests == 0 then Signalled(s1) else s1
  }

  function CloserLooks(s: Sched): Sched
    requires s.closersReady > 0
  {
    if s.scheduled > 0 then s.(closersReady := s.closersReady - 1, closersAsleep := s.closersAsleep + 1)
    else s.(closersReady := s.closersReady - 1)
  }

  // ---------------------------------------------------------------- the invariant

  ghost predicate Counters(l: Limits, s: Sched) {
    && |s.queue| == s.unscheduled + s.scheduled - s.running
    && s.scheduled == s.ready + s.asleep + s.running && s.scheduled <= l.maxGC
    && s.dropRequests == s.dropsReady + s.dropsAsleep + s.dropping + s.failed
  }

  /** While a drop is past its wait and not counted down no job runs. */
  ghost predicate Excluded(s: Sched) { s.dropping + s.failed > 0 ==> s.running == 0 }

  /** No thread sleeps although what it waits for is there. */
  ghost predicate NoLostWakeup(s: Sched) {
    && (s.asleep > 0 ==> s.dropRequests > 0)
    && (s.dropsAsleep > 0 ==> s.running > 0)
    && (s.closersAsleep > 0 ==> s.scheduled > 0)
  }

  ghost predicate Inv(l: Limits, s: Sched) { Counters(l, s) && Excluded(s) && NoLostWakeup(s) }

  datatype Step =
    | Enqueue(cf: nat)
    | Schedule
    | WorkerStart
    | WorkerEnd(again: Option<nat>)
    | DropBegin
    | DropStart
    | DropEnd(ok: bool)
    | ShutDown
    | Close
    | CloseLook

  predicate Enabled(s: Sched, step: Step) {
    match step
    case WorkerStart => s.ready > 0
    case WorkerEnd(_) => s.running > 0
    case DropStart => s.dropsReady > 0
    case DropEnd(_) => s.dropping > 0
    case CloseLook => s.closersReady > 0
    case _ => true
  }

  /** A worker that finds the queue empty would leave it as it is; the invariant rules this out. */
  function Apply(l: Limits, s: Sched, step: Step): Sched
    requires Enabled(s, step)
  {
    match step
    case Enqueue(cf) => Scheduled(l, Queued(s, cf))
    case Schedule => Scheduled(l, s)
    case WorkerStart =>
      if s.queue != [] then WorkerLooks(s)
      else if s.dropRequests > 0 then s.(ready := s.ready - 1, asleep := s.asleep + 1)
      else s.(ready := s.ready - 1, running := s.running + 1)
    case WorkerEnd(again) => if s.scheduled > 0 then WorkerEnds(l, s, again) else s
    case DropBegin => s.(dropRequests := s.dropRequests + 1, dropsReady := s.dropsReady + 1)
    case DropStart => DropLooks(s)
    case DropEnd(ok) => if s.dropRequests > 0 then DropEnds(s, ok) else s
    case ShutDown => s.(shuttingDown := true)
    case Close => s.(closersReady := s.closersReady + 1)
    case CloseLook => CloserLooks(s)
  }

  lemma ScheduledKeeps(l: Limits, s: Sched)
    requires Counters(l, s)
    ensures var t := Scheduled(l, s);
            && Counters(l, t) && t.scheduled >= s.scheduled
            && t == s.(unscheduled := t.unscheduled, scheduled := t.scheduled, ready := t.ready)
  {}

  lemma EnqueueInv(l: Limits, s: Sched, cf: nat)
    requires Inv(l, s)
    ensures Inv(l, Scheduled(l, Queued(s, cf)))
  {
    ScheduledKeeps(l, Queued(s, cf));
  }

  lemma WorkerStartInv(l: Limits, s: Sched)
    requires Inv(l, s) && s.ready > 0
    ensures s.queue != [] && Inv(l, WorkerLooks(s))
  {}

  lemma WorkerEndInv(l: Limits, s: Sched, again: Option<nat>)
    requires Inv(l, s) && s.running > 0
    ensures s.scheduled > 0 && Inv(l, WorkerEnds(l, s, again))
  {
    var s1 := Repeated(l, s, again);
    assert Inv(l, s1) && s1.running == s.running && s1.scheduled == s.scheduled;
    ScheduledKeeps(l, Freed(s1));
    IdleInv(l, Scheduled(l, Freed(s1)));
  }

  lemma IdleInv(l: Limits, s: Sched)
    requires Counters(l, s) && Excluded(s) && (s.asleep > 0 ==> s.dropRequests > 0)
    ensures Inv(l, SignalledIfIdle(s))
  {}

  lemma DropEndInv(l: Limits, s: Sched, ok: bool)
    requires Inv(l, s) && s.dropping > 0
    ensures s.dropRequests > 0 && Inv(l, DropEnds(s, ok))
  {}

  lemma StepInv(l: Limits, s: Sched, step: Step)
    requires Inv(l, s) && Enabled(s, step)
    ensures Inv(l, Apply(l, s, step))
  {
    match step
    case Enqueue(cf) => EnqueueInv(l, s, cf);
    case Schedule => ScheduledKeeps(l, s);
    case WorkerStart => WorkerStartInv(l, s);
    case WorkerEnd(again) => WorkerEndInv(l, s, again);
    case DropEnd(ok) => DropEndInv(l, s, ok);
    case _ =>
  }

  const START := Sched([], 0, 0, 0, 0, 0, 0, 0, 0, 0, 0, 0, 0, false)

  ghost predicate Runs(l: Limits, s: Sched, steps: seq<Step>)
    decreases |steps|
  {
    steps == [] || (Enabled(s, steps[0]) && Runs(l, Apply(l, s, steps[0]), steps[1..]))
  }

  ghost function Exec(l: Limits, s: Sched, steps: seq<Step>): Sched
    requires Runs(l, s, steps)
    decreases |steps|
  {
    if steps == [] then s else Exec(l, Apply(l, s, steps[0]), steps[1..])
  }

  lemma {:induction false} RunInv(l: Limits, s: Sched, steps: seq<Step>)
    requires Inv(l, s) && Runs(l, s, steps)
    ensures Inv(l, Exec(l, s, steps))
    decreases |steps|
  {
    if steps != [] {
      StepInv(l, s, steps[0]);
      RunInv(l, Apply(l, s, steps[0]), steps[1..]);
    }
  }

  /**
   * Over every interleaving of callbacks, workers, drops and close: the queue holds exactly what is
   * not yet running, the bounds hold, a worker finds work, drops and jobs exclude each other, and
   * nobody sleeps through what he waits for.
   */
  lemma SchedulerBehaves(l: Limits, steps: seq<Step>)
    requires Runs(l, START, steps)
    ensures var s := Exec(l, START, steps);
            && |s.queue| == s.unscheduled + s.scheduled - s.running
            && s.running <= s.scheduled <= l.maxGC
            && (s.ready > 0 ==> s.queue != [])
            && (s.dropping > 0 ==> s.running == 0)
            && NoLostWakeup(s)
  {
    RunInv(l, START, steps);
  }

  function Closers(s: Sched): nat { s.closersReady + s.closersAsleep }

  /** A thread that closes the database is done exactly by a look that finds no worker scheduled. */
  lemma CloseWaits(l: Limits, s: Sched, step: Step)
    requires Enabled(s, step)
    ensures Closers(Apply(l, s, step)) < Closers(s) <==> step.CloseLook? && s.scheduled == 0
    ensures Closers(Apply(l, s, step)) > Closers(s) <==> step.Close?
  {}

  // ---------------------------------------------------------------- a drop that fails

  lemma FailedStep(l: Limits, s: Sched, step: Step)
    requires Inv(l, s) && Enabled(s, step) && s.failed > 0
    ensures var t := Apply(l, s, step);
            && t.failed > 0 && t.running == 0 && t.scheduled >= s.scheduled
            && t.unscheduled + t.scheduled >= s.unscheduled + s.scheduled
  {
    StepInv(l, s, step);
  }

  /**
   * Once the base database has failed to drop a family, no GC job ever runs again, and a close that
   * waits for a scheduled worker waits for ever.
   */
  lemma {:induction false} FailedDropBlocksGC(l: Limits, s: Sched, steps: seq<Step>)
    requires Inv(l, s) && s.failed > 0 && Runs(l, s, steps)
    ensures var t := Exec(l, s, steps);
            t.running == 0 && t.dropRequests > 0 && t.scheduled >= s.scheduled
    decreases |steps|
  {
    if steps != [] {
      FailedStep(l, s, steps[0]);
      StepInv(l, s, steps[0]);
      FailedDropBlocksGC(l, Apply(l, s, steps[0]), steps[1..]);
    }
  }

  lemma FirstStep(l: Limits, s: Sched, step: Step, rest: seq<Step>)
    requires Enabled(s, step) && Runs(l, Apply(l, s, step), rest)
    ensures Runs(l, s, [step] + rest) && Exec(l, s, [step] + rest) == Exec(l, Apply(l, s, step), rest)
  {
    assert ([step] + rest)[1..] == rest;
  }

  /** A run of drops that fails: it takes three steps from the start. */
  lemma DropCanFail() returns (steps: seq<Step>)
    ensures forall l :: Runs(l, START, steps) && Exec(l, START, steps).failed == 1
  {
    steps := [DropBegin] + ([DropStart] + ([DropEnd(false)] + []));
    forall l ensures Runs(l, START, steps) && Exec(l, START, steps).failed == 1 {
      var s1 := Apply(l, START, DropBegin);
      var s2 := Apply(l, s1, DropStart);
      FirstStep(l, s2, DropEnd(false), []);
      FirstStep(l, s1, DropStart, [DropEnd(false)] + []);
      FirstStep(l, START, DropBegin, [DropStart] + ([DropEnd(false)] + []));
    }
  }

  /** With no failed drop, the drops there are can all end, and then a scheduled worker runs. */
  lemma {:induction false} WorkerCanRun(l: Limits, s: Sched) returns (steps: seq<Step>)
    requires Inv(l, s) && s.failed == 0 && s.scheduled > 0
    ensures Runs(l, s, steps) && Exec(l, s, steps).running > 0
    decreases s.dropRequests, s.dropsReady
  {
    if s.running > 0 {
      steps := [];
    } else {
      var step := if s.dropRequests == 0 then WorkerStart else if s.dropping > 0 then DropEnd(true) else DropStart;
      var t := Apply(l, s, step);
      StepInv(l, s, step);
      var rest;
      if s.dropRequests == 0 {
        WorkerStartInv(l, s);
        rest := [];
      } else {
        rest := WorkerCanRun(l, t);
      }
      FirstStep(l, s, step, rest);
      steps := [step] + rest;
    }
  }

  /** Whether `MaybeScheduleGC` will ever schedule anything. */
  predicate MaySchedule(l: Limits, s: Sched) { !l.disabled && !s.shuttingDown && l.maxGC > 0 }

  lemma IdleStep(l: Limits, s: Sched, step: Step)
    requires Inv(l, s) && Enabled(s, step) && s.scheduled == 0 && !MaySchedule(l, s)
    ensures Apply(l, s, step).scheduled == 0 && !MaySchedule(l, Apply(l, s, step))
  {}

  /** With no worker scheduled and no way to schedule one, nothing runs. */
  lemma {:induction false} IdleForEver(l: Limits, s: Sched, steps: seq<Step>)
    requires Inv(l, s) && Runs(l, s, steps) && s.scheduled == 0 && !MaySchedule(l, s)
    ensures Exec(l, s, steps).running == 0
    decreases |steps|
  {
    if steps != [] {
      StepInv(l, s, steps[0]);
      IdleStep(l, s, steps[0]);
      IdleForEver(l, Apply(l, s, steps[0]), steps[1..]);
    }
  }

  /** A request gets a worker if there is none. */
  lemma RequestCanRun(l: Limits, s: Sched) returns (steps: seq<Step>)
    requires Inv(l, s) && s.failed == 0 && s.scheduled == 0 && MaySchedule(l, s)
    ensures Runs(l, s, steps) && Exec(l, s, steps).running > 0
  {
    StepInv(l, s, Enqueue(0));
    var rest := WorkerCanRun(l, Apply(l, s, Enqueue(0)));
    FirstStep(l, s, Enqueue(0), rest);
    steps := [Enqueue(0)] + rest;
  }

  /**
   * From any state some run gets a GC job going if and only if no drop has failed and a worker is
   * scheduled or may still be.
   */
  lemma GCRunsAgainIff(l: Limits, s: Sched)
    requires Inv(l, s)
    ensures (exists steps :: Runs(l, s, steps) && Exec(l, s, steps).running > 0) <==>
              s.failed == 0 && (s.scheduled > 0 || (!l.disabled && !s.shuttingDown && l.maxGC > 0))
  {
    if s.failed > 0 {
      forall steps | Runs(l, s, steps) ensures Exec(l, s, steps).running == 0 {
        FailedDropBlocksGC(l, s, steps);
      }
    } else if s.scheduled > 0 {
      var steps := WorkerCanRun(l, s);
    } else if MaySchedule(l, s) {
      var steps := RequestCanRun(l, s);
    } else {
      forall steps | Runs(l, s, steps) ensures Exec(l, s, steps).running == 0 {
        IdleForEver(l, s, steps);
      }
    }
  }

  // ---------------------------------------------------------------- the code

  /** The fields under the mutex; each method is one critical section. Where threads are is ghost. */
  class GcScheduler {
    const limits: Limits
    var queue: seq<nat>
    var unscheduled: nat
    var scheduled: nat
    var running: nat
    var dropRequests: nat
    var shuttingDown: bool
    ghost var threads: Sched

    ghost function View(): Sched
      reads this
    {
      threads.(queue := queue, unscheduled := unscheduled, scheduled := scheduled, running := running,
               dropRequests := dropRequests, shuttingDown := shuttingDown)
    }

    ghost predicate Valid()
      reads this
    {
      Inv(limits, View())
    }

    constructor (limits: Limits)
      ensures View() == START && Valid() && this.limits == limits
    {
      this.limits := limits;
      queue, unscheduled, scheduled, running, dropRequests, shuttingDown := [], 0, 0, 0, 0, false;
      threads := START;
    }

    method AddToGCQueue(cf: nat)
      modifies this`queue, this`unscheduled
      ensures View() == Queued(old(View()), cf)
    {
      unscheduled := unscheduled + 1;
      queue := queue + [cf];
    }

    /** The loop submits one worker at a time. */
    method MaybeScheduleGC()
      modifies this`unscheduled, this`scheduled, this`threads
      ensures View() == Scheduled(limits, old(View()))
    {
      if limits.disabled || shuttingDown {
        return;
      }
      ghost var n: nat := 0;
      while unscheduled > 0 && scheduled < limits.maxGC
        invariant unscheduled + n == old(unscheduled) && scheduled == old(scheduled) + n
        invariant n == 0 || scheduled <= limits.maxGC
        invariant threads == old(threads).(ready := old(threads.ready) + n)
        decreases unscheduled
      {
        unscheduled := unscheduled - 1;
        scheduled := scheduled + 1;
        n := n + 1;
        threads := threads.(ready := threads.ready + 1);
      }
    }

    method Enqueue(cf: nat)
      requires Valid()
      modifies this`queue, this`unscheduled, this`scheduled, this`threads
      ensures Valid() && View() == Apply(limits, old(View()), Step.Enqueue(cf))
    {
      EnqueueInv(limits, View(), cf);
      AddToGCQueue(cf);
      MaybeScheduleGC();
    }

    /** A worker's first look: `job` is the column family it takes, if no drop makes it sleep. */
    method BeginGC() returns (job: Option<nat>)
      requires Valid() && threads.ready > 0
      modifies this`queue, this`running, this`threads
      ensures Valid() && View() == Apply(limits, old(View()), WorkerStart)
      ensures job == if old(dropRequests) > 0 then None else Some(old(queue)[0])
    {
      WorkerStartInv(limits, View());
      if dropRequests > 0 {
        threads := threads.(ready := threads.ready - 1, asleep := threads.asleep + 1);
        return None;
      }
      running := running + 1;
      threads := threads.(ready := threads.ready - 1);
      job := Some(queue[0]);
      queue := queue[1..];
    }

    method EndGC(again: Option<nat>)
      requires Valid() && running > 0
      modifies this`queue, this`unscheduled, this`scheduled, this`running, this`threads
      ensures Valid() && View() == Apply(limits, old(View()), WorkerEnd(again))
    {
      WorkerEndInv(limits, View(), again);
      Repeat(again);
      running := running - 1;
      scheduled := scheduled - 1;
      assert View() == Freed(Repeated(limits, old(View()), again));
      MaybeScheduleGC();
      SignalIfIdle();
    }

    method Repeat(again: Option<nat>)
      modifies this`queue, this`unscheduled
      ensures View() == Repeated(limits, old(View()), again)
    {
      if again.Some? && scheduled - 1 + |queue| < 2 * limits.maxGC {
        AddToGCQueue(again.value);
      }
    }

    method SignalIfIdle()
      modifies this`threads
      ensures View() == SignalledIfIdle(old(View()))
    {
      if scheduled == 0 || running == 0 {
        threads := Signalled(threads);
      }
    }

    method BeginDrop()
      requires Valid()
      modifies this`dropRequests, this`threads
      ensures Valid() && View() == Apply(limits, old(View()), DropBegin)
    {
      dropRequests := dropRequests + 1;
      threads := threads.(dropsReady := threads.dropsReady + 1);
    }

    /** A drop's look at the running jobs; it may go on only when there are none. */
    method AwaitJobs() returns (proceed: bool)
      requires Valid() && threads.dropsReady > 0
      modifies this`threads
      ensures Valid() && View() == Apply(limits, old(View()), DropStart) && proceed == (running == 0)
    {
      StepInv(limits, View(), DropStart);
      proceed := running == 0;
      threads := DropLooks(View());
    }

    method EndDrop(ok: bool)
      requires Valid() && threads.dropping > 0
      modifies this`dropRequests, this`threads
      ensures Valid() && View() == Apply(limits, old(View()), DropEnd(ok))
    {
      DropEndInv(limits, View(), ok);
      if ok {
        dropRequests := dropRequests - 1;
        threads := threads.(dropping := threads.dropping - 1);
        if dropRequests == 0 {
          threads := Signalled(threads);
        }
      } else {
        threads := threads.(dropping := threads.dropping - 1, failed := threads.failed + 1);
      }
    }
  }
}
