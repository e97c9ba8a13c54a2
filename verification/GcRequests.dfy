/** Who gets collected: requests for GC are served once each, first come first served. */
module GcRequests {
  import opened Wrappers
  import opened Scheduling

  /**
   * What the steps say: the families asked for, in order; how many requests workers have taken and how
   * many jobs have ended; the drops that hold workers back; how many workers there are.
   */
  datatype Book = Book(asked: seq<nat>, taken: nat, ended: nat, drops: nat, workers: nat, closed: bool)

  const EMPTY := Book([], 0, 0, 0, 0, false)

  /** A worker for each request that has not ended, up to the limit, unless GC is off. */
  function Staffed(l: Limits, b: Book, otherwise: nat): Book {
    var open := |b.asked| - b.ended;
    b.(workers := if l.disabled || b.closed then otherwise else if open < l.maxGC then Whole(open) else l.maxGC)
  }

  function Whole(x: int): nat { if x < 0 then 0 else x }

  /** A finished job's wish for another run is granted while few requests wait for the other workers. */
  predicate Granted(l: Limits, b: Book) { b.workers - 1 + (|b.asked| - b.taken) < 2 * l.maxGC }

  function AskedAgain(l: Limits, b: Book, again: Option<nat>): Book {
    b.(asked := if again.Some? && Granted(l, b) then b.asked + [again.value] else b.asked)
  }

  function Note(l: Limits, b: Book, step: Step): Book {
    match step
    case Enqueue(cf) => Staffed(l, b.(asked := b.asked + [cf]), b.workers)
    case Schedule => Staffed(l, b, b.workers)
    case WorkerStart => if b.drops == 0 then b.(taken := b.taken + 1) else b
    case WorkerEnd(again) =>
      Staffed(l, AskedAgain(l, b, again).(ended := b.ended + 1), Whole(b.workers - 1))
    case DropBegin => b.(drops := b.drops + 1)
    case DropEnd(ok) => if ok then b.(drops := Whole(b.drops - 1)) else b
    case ShutDown => b.(closed := true)
    case _ => b
  }

  ghost function NoteAll(l: Limits, b: Book, steps: seq<Step>): Book
    decreases |steps|
  {
    if steps == [] then b else NoteAll(l, Note(l, b, steps[0]), steps[1..])
  }

  /** The family that a worker takes in a step, if one does. */
  function ServedBy(l: Limits, s: Sched, step: Step): seq<nat>
    requires Enabled(s, step)
  {
    if step.WorkerStart? && Apply(l, s, step).running > s.running && s.queue != [] then [s.queue[0]] else []
  }

  /** The families that workers took in a run, in order. */
  ghost function Served(l: Limits, s: Sched, steps: seq<Step>): seq<nat>
    requires Runs(l, s, steps)
    decreases |steps|
  {
    if steps == [] then [] else ServedBy(l, s, steps[0]) + Served(l, Apply(l, s, steps[0]), steps[1..])
  }

  /** The scheduler is where the book says. */
  ghost predicate Agrees(s: Sched, b: Book) {
    && b.ended <= b.taken <= |b.asked|
    && s.queue == b.asked[b.taken..] && s.running == b.taken - b.ended
    && s.scheduled == b.workers && s.dropRequests == b.drops && s.shuttingDown == b.closed
  }

  lemma StaffedAgrees(l: Limits, s: Sched, b: Book)
    requires Counters(l, s) && Agrees(s, b)
    ensures Agrees(Scheduled(l, s), Staffed(l, b, b.workers))
  {}

  lemma EnqueueAgrees(l: Limits, s: Sched, b: Book, cf: nat)
    requires Counters(l, s) && Agrees(s, b)
    ensures Agrees(Apply(l, s, Enqueue(cf)), Note(l, b, Enqueue(cf)))
  {
    StaffedAgrees(l, Queued(s, cf), b.(asked := b.asked + [cf]));
  }

  lemma RepeatAgrees(l: Limits, s: Sched, b: Book, again: Option<nat>)
    requires Counters(l, s) && Agrees(s, b)
    ensures Agrees(Repeated(l, s, again), AskedAgain(l, b, again)) && Counters(l, Repeated(l, s, again))
  {}

  lemma EndAgrees(l: Limits, s: Sched, b: Book)
    requires Counters(l, s) && Agrees(s, b) && s.running > 0 && s.scheduled > 0
    ensures Agrees(SignalledIfIdle(Scheduled(l, Freed(s))), Staffed(l, b.(ended := b.ended + 1), Whole(b.workers - 1)))
  {
    StaffedAgrees(l, Freed(s), b.(ended := b.ended + 1, workers := b.workers - 1));
  }

  lemma WorkerEndAgrees(l: Limits, s: Sched, b: Book, again: Option<nat>)
    requires Counters(l, s) && Agrees(s, b) && s.running > 0
    ensures Agrees(Apply(l, s, WorkerEnd(again)), Note(l, b, WorkerEnd(again)))
  {
    RepeatAgrees(l, s, b, again);
    EndAgrees(l, Repeated(l, s, again), AskedAgain(l, b, again));
  }

  lemma StepAgrees(l: Limits, s: Sched, b: Book, step: Step)
    requires Inv(l, s) && Agrees(s, b) && Enabled(s, step)
    ensures Agrees(Apply(l, s, step), Note(l, b, step))
  {
    match step
    case Enqueue(cf) => EnqueueAgrees(l, s, b, cf);
    case Schedule => StaffedAgrees(l, s, b);
    case WorkerEnd(again) => WorkerEndAgrees(l, s, b, again);
    case _ =>
  }

  /** Nothing is taken back: the book only grows. */
  ghost predicate Follows(b: Book, c: Book) { b.asked <= c.asked && b.taken <= c.taken <= |c.asked| }

  /** The requests taken between two states of the book. */
  function Between(b: Book, c: Book): seq<nat>
    requires b.taken <= c.taken <= |c.asked|
  {
    c.asked[b.taken..c.taken]
  }

  lemma BetweenJoins(b: Book, c: Book, d: Book)
    requires Follows(b, c) && Follows(c, d)
    ensures Follows(b, d) && Between(b, d) == Between(b, c) + Between(c, d)
  {}

  lemma NoteFollows(l: Limits, b: Book, step: Step)
    requires b.taken <= |b.asked| && Note(l, b, step).taken <= |Note(l, b, step).asked|
    ensures Follows(b, Note(l, b, step))
  {}

  /** A worker takes the first request that waits. */
  lemma StepServes(l: Limits, s: Sched, b: Book, step: Step)
    requires Inv(l, s) && Agrees(s, b) && Enabled(s, step)
    ensures Agrees(Apply(l, s, step), Note(l, b, step)) && Follows(b, Note(l, b, step))
    ensures ServedBy(l, s, step) == Between(b, Note(l, b, step))
  {
    StepAgrees(l, s, b, step);
    NoteFollows(l, b, step);
  }

  lemma {:induction false} RunServes(l: Limits, s: Sched, b: Book, steps: seq<Step>)
    requires Inv(l, s) && Agrees(s, b) && Runs(l, s, steps)
    ensures Agrees(Exec(l, s, steps), NoteAll(l, b, steps)) && Follows(b, NoteAll(l, b, steps))
    ensures Served(l, s, steps) == Between(b, NoteAll(l, b, steps))
    decreases |steps|
  {
    if steps != [] {
      var c := Note(l, b, steps[0]);
      StepInv(l, s, steps[0]);
      StepServes(l, s, b, steps[0]);
      RunServes(l, Apply(l, s, steps[0]), c, steps[1..]);
      BetweenJoins(b, c, NoteAll(l, c, steps[1..]));
    }
  }

  lemma AllServed(b: Book, c: Book)
    requires Follows(b, c) && b.taken == 0
    ensures Between(b, c) + c.asked[c.taken..] == c.asked && |Between(b, c)| == c.taken
  {}

  lemma ServedInOrder(l: Limits, s: Sched, b: Book, steps: seq<Step>)
    requires Inv(l, s) && Agrees(s, b) && b.taken == 0 && Runs(l, s, steps)
    ensures var (t, c) := (Exec(l, s, steps), NoteAll(l, b, steps));
            Agrees(t, c) && Served(l, s, steps) + t.queue == c.asked && |Served(l, s, steps)| == c.taken
  {
    RunServes(l, s, b, steps);
    AllServed(b, NoteAll(l, b, steps));
  }

  /**
   * Over every run the families that workers took, in order, followed by those in the queue, are the
   * families asked for, in order; a repeat is granted by the rule of the book, and as many jobs run as
   * were taken and have not ended.
   */
  lemma FirstComeFirstServed(l: Limits, steps: seq<Step>)
    requires Runs(l, START, steps)
    ensures var (s, b) := (Exec(l, START, steps), NoteAll(l, EMPTY, steps));
            && Served(l, START, steps) + s.queue == b.asked
            && |Served(l, START, steps)| == b.taken && s.running == b.taken - b.ended
            && s.scheduled == b.workers && s.dropRequests == b.drops
  {
    ServedInOrder(l, START, EMPTY, steps);
  }
}
