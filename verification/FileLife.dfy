/** Every blob file and GC job of a column family, over any interleaving of what changes file states. */
module FileLife {
  import opened Wrappers
  import opened BlobFileMeta
  import opened LiveData

  /** A running job, by the numbers of its files. */
  datatype Job = Job(inputs: set<nat>, outputs: set<nat>)

  type States = map<nat, FileState>

  /** Files stay here after they are purged: a running job may still hold them. */
  datatype System = System(files: States, jobs: map<nat, Job>)

  /** One event on some of the files: a call of `FileStateTransit` for each. */
  datatype Firing = Firing(files: set<nat>, event: FileEvent)

  ghost predicate Safe(files: States, f: Firing) {
    forall n | n in f.files :: n in files && Allowed(files[n], f.event)
  }

  function Fire(files: States, f: Firing): States {
    map n | n in files :: if n in f.files && Allowed(files[n], f.event) then Transit(files[n], f.event) else files[n]
  }

  /** With level merge off; each step is what one critical section does. */
  datatype Step =
    | NewTableFile(number: nat)
    | FlushCallback(reported: set<nat>)
    | CompactionCallback(grown: set<nat>)
    | PickJob(job: nat, picked: set<nat>)
    | NewOutput(job: nat, number: nat)
    | DeleteInputs(job: nat)
    | ReleaseJob(job: nat)
    | DeleteFiles(chosen: set<nat>)
    | RestartDb(kept: set<nat>)

  function InState(files: States, ns: set<nat>, s: FileState): set<nat> {
    set n | n in ns && n in files && files[n] == s
  }

  function NotObsolete(files: States, ns: set<nat>): set<nat> {
    set n | n in ns && n in files && files[n] != Obsolete
  }

  /** The picker offers files in the normal state only; numbers of new files are new. */
  ghost predicate Enabled(s: System, step: Step) {
    match step
    case NewTableFile(number) => number !in s.files
    case FlushCallback(_) => true
    case CompactionCallback(_) => true
    case PickJob(job, picked) => job !in s.jobs && picked == InState(s.files, picked, Normal)
    case NewOutput(job, number) => job in s.jobs && number !in s.files
    case DeleteInputs(job) => job in s.jobs
    case ReleaseJob(job) => job in s.jobs
    case DeleteFiles(_) => true
    case RestartDb(kept) => kept == NotObsolete(s.files, kept)
  }

  /** The state changes a step asks for, on files that exist before it. */
  function Fires(s: System, step: Step): Firing {
    match step
    case NewTableFile(_) => Firing({}, FlushOrCompactionOutput)
    case FlushCallback(reported) => Firing(InState(s.files, reported, PendingLSM), FlushCompleted)
    case CompactionCallback(grown) => Firing(InState(s.files, grown, PendingLSM), CompactionCompleted)
    case PickJob(_, picked) => Firing(picked, GCBegin)
    case NewOutput(_, _) => Firing({}, GCOutput)
    case DeleteInputs(job) => Firing(if job in s.jobs then NotObsolete(s.files, s.jobs[job].inputs) else {}, Delete)
    case ReleaseJob(job) => Firing(if job in s.jobs then s.jobs[job].inputs + s.jobs[job].outputs else {}, GCCompleted)
    case DeleteFiles(chosen) => Firing(NotObsolete(s.files, chosen), Delete)
    case RestartDb(_) => Firing({}, DbRestart)
  }

  /** A restart makes new objects for the files in the manifest and no job survives it. */
  function Apply(s: System, step: Step): System {
    var files := Fire(s.files, Fires(s, step));
    match step
    case NewTableFile(number) => s.(files := files[number := Transit(Init, FlushOrCompactionOutput)])
    case PickJob(job, picked) => System(files, s.jobs[job := Job(picked, {})])
    case NewOutput(job, number) =>
      if job in s.jobs then
        System(files[number := Transit(Init, GCOutput)],
               s.jobs[job := s.jobs[job].(outputs := s.jobs[job].outputs + {number})])
      else s
    case ReleaseJob(job) => System(files, s.jobs - {job})
    case RestartDb(kept) => System(map n | n in kept :: Transit(Init, DbRestart), map[])
    case _ => s.(files := files)
  }

  // ---------------------------------------------------------------- what every step keeps

  predicate Owns(j: Job, n: nat) { n in j.inputs || n in j.outputs }

  /** The state of a file that a job owns says so. */
  predicate Fits(files: States, j: Job, n: nat) {
    && n in files
    && (n in j.inputs ==> files[n] == BeingGC || files[n] == Obsolete)
    && (n in j.outputs ==> files[n] == PendingGC || files[n] == Obsolete)
  }

  ghost predicate JobsFit(s: System) {
    forall j, n | j in s.jobs && Owns(s.jobs[j], n) :: Fits(s.files, s.jobs[j], n)
  }

  ghost predicate OneOwner(s: System) {
    forall i, j, n | i in s.jobs && j in s.jobs && Owns(s.jobs[i], n) && Owns(s.jobs[j], n) :: i == j
  }

  /** A file in a GC state has an owner. */
  ghost predicate Owned(s: System) {
    forall n | n in s.files && (s.files[n] == BeingGC || s.files[n] == PendingGC) ::
      exists j :: j in s.jobs && Owns(s.jobs[j], n)
  }

  ghost predicate StatesOk(s: System) {
    forall n | n in s.files :: s.files[n] != Init && s.files[n] != ToMerge
  }

  ghost predicate Inv(s: System) { JobsFit(s) && OneOwner(s) && Owned(s) && StatesOk(s) }

  /** In no state that is reached does a step fail an assertion of `FileStateTransit`. */
  lemma StepSafe(s: System, step: Step)
    requires Inv(s) && Enabled(s, step)
    ensures Safe(s.files, Fires(s, step))
  {
    if step.ReleaseJob? {
      forall n | n in Fires(s, step).files
        ensures n in s.files && Allowed(s.files[n], GCCompleted)
      {
        assert Fits(s.files, s.jobs[step.job], n);
      }
    }
  }

  /** Steps that only fire events, and never one that takes a file out of the GC states but by deleting it. */
  lemma FiringInv(s: System, step: Step)
    requires Inv(s) && Enabled(s, step)
    requires step.FlushCallback? || step.CompactionCallback? || step.DeleteInputs? || step.DeleteFiles?
    ensures Inv(Apply(s, step))
  {
    var t := Apply(s, step);
    forall j, n | j in t.jobs && Owns(t.jobs[j], n) ensures Fits(t.files, t.jobs[j], n) {
      assert Fits(s.files, s.jobs[j], n);
    }
  }

  lemma NewFileInv(s: System, number: nat)
    requires Inv(s) && number !in s.files
    ensures Inv(Apply(s, NewTableFile(number)))
  {
    var t := Apply(s, NewTableFile(number));
    forall j, n | j in t.jobs && Owns(t.jobs[j], n) ensures Fits(t.files, t.jobs[j], n) {
      assert Fits(s.files, s.jobs[j], n);
    }
  }

  lemma PickInv(s: System, job: nat, picked: set<nat>)
    requires Inv(s) && Enabled(s, PickJob(job, picked))
    ensures Inv(Apply(s, PickJob(job, picked)))
  {
    var t := Apply(s, PickJob(job, picked));
    forall j, n | j in t.jobs && Owns(t.jobs[j], n)
      ensures Fits(t.files, t.jobs[j], n) && (j == job <==> n in picked)
    {
      if j != job { assert Fits(s.files, s.jobs[j], n); }
    }
    forall n | n in t.files && (t.files[n] == BeingGC || t.files[n] == PendingGC)
      ensures exists j :: j in t.jobs && Owns(t.jobs[j], n)
    {
      if n in picked {
        assert job in t.jobs && Owns(t.jobs[job], n);
      } else {
        var j :| j in s.jobs && Owns(s.jobs[j], n);
        assert j in t.jobs && Owns(t.jobs[j], n);
      }
    }
  }

  lemma OutputInv(s: System, job: nat, number: nat)
    requires Inv(s) && Enabled(s, NewOutput(job, number))
    ensures Inv(Apply(s, NewOutput(job, number)))
  {
    var t := Apply(s, NewOutput(job, number));
    forall j, n | j in t.jobs && Owns(t.jobs[j], n)
      ensures Fits(t.files, t.jobs[j], n) && (n == number ==> j == job) && (n != number ==> Owns(s.jobs[j], n))
    {
      assert Owns(s.jobs[j], n) ==> Fits(s.files, s.jobs[j], n);
    }
    forall n | n in t.files && (t.files[n] == BeingGC || t.files[n] == PendingGC)
      ensures exists j :: j in t.jobs && Owns(t.jobs[j], n)
    {
      if n == number {
        assert job in t.jobs && Owns(t.jobs[job], n);
      } else {
        var j :| j in s.jobs && Owns(s.jobs[j], n);
        assert j in t.jobs && Owns(t.jobs[j], n);
      }
    }
  }

  lemma ReleaseInv(s: System, job: nat)
    requires Inv(s) && job in s.jobs
    ensures Inv(Apply(s, ReleaseJob(job)))
  {
    var t := Apply(s, ReleaseJob(job));
    forall j, n | j in t.jobs && Owns(t.jobs[j], n)
      ensures Fits(t.files, t.jobs[j], n)
    {
      assert j in s.jobs && Owns(s.jobs[j], n) && Fits(s.files, s.jobs[j], n);
      assert !Owns(s.jobs[job], n);
    }
    forall n | n in t.files && (t.files[n] == BeingGC || t.files[n] == PendingGC)
      ensures exists j :: j in t.jobs && Owns(t.jobs[j], n)
    {
      var j :| j in s.jobs && Owns(s.jobs[j], n);
      assert Fits(s.files, s.jobs[j], n);
      assert j in t.jobs && Owns(t.jobs[j], n);
    }
  }

  lemma StepInv(s: System, step: Step)
    requires Inv(s) && Enabled(s, step)
    ensures Inv(Apply(s, step))
  {
    match step
    case NewTableFile(number) => NewFileInv(s, number);
    case PickJob(job, picked) => PickInv(s, job, picked);
    case NewOutput(job, number) => OutputInv(s, job, number);
    case ReleaseJob(job) => ReleaseInv(s, job);
    case RestartDb(_) =>
    case _ => FiringInv(s, step);
  }

  /** No step but a restart, which drops it, takes a file out of the obsolete state. */
  lemma ObsoleteStays(s: System, step: Step, n: nat)
    requires Inv(s) && Enabled(s, step) && n in s.files && s.files[n] == Obsolete
    ensures var t := Apply(s, step); if step.RestartDb? then n !in t.files else n in t.files && t.files[n] == Obsolete
  {}

  // ---------------------------------------------------------------- whole runs

  ghost predicate Runs(s: System, steps: seq<Step>)
    decreases |steps|
  {
    steps == [] || (Enabled(s, steps[0]) && Runs(Apply(s, steps[0]), steps[1..]))
  }

  function Exec(s: System, steps: seq<Step>): System
    decreases |steps|
  {
    if steps == [] then s else Exec(Apply(s, steps[0]), steps[1..])
  }

  lemma {:induction false} RunInv(s: System, steps: seq<Step>)
    requires Inv(s) && Runs(s, steps)
    ensures Inv(Exec(s, steps))
    decreases |steps|
  {
    if steps != [] {
      StepInv(s, steps[0]);
      RunInv(Apply(s, steps[0]), steps[1..]);
    }
  }

  /** Until a restart drops it, a file that is obsolete stays so through every run. */
  lemma {:induction false} ObsoleteForEver(s: System, steps: seq<Step>, n: nat)
    requires Inv(s) && Runs(s, steps) && n in s.files && s.files[n] == Obsolete
    requires forall i | 0 <= i < |steps| :: !steps[i].RestartDb?
    ensures var t := Exec(s, steps); n in t.files && t.files[n] == Obsolete
    decreases |steps|
  {
    if steps != [] {
      StepInv(s, steps[0]);
      ObsoleteStays(s, steps[0], n);
      ObsoleteForEver(Apply(s, steps[0]), steps[1..], n);
    }
  }

  const EMPTY := System(map[], map[])

  /**
   * Whatever interleaves: the next step fails no assertion, no file is marked for merge, and a file
   * is an input or an output of at most one running job.
   */
  lemma FilesBehave(steps: seq<Step>, next: Step)
    requires Runs(EMPTY, steps) && Enabled(Exec(EMPTY, steps), next)
    ensures var s := Exec(EMPTY, steps);
            && Safe(s.files, Fires(s, next))
            && (forall n | n in s.files :: s.files[n] != ToMerge)
            && OneOwner(s)
  {
    RunInv(EMPTY, steps);
    StepSafe(Exec(EMPTY, steps), next);
  }

  // ---------------------------------------------------------------- one file by itself

  /** A file as the steps that name it tell: its state, and the job it belongs to, as input or output. */
  datatype Life = Unborn | Alive(state: FileState, owner: Option<nat>, input: bool)

  /** What a step means for a file that is there. */
  function LiveOn(n: nat, life: Life, step: Step): Life
    requires life.Alive?
  {
    match step
    case FlushCallback(ns) => if n in ns && life.state == PendingLSM then life.(state := Normal) else life
    case CompactionCallback(ns) => if n in ns && life.state == PendingLSM then life.(state := Normal) else life
    case PickJob(j, ns) => if n in ns then Alive(BeingGC, Some(j), true) else life
    case DeleteInputs(j) => if life.owner == Some(j) && life.input then life.(state := Obsolete) else life
    case ReleaseJob(j) =>
      if life.owner != Some(j) then life
      else Alive(if life.state == Obsolete then Obsolete else Normal, None, false)
    case DeleteFiles(ns) => if n in ns then life.(state := Obsolete) else life
    case _ => life
  }

  function LifeStep(n: nat, life: Life, step: Step): Life {
    match step
    case NewTableFile(m) => if m == n then Alive(PendingLSM, None, false) else life
    case NewOutput(j, m) => if m == n then Alive(PendingGC, Some(j), false) else life
    case RestartDb(kept) => if n in kept then Alive(Normal, None, false) else Unborn
    case _ => if life.Unborn? then life else LiveOn(n, life, step)
  }

  function LifeOf(n: nat, life: Life, steps: seq<Step>): Life
    decreases |steps|
  {
    if steps == [] then life else LifeOf(n, LifeStep(n, life, steps[0]), steps[1..])
  }

  /** The system agrees with the life of one file. */
  ghost predicate Lives(s: System, n: nat, life: Life) {
    match life
    case Unborn => n !in s.files && forall j | j in s.jobs :: !Owns(s.jobs[j], n)
    case Alive(state, owner, input) =>
      && n in s.files && s.files[n] == state
      && (forall j | j in s.jobs :: n in s.jobs[j].inputs <==> owner == Some(j) && input)
      && (forall j | j in s.jobs :: n in s.jobs[j].outputs <==> owner == Some(j) && !input)
      && (owner.Some? ==> owner.value in s.jobs)
  }

  lemma JobLives(s: System, n: nat, life: Life, step: Step)
    requires Inv(s) && Enabled(s, step) && Lives(s, n, life)
    requires step.DeleteInputs? || step.ReleaseJob?
    ensures Lives(Apply(s, step), n, LifeStep(n, life, step))
  {
    assert life.Alive? && life.owner == Some(step.job) ==> Fits(s.files, s.jobs[step.job], n);
  }

  lemma PickLives(s: System, n: nat, life: Life, job: nat, picked: set<nat>)
    requires Inv(s) && Enabled(s, PickJob(job, picked)) && Lives(s, n, life)
    ensures Lives(Apply(s, PickJob(job, picked)), n, LifeStep(n, life, PickJob(job, picked)))
  {
    if n in picked {
      assert n in s.files && s.files[n] == Normal;
      assert forall j | j in s.jobs :: Owns(s.jobs[j], n) ==> Fits(s.files, s.jobs[j], n);
    }
  }

  lemma StepLives(s: System, n: nat, life: Life, step: Step)
    requires Inv(s) && Enabled(s, step) && Lives(s, n, life)
    ensures Lives(Apply(s, step), n, LifeStep(n, life, step))
  {
    match step
    case DeleteInputs(_) => JobLives(s, n, life, step);
    case ReleaseJob(_) => JobLives(s, n, life, step);
    case PickJob(job, picked) => PickLives(s, n, life, job, picked);
    case _ =>
  }

  lemma {:induction false} RunLives(s: System, n: nat, life: Life, steps: seq<Step>)
    requires Inv(s) && Runs(s, steps) && Lives(s, n, life)
    ensures Lives(Exec(s, steps), n, LifeOf(n, life, steps))
    decreases |steps|
  {
    if steps != [] {
      StepLives(s, n, life, steps[0]);
      StepInv(s, steps[0]);
      RunLives(Apply(s, steps[0]), n, LifeStep(n, life, steps[0]), steps[1..]);
    }
  }

  /**
   * Over every interleaving each file is in the state, and belongs to the job, that the steps naming it
   * give when taken by themselves: no step reaches a file it does not name, and none is without effect.
   */
  lemma EachFileByItself(steps: seq<Step>, n: nat)
    requires Runs(EMPTY, steps)
    ensures var (s, life) := (Exec(EMPTY, steps), LifeOf(n, Unborn, steps));
            && (n in s.files <==> life.Alive?)
            && (life.Alive? ==> s.files[n] == life.state)
            && (forall j | j in s.jobs :: Owns(s.jobs[j], n) <==> life.Alive? && life.owner == Some(j))
  {
    RunLives(EMPTY, n, Unborn, steps);
  }
}
