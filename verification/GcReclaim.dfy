/**
 Garbage collection gets somewhere: a scan keeps what is in use and nothing else, a job that is let
 run to its end frees its inputs, and any idle files can be collected without a trace for the user.
 */
module GcReclaim {
  import opened Wrappers
  import opened GcProtocol
  import opened GcInvariant
  import opened GcBits
  import opened GcTheorems

  // ---------------------------------------------------------------- one step

  /** A record that its key points at is not dead. */
  lemma PointedNotDead(st: State, k: Key, r: Rec)
    requires PointsAt(st, k, r)
    ensures !Dead(st, r, |st.log|)
  {
    var v := Version(k, Newest(st.lsm, k, |st.log|).value);
    assert st.lsm[v] == Blob(r) && !Superseded(st, v, |st.log|);
  }

  ghost predicate KeptIffPointed(st: State, job: Job, job': Job, r: Rec)
    requires r in st.contents
  {
    if PointsAt(st, st.contents[r].key, r) then InBatches(job', r) else job'.batches == job.batches
  }

  lemma OlderIsQueued(st: State, job: Job, r: Rec)
    requires JobOk(st, job) && job.phase == Scanning && InputRec(st, job, r)
    requires OlderVersion(job, st.contents[r].key) && PointsAt(st, st.contents[r].key, r)
    ensures InBatches(job, r)
  {
    PointedNotDead(st, st.contents[r].key, r);
  }

  lemma ScanKeeps(st: State, j: nat, rotate: bool, offset: nat)
    requires Core(st) && CanScan(st, j, rotate, offset) && !st.jobs[j].useBitmap
    ensures var (job, job') := (st.jobs[j], Scan(st, j, rotate, offset).jobs[j]);
            job'.todo == job.todo[1..] && KeptIffPointed(st, job, job', job.todo[0])
  {
    var (job, job') := (st.jobs[j], Scan(st, j, rotate, offset).jobs[j]);
    var (r, k) := (job.todo[0], st.contents[job.todo[0]].key);
    assert JobOk(st, job) && InputRec(st, job, r);
    if PointsAt(st, k, r) {
      if OlderVersion(job, k) {
        OlderIsQueued(st, job, r);
        var i :| 0 <= i < |job.batches| && job.batches[i].from == r;
        assert job'.batches[i].from == r;
      } else {
        assert job'.batches[|job'.batches| - 1].from == r;
      }
    }
  }

  /**
   Without a bitmap the scan keeps a record exactly if its key still points at it: such a record is
   queued for rewriting after the step, and for any other the queue stays as it was.
   */
  lemma ScanKeepsIff(st: State, j: nat, rotate: bool, offset: nat)
    requires Reachable(st) && Enabled(st, GcScan(j, rotate, offset)) && !st.jobs[j].useBitmap
    ensures var (job, st') := (st.jobs[j], Apply(st, GcScan(j, rotate, offset)));
            var r := job.todo[0];
            && j in st'.jobs && st'.jobs[j].todo == job.todo[1..]
            && if PointsAt(st, st.contents[r].key, r) then InBatches(st'.jobs[j], r)
               else st'.jobs[j].batches == job.batches
  {
    ReachableInv(st);
    ScanKeeps(st, j, rotate, offset);
  }

  /** With a bitmap it keeps a record exactly if its bit was not set when the job began. */
  lemma BitmapScanKeepsIff(st: State, j: nat, rotate: bool, offset: nat)
    requires Reachable(st) && Enabled(st, GcScan(j, rotate, offset)) && st.jobs[j].useBitmap
    ensures var (job, job') := (st.jobs[j], Apply(st, GcScan(j, rotate, offset)).jobs[j]);
            var r := job.todo[0];
            && job'.todo == job.todo[1..]
            && (if r in job.bits then job'.batches == job.batches
                else |job'.batches| == |job.batches| + 1 && job'.batches[|job.batches|].from == r)
  {
    var steps :| Runs(INITIAL, steps) && Exec(INITIAL, steps) == st;
    RunNeverFresh(INITIAL, steps);
  }

  /** A job that goes by its bitmap never remembers a fresh record. */
  ghost predicate NeverFresh(st: State) { forall j | j in st.jobs && st.jobs[j].useBitmap :: !st.jobs[j].lastFresh }

  lemma ScanNeverFresh(st: State, j: nat, rotate: bool, offset: nat)
    requires NeverFresh(st) && CanScan(st, j, rotate, offset)
    ensures NeverFresh(Scan(st, j, rotate, offset))
  {}

  lemma RewriteNeverFresh(st: State, j: nat)
    requires NeverFresh(st) && j in st.jobs && st.jobs[j].batches != []
    ensures NeverFresh(RewriteNext(st, j))
  {}

  lemma StepNeverFresh(st: State, step: Step)
    requires NeverFresh(st) && Enabled(st, step)
    ensures NeverFresh(Apply(st, step))
  {
    match step
    case GcScan(j, rotate, offset) => ScanNeverFresh(st, j, rotate, offset);
    case GcRewrite(j) => RewriteNeverFresh(st, j);
    case GcInstall(j) => assert NeverFresh(InstallOutputs(st, j));
    case GcDeleteInputs(j) => assert NeverFresh(DeleteInputs(st, j));
    case _ =>
  }

  lemma {:induction false} RunNeverFresh(st: State, steps: seq<Step>)
    requires NeverFresh(st) && Runs(st, steps)
    ensures NeverFresh(Exec(st, steps))
    decreases |steps|
  {
    if steps != [] {
      StepNeverFresh(st, steps[0]);
      RunNeverFresh(Apply(st, steps[0]), steps[1..]);
    }
  }

  ghost predicate TakesFile(st: State, st': State, job: Job, job': Job, rotate: bool) {
    var copies := !job.fallback && |job'.batches| > |job.batches|;
    && (!copies ==> st'.nextFile == st.nextFile && job'.outputs == job.outputs)
    && (copies && (rotate || job.current.None?) ==>
          st'.nextFile == st.nextFile + 1 && job'.outputs == job.outputs + {st.nextFile})
    && (copies && !rotate && job.current.Some? ==>
          st'.nextFile == st.nextFile && job'.outputs == job.outputs + {job.current.value})
  }

  lemma ScanFiles(st: State, j: nat, rotate: bool, offset: nat)
    requires CanScan(st, j, rotate, offset)
    ensures TakesFile(st, Scan(st, j, rotate, offset), st.jobs[j], Scan(st, j, rotate, offset).jobs[j], rotate)
  {}

  /**
   A scan that copies a record puts it into the job's current file, and takes a new number exactly if
   there is none or it is asked to change files; a scan that copies nothing touches no file.
   */
  lemma ScanTakesFile(st: State, j: nat, rotate: bool, offset: nat)
    requires Enabled(st, GcScan(j, rotate, offset))
    ensures var st' := Apply(st, GcScan(j, rotate, offset));
            j in st'.jobs && TakesFile(st, st', st.jobs[j], st'.jobs[j], rotate)
  {
    ScanFiles(st, j, rotate, offset);
  }

  /** A job in fallback mode writes values inline and no file; any other re-points to records it wrote. */
  ghost predicate ModeOk(job: Job) {
    && (job.fallback ==> job.outputs == {})
    && forall i | 0 <= i < |job.batches| ::
         if job.fallback then job.batches[i].entry.Inline? else job.batches[i].entry.Blob?
  }

  ghost predicate ModesOk(st: State) { forall j | j in st.jobs :: ModeOk(st.jobs[j]) }

  lemma ScanModes(st: State, j: nat, rotate: bool, offset: nat)
    requires ModesOk(st) && CanScan(st, j, rotate, offset)
    ensures ModesOk(Scan(st, j, rotate, offset))
  {
    assert ModeOk(st.jobs[j]);
  }

  lemma RewriteModes(st: State, j: nat)
    requires ModesOk(st) && j in st.jobs && st.jobs[j].batches != []
    ensures ModesOk(RewriteNext(st, j))
  {
    assert ModeOk(st.jobs[j]);
  }

  lemma StepModes(st: State, step: Step)
    requires ModesOk(st) && Enabled(st, step)
    ensures ModesOk(Apply(st, step))
  {
    match step
    case GcScan(j, rotate, offset) => ScanModes(st, j, rotate, offset);
    case GcRewrite(j) => RewriteModes(st, j);
    case GcInstall(j) => assert ModesOk(InstallOutputs(st, j));
    case GcDeleteInputs(j) => assert ModesOk(DeleteInputs(st, j));
    case _ =>
  }

  lemma {:induction false} RunModes(st: State, steps: seq<Step>)
    requires ModesOk(st) && Runs(st, steps)
    ensures ModesOk(Exec(st, steps))
    decreases |steps|
  {
    if steps != [] {
      StepModes(st, steps[0]);
      RunModes(Apply(st, steps[0]), steps[1..]);
    }
  }

  /** Over every run a fallback job brings values back into the tree and writes no blob file; any other moves them. */
  lemma JobsKeepToTheirMode(st: State, j: nat)
    requires Reachable(st) && j in st.jobs
    ensures st.jobs[j].fallback ==> st.jobs[j].outputs == {}
    ensures forall i | 0 <= i < |st.jobs[j].batches| ::
              var entry := st.jobs[j].batches[i].entry; if st.jobs[j].fallback then entry.Inline? else entry.Blob?
  {
    var steps :| Runs(INITIAL, steps) && Exec(INITIAL, steps) == st;
    RunModes(INITIAL, steps);
    assert ModeOk(st.jobs[j]);
  }

  /** The inputs leave the live files together and are obsolete as of the newest sequence number. */
  lemma InputsBecomeObsolete(st: State, j: nat)
    requires Reachable(st) && Enabled(st, GcDeleteInputs(j))
    ensures var (st', inputs) := (Apply(st, GcDeleteInputs(j)), st.jobs[j].inputs);
            && st'.live == st.live - inputs && j !in st'.jobs
            && forall f | f in inputs :: f in st'.obsolete && st'.obsolete[f] == |st.log|
  {
    ReachableInv(st);
    assert JobOk(st, st.jobs[j]);
  }

  /** A purge leaves an obsolete file exactly if some snapshot is as old as its deletion. */
  lemma PurgeKeepsIff(st: State, f: File)
    requires Reachable(st)
    ensures f in Apply(st, Purge).obsolete <==>
              f in st.obsolete && exists i :: 0 <= i < |st.snapshots| && st.snapshots[i] <= st.obsolete[f]
    ensures Apply(st, Purge).live == st.live
  {
    ReachableInv(st);
  }

  // ---------------------------------------------------------------- a job runs to its end

  /** What a job does next when nothing else steps in; each record it keeps gets a file of its own. */
  function NextOf(job: Job, j: nat): Step {
    match job.phase
    case Scanning => if job.todo != [] then GcScan(j, true, 0) else GcInstall(j)
    case Rewriting => if job.batches != [] then GcRewrite(j) else GcSync(j)
    case Deleting => GcDeleteInputs(j)
  }

  function Rank(p: Phase): nat { match p case Scanning => 2 case Rewriting => 1 case Deleting => 0 }

  lemma NextEnabled(st: State, j: nat)
    requires Inv(st) && j in st.jobs
    ensures Enabled(st, NextOf(st.jobs[j], j))
  {
    var job := st.jobs[j];
    assert JobOk(st, job);
    if job.phase == Scanning && job.todo != [] { assert InputRec(st, job, job.todo[0]); }
  }

  /** A job on the same inputs that is closer to its end. */
  ghost predicate Closer(job: Job, job': Job) {
    && job'.inputs == job.inputs
    && (Rank(job'.phase) < Rank(job.phase) ||
        (job'.phase == job.phase && |job'.todo| < |job.todo|) ||
        (job'.phase == job.phase && job'.todo == job.todo && |job'.batches| < |job.batches|))
  }

  ghost predicate Advances(st: State, st': State, j: nat) {
    st'.snapshots == st.snapshots && j in st.jobs && j in st'.jobs && Closer(st.jobs[j], st'.jobs[j])
  }

  lemma ScanAdvances(st: State, j: nat, rotate: bool, offset: nat)
    requires CanScan(st, j, rotate, offset)
    ensures Advances(st, Scan(st, j, rotate, offset), j)
  {}

  lemma RewriteAdvances(st: State, j: nat)
    requires j in st.jobs && st.jobs[j].batches != []
    ensures Advances(st, RewriteNext(st, j), j)
  {}

  /** A step of the job brings it closer to its end and leaves the snapshots. */
  lemma NextAdvances(st: State, j: nat)
    requires j in st.jobs && st.jobs[j].phase != Deleting && Enabled(st, NextOf(st.jobs[j], j))
    ensures Advances(st, Apply(st, NextOf(st.jobs[j], j)), j)
  {
    match NextOf(st.jobs[j], j)
    case GcScan(_, rotate, offset) => ScanAdvances(st, j, rotate, offset);
    case GcRewrite(_) => RewriteAdvances(st, j);
    case GcInstall(_) => assert Advances(st, InstallOutputs(st, j), j);
    case GcSync(_) =>
  }

  lemma LastStep(st: State, j: nat)
    requires Inv(st) && JobIn(st, j, Deleting)
    ensures var st' := Apply(st, GcDeleteInputs(j));
            && st'.snapshots == st.snapshots && j !in st'.jobs
            && st.jobs[j].inputs !! st'.live && st.jobs[j].inputs <= st'.obsolete.Keys
  {
    assert JobOk(st, st.jobs[j]);
  }

  ghost predicate Maintenance(steps: seq<Step>) { forall i | 0 <= i < |steps| :: !IsUserStep(steps[i]) }

  lemma FirstStep(st: State, step: Step, rest: seq<Step>)
    requires Enabled(st, step) && !IsUserStep(step) && Runs(Apply(st, step), rest) && Maintenance(rest)
    ensures Runs(st, [step] + rest) && Maintenance([step] + rest)
    ensures Exec(st, [step] + rest) == Exec(Apply(st, step), rest)
  {
    assert ([step] + rest)[1..] == rest;
  }

  /** Its inputs are deleted. */
  ghost predicate Finished(st: State, inputs: set<File>) { inputs !! st.live && inputs <= st.obsolete.Keys }

  lemma NextWorks(st: State, j: nat)
    requires Inv(st) && j in st.jobs
    ensures Enabled(st, NextOf(st.jobs[j], j))
    ensures var st' := Apply(st, NextOf(st.jobs[j], j));
            && Inv(st')
            && if st.jobs[j].phase == Deleting then Finished(st', st.jobs[j].inputs) else Advances(st, st', j)
  {
    NextEnabled(st, j);
    StepInv(st, NextOf(st.jobs[j], j));
    if st.jobs[j].phase == Deleting { LastStep(st, j); } else { NextAdvances(st, j); }
  }

  // ---------------------------------------------------------------- collecting files

  lemma {:induction false} ReleaseAndPurge(st: State) returns (steps: seq<Step>)
    requires Inv(st)
    ensures Runs(st, steps) && Maintenance(steps) && Inv(Exec(st, steps))
    ensures Exec(st, steps).obsolete == map[] && Exec(st, steps).live == st.live
    decreases |st.snapshots|
  {
    if st.snapshots == [] {
      steps := [Purge] + [];
      StepInv(st, Purge);
      assert Apply(st, Purge).obsolete == map[];
      FirstStep(st, Purge, []);
    } else {
      StepInv(st, ReleaseSnapshot(0));
      var rest := ReleaseAndPurge(Apply(st, ReleaseSnapshot(0)));
      FirstStep(st, ReleaseSnapshot(0), rest);
      steps := [ReleaseSnapshot(0)] + rest;
    }
  }

  ghost predicate NoneReadable(st: State, fs: set<File>) { forall f | f in fs :: !Readable(st, f) }

  /** From every state a running job can go to its end, and then its inputs can be purged. */
  lemma {:induction false} JobFrees(st: State, j: nat) returns (steps: seq<Step>)
    requires Inv(st) && j in st.jobs
    ensures Runs(st, steps) && Maintenance(steps) && NoneReadable(Exec(st, steps), st.jobs[j].inputs)
    decreases Rank(st.jobs[j].phase), |st.jobs[j].todo|, |st.jobs[j].batches|
  {
    var step := NextOf(st.jobs[j], j);
    NextWorks(st, j);
    var rest;
    if st.jobs[j].phase == Deleting {
      rest := ReleaseAndPurge(Apply(st, step));
    } else {
      rest := JobFrees(Apply(st, step), j);
    }
    FirstStep(st, step, rest);
    steps := [step] + rest;
  }

  lemma {:induction false} ListRecords(s: set<Rec>) returns (todo: seq<Rec>)
    ensures forall r :: r in todo <==> r in s
  {
    if s == {} {
      todo := [];
    } else {
      var r :| r in s;
      var rest := ListRecords(s - {r});
      todo := [r] + rest;
    }
  }

  lemma {:induction false} MaintenanceRun(st: State, steps: seq<Step>, k: Key)
    requires Inv(st) && Runs(st, steps) && Maintenance(steps)
    ensures var st' := Exec(st, steps); Get(st', k, |st'.log|) == Get(st, k, |st.log|)
    decreases |steps|
  {
    if steps != [] {
      StepInv(st, steps[0]);
      MaintenanceKeeps(st, steps[0], k);
      MaintenanceRun(Apply(st, steps[0]), steps[1..], k);
    }
  }

  /** A job on idle files begins. */
  lemma JobBegins(st: State, j: nat, inputs: set<File>, fallback: bool, useBitmap: bool) returns (step: Step)
    requires Inv(st) && j !in st.jobs && inputs <= st.live && inputs !! st.pendingLsm && Idle(st, inputs)
    ensures Enabled(st, step) && !IsUserStep(step) && Inv(Apply(st, step))
    ensures j in Apply(st, step).jobs && Apply(st, step).jobs[j].inputs == inputs
  {
    var todo := ListRecords(set r | r in st.contents && r.file in inputs);
    step := GcBegin(j, inputs, todo, fallback, useBitmap);
    StepInv(st, step);
  }

  /**
   Any files that are live, settled and in no job can be collected, with either way to find what is
   in use and with or without the fallback: some run of maintenance steps leaves none of them readable
   and every key reading as before.
   */
  lemma IdleFilesCanBeCollected(st: State, inputs: set<File>, fallback: bool, useBitmap: bool)
    returns (steps: seq<Step>)
    requires Reachable(st) && inputs <= st.live && inputs !! st.pendingLsm && Idle(st, inputs)
    ensures Runs(st, steps) && Maintenance(steps)
    ensures var st' := Exec(st, steps);
            && NoneReadable(st', inputs)
            && forall k :: Get(st', k, |st'.log|) == Get(st, k, |st.log|)
  {
    ReachableInv(st);
    var j := FreeJob(st.jobs.Keys);
    var begin := JobBegins(st, j, inputs, fallback, useBitmap);
    var rest := JobFrees(Apply(st, begin), j);
    FirstStep(st, begin, rest);
    steps := [begin] + rest;
    forall k ensures var st' := Exec(st, steps); Get(st', k, |st'.log|) == Get(st, k, |st.log|) {
      MaintenanceRun(st, steps, k);
    }
  }

  lemma {:induction false} FreeJob(taken: set<nat>) returns (j: nat)
    ensures forall i | i in taken :: i < j
  {
    if taken == {} {
      j := 0;
    } else {
      var i :| i in taken;
      var m := FreeJob(taken - {i});
      assert forall x | x in taken :: x == i || x in taken - {i};
      j := if m > i then m else i + 1;
    }
  }

  // ---------------------------------------------------------------- separating a value

  /** The version has become an index of the record in a file that is in use. */
  ghost predicate MovedOut(st: State, v: Version, r: Rec, record: Record) {
    && v in st.lsm && st.lsm[v] == Blob(r) && r in st.contents && st.contents[r] == record
    && r.file in st.live && r.file !in st.pendingLsm
  }

  lemma PlaceAndDone(st: State, v: Version, r: Rec, record: Record) returns (steps: seq<Step>)
    requires v in st.lsm && v.seqno <= st.durable && st.lsm[v] == Inline(record.value) && record.key == v.key
    requires r in st.contents && st.contents[r] == record && r in st.unplaced
    requires r.file in st.live && r.file in st.pendingLsm
    ensures Runs(st, steps) && Maintenance(steps) && MovedOut(Exec(st, steps), v, r, record)
  {
    var place := Relocate(v, Blob(r), false);
    FirstStep(RelocateEntry(st, v, Blob(r), false), BuildDone(r.file), []);
    FirstStep(st, place, [BuildDone(r.file)] + []);
    steps := [place] + ([BuildDone(r.file)] + []);
  }

  lemma BuildAndPlace(st: State, v: Version, f: File, record: Record) returns (steps: seq<Step>)
    requires f in st.reserved && v in st.lsm && v.seqno <= st.durable
    requires st.lsm[v] == Inline(record.value) && record.key == v.key
    ensures Runs(st, steps) && Maintenance(steps) && MovedOut(Exec(st, steps), v, Rec(f, 0), record)
  {
    var records := map[0 := record];
    assert Rec(f, 0) in FileRecords(f, records);
    var rest := PlaceAndDone(FinishBuild(st, f, records), v, Rec(f, 0), record);
    FirstStep(st, BuildFinish(f, records), rest);
    steps := [BuildFinish(f, records)] + rest;
  }

  /**
   Separation works: a durable value that is inline can be moved to a new blob file, which is then in
   use and may be collected in its turn, and every key still reads as before.
   */
  lemma ValueCanMoveOut(st: State, v: Version) returns (steps: seq<Step>)
    requires Reachable(st) && v in st.lsm && st.lsm[v].Inline? && v.seqno <= st.durable
    ensures Runs(st, steps) && Maintenance(steps)
    ensures var st' := Exec(st, steps);
            && v in st'.lsm && st'.lsm[v].Blob? && st'.lsm[v].rec in st'.contents
            && st'.contents[st'.lsm[v].rec] == Record(v.key, st.lsm[v].value)
            && st'.lsm[v].rec.file in st'.live && st'.lsm[v].rec.file !in st'.pendingLsm
            && forall k :: Get(st', k, |st'.log|) == Get(st, k, |st.log|)
  {
    ReachableInv(st);
    StepInv(st, BuildBegin);
    var rest := BuildAndPlace(Apply(st, BuildBegin), v, st.nextFile, Record(v.key, st.lsm[v].value));
    FirstStep(st, BuildBegin, rest);
    steps := [BuildBegin] + rest;
    forall k ensures var st' := Exec(st, steps); Get(st', k, |st'.log|) == Get(st, k, |st.log|) {
      MaintenanceRun(st, steps, k);
    }
  }

  // ---------------------------------------------------------------- giving up, and compacting

  /** A job that gives up leaves its inputs live and free to be collected again. */
  lemma AbortedInputsAreFree(st: State, j: nat)
    requires Reachable(st) && Enabled(st, GcAbort(j))
    ensures var (st', inputs) := (Apply(st, GcAbort(j)), st.jobs[j].inputs);
            j !in st'.jobs && inputs <= st'.live && inputs !! st'.pendingLsm && Idle(st', inputs)
  {
    ReachableInv(st);
    assert JobOk(st, st.jobs[j]);
    forall i | i in st.jobs && i != j
      ensures st.jobs[j].inputs !! st.jobs[i].inputs && st.jobs[j].inputs !! st.jobs[i].outputs
    {
      assert Apart(st.jobs[j], st.jobs[i]);
    }
  }

  /** One version for each key, and no tombstone. */
  ghost predicate Compacted(st: State) {
    && (forall v | v in st.lsm :: !st.lsm[v].Tombstone?)
    && forall v, w | v in st.lsm && w in st.lsm && v.key == w.key :: v == w
  }

  /** Of two versions of a key the older can be dropped. */
  lemma OlderCanGo(st: State, v: Version, w: Version)
    requires WellFormed(st) && st.snapshots == [] && st.durable == |st.log|
    requires v in st.lsm && w in st.lsm && v.key == w.key && v.seqno < w.seqno
    ensures CanDropShadowed(st, v, w.seqno)
  {
    assert Version(v.key, w.seqno) == w;
  }

  lemma TombstoneCanGo(st: State, v: Version)
    requires WellFormed(st) && st.durable == |st.log| && v in st.lsm && st.lsm[v].Tombstone?
    requires forall w | w in st.lsm && w.key == v.key :: w == v
    ensures CanDropTombstone(st, v)
  {
    forall q | 0 <= q < v.seqno ensures Version(v.key, q) !in st.lsm { assert Version(v.key, q) != v; }
  }

  lemma DropShrinks(st: State, v: Version, reported: bool)
    requires v in st.lsm
    ensures var st' := DropVersion(st, v, reported);
            |st'.lsm| < |st.lsm| && st'.snapshots == st.snapshots && st'.durable == st.durable && st'.log == st.log
  {
    Fewer(st.lsm, v);
  }

  /** A version that can be dropped, as shadowed or as a tombstone, unless all is compacted. */
  lemma Droppable(st: State) returns (v: Version, newer: Option<SeqNo>)
    requires WellFormed(st) && st.snapshots == [] && st.durable == |st.log| && !Compacted(st)
    ensures if newer.Some? then CanDropShadowed(st, v, newer.value) else CanDropTombstone(st, v)
  {
    if x, y :| x in st.lsm && y in st.lsm && x.key == y.key && x.seqno < y.seqno {
      OlderCanGo(st, x, y);
      v, newer := x, Some(y.seqno);
    } else {
      newer := None;
      v :| v in st.lsm && st.lsm[v].Tombstone?;
      forall w | w in st.lsm && w.key == v.key ensures w == v { assert w.seqno == v.seqno; }
      TombstoneCanGo(st, v);
    }
  }

  lemma DroppableStep(st: State) returns (step: Step)
    requires WellFormed(st) && st.snapshots == [] && st.durable == |st.log| && !Compacted(st)
    ensures Enabled(st, step) && !IsUserStep(step)
    ensures var st' := Apply(st, step); |st'.lsm| < |st.lsm| && st'.snapshots == [] && st'.durable == |st'.log|
  {
    var v, newer := Droppable(st);
    DropShrinks(st, v, newer.Some?);
    step := if newer.Some? then DropShadowed(v, newer.value, true) else DropTombstone(v);
  }

  lemma Fewer(lsm: map<Version, Entry>, v: Version)
    requires v in lsm
    ensures |lsm - {v}| < |lsm|
  {
    assert (lsm - {v}).Keys == lsm.Keys - {v};
  }

  lemma {:induction false} CompactionRun(st: State) returns (steps: seq<Step>)
    requires Inv(st) && st.snapshots == [] && st.durable == |st.log|
    ensures Runs(st, steps) && Maintenance(steps) && Compacted(Exec(st, steps))
    decreases |st.lsm|
  {
    if Compacted(st) {
      steps := [];
    } else {
      var step := DroppableStep(st);
      StepInv(st, step);
      var rest := CompactionRun(Apply(st, step));
      FirstStep(st, step, rest);
      steps := [step] + rest;
    }
  }

  /**
   Compaction works: with everything synced and no snapshots some run of drops leaves one version for
   each key that has a value and none for the others, and every key still reads as before.
   */
  lemma TreeCanBeCompacted(st: State) returns (steps: seq<Step>)
    requires Reachable(st) && st.snapshots == [] && st.durable == |st.log|
    ensures Runs(st, steps) && Maintenance(steps) && Compacted(Exec(st, steps))
    ensures forall k :: var st' := Exec(st, steps); Get(st', k, |st'.log|) == Get(st, k, |st.log|)
  {
    ReachableInv(st);
    steps := CompactionRun(st);
    forall k ensures var st' := Exec(st, steps); Get(st', k, |st'.log|) == Get(st, k, |st.log|) {
      MaintenanceRun(st, steps, k);
    }
  }
}
