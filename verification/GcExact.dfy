/**
 The invalid-entry bits miss nothing: as long as every step that takes a reference away reports it, each
 record of a file in use is referred to, marked, or on its way to being one of the two.
 */
module GcExact {
  import opened Wrappers
  import opened GcProtocol
  import opened GcInvariant
  import opened GcBits
  import opened GcTheorems

  /** Some rewrite would make its key refer to `r`. */
  ghost predicate Targeted(st: State, r: Rec) { exists j, i :: TargetAt(st, j, i, r) }

  ghost predicate Accounted(st: State, r: Rec) {
    !Unreferenced(st, r) || r in st.unplaced || Gone(st, r) || Targeted(st, r)
  }

  /** Before its outputs are installed all that a job wrote is still to be referred to. */
  ghost predicate OutputsQueued(st: State) {
    forall j, r | j in st.jobs && st.jobs[j].phase == Scanning && r in st.contents && r.file in st.jobs[j].outputs ::
      exists i :: TargetAt(st, j, i, r)
  }

  ghost predicate NothingMissed(st: State) {
    OutputsQueued(st) && forall r | r in st.contents && r.file in st.live :: Accounted(st, r)
  }

  /**
   A compaction reports the references it takes away, a build is done when all its records are placed,
   a rewrite that is refused reports its record, and no job gives up with rewrites left.
   */
  ghost predicate Careful(st: State, step: Step)
    requires Enabled(st, step)
  {
    match step
    case Relocate(v, _, reported) => st.lsm[v].Blob? ==> reported
    case DropShadowed(v, _, reported) => st.lsm[v].Blob? ==> reported
    case BuildDone(f) => forall r | r in st.unplaced :: r.file != f
    case GcRewrite(j) => st.jobs[j].useBitmap
    case GcAbort(j) => st.jobs[j].phase == Scanning || st.jobs[j].batches == []
    case Crash(_) => false
    case _ => true
  }

  // ---------------------------------------------------------------- steps

  /** References, records and marks are kept, and every rewrite still stands. */
  ghost predicate Keeps(st: State, st': State) {
    && (forall v | v in st.lsm :: v in st'.lsm && st'.lsm[v] == st.lsm[v])
    && st.unplaced <= st'.unplaced && st.bits <= st'.bits && st.announced <= st'.announced
    && forall j, i, r | TargetAt(st, j, i, r) :: TargetAt(st', j, i, r)
  }

  lemma KeepsAccounted(st: State, st': State, r: Rec)
    requires Keeps(st, st') && Accounted(st, r)
    ensures Accounted(st', r)
  {
    if !Unreferenced(st, r) {
      var v :| v in st.lsm && st.lsm[v] == Blob(r);
      assert st'.lsm[v] == Blob(r);
    } else if Targeted(st, r) {
      var j, i :| TargetAt(st, j, i, r);
      assert TargetAt(st', j, i, r);
    }
  }

  /** Jobs in the scan have the same outputs and rewrites, and no new records in those. */
  ghost predicate SameScans(st: State, st': State) {
    forall j | j in st'.jobs && st'.jobs[j].phase == Scanning ::
      && j in st.jobs && st.jobs[j].phase == Scanning && st'.jobs[j].outputs == st.jobs[j].outputs
      && st'.jobs[j].batches == st.jobs[j].batches
      && forall r | r in st'.contents && r.file in st.jobs[j].outputs :: r in st.contents
  }

  lemma ScansQueued(st: State, st': State)
    requires OutputsQueued(st) && SameScans(st, st')
    ensures OutputsQueued(st')
  {
    forall j, r | j in st'.jobs && st'.jobs[j].phase == Scanning && r in st'.contents && r.file in st'.jobs[j].outputs
      ensures exists i :: TargetAt(st', j, i, r)
    {
      var i :| TargetAt(st, j, i, r);
      assert TargetAt(st', j, i, r);
    }
  }

  /** A step that keeps all this and brings no record that is not accounted for. */
  lemma QuietStep(st: State, st': State)
    requires NothingMissed(st) && Keeps(st, st') && SameScans(st, st')
    requires forall r | r in st'.contents && r.file in st'.live ::
               (r in st.contents && r.file in st.live) || Accounted(st', r)
    ensures NothingMissed(st')
  {
    ScansQueued(st, st');
    forall r | r in st'.contents && r.file in st'.live ensures Accounted(st', r) {
      if r in st.contents && r.file in st.live { KeepsAccounted(st, st', r); }
    }
  }

  lemma WriteMissesNothing(st: State, op: Op, e: Entry)
    requires NothingMissed(st) && Inv(st)
    ensures NothingMissed(Append(st, op, e))
  {
    QuietStep(st, Append(st, op, e));
  }

  lemma BuildScans(st: State, f: File, records: map<nat, Record>)
    requires JobsOk(st) && f in st.reserved
    ensures SameScans(st, FinishBuild(st, f, records))
  {
    forall j | j in st.jobs ensures f !in st.jobs[j].outputs { assert JobOk(st, st.jobs[j]); }
  }

  /** A finished build by what it adds: the places of its records. */
  lemma BuildAdds(st: State, st': State, f: File, added: set<Rec>)
    requires NothingMissed(st) && SameScans(st, st') && st'.lsm == st.lsm && st'.jobs == st.jobs
    requires st'.bits == st.bits && st'.announced == st.announced
    requires st'.contents.Keys == st.contents.Keys + added && st'.live == st.live + {f}
    requires st'.unplaced == st.unplaced + added && forall r | r in st.contents :: r.file != f
    ensures NothingMissed(st')
  {
    ScansQueued(st, st');
    forall r | r in st'.contents && r.file in st'.live ensures Accounted(st', r) {
      if r !in added { KeepsAccounted(st, st', r); }
    }
  }

  lemma BuildMissesNothing(st: State, f: File, records: map<nat, Record>)
    requires NothingMissed(st) && Core(st) && f in st.reserved
    ensures NothingMissed(FinishBuild(st, f, records))
  {
    BuildScans(st, f, records);
    BuildAdds(st, FinishBuild(st, f, records), f, FileRecords(f, records).Keys);
  }

  /** One version gets another entry or goes, and what it referred to is announced. */
  lemma LostReference(st: State, st': State, v: Version, r: Rec)
    requires v in st.lsm && Accounted(st, r)
    requires forall w | w in st.lsm && w != v :: w in st'.lsm && st'.lsm[w] == st.lsm[w]
    requires st.announced + Referred(st.lsm[v]) <= st'.announced || (v in st'.lsm && st'.lsm[v] == st.lsm[v])
    requires st.announced <= st'.announced && st'.bits == st.bits && st'.jobs == st.jobs
    requires r in st.unplaced ==> r in st'.unplaced || (v in st'.lsm && st'.lsm[v] == Blob(r))
    ensures Accounted(st', r)
  {
    if !Unreferenced(st, r) {
      var w :| w in st.lsm && st.lsm[w] == Blob(r);
      assert w != v ==> st'.lsm[w] == Blob(r);
    } else if Targeted(st, r) {
      var j, i :| TargetAt(st, j, i, r);
      assert TargetAt(st', j, i, r);
    }
  }

  lemma RelocateMissesNothing(st: State, v: Version, e: Entry, reported: bool)
    requires NothingMissed(st) && CanRelocate(st, v, e) && (st.lsm[v].Blob? ==> reported)
    ensures NothingMissed(RelocateEntry(st, v, e, reported))
  {
    var st' := RelocateEntry(st, v, e, reported);
    ScansQueued(st, st');
    forall r | r in st'.contents && r.file in st'.live ensures Accounted(st', r) {
      LostReference(st, st', v, r);
    }
  }

  lemma DropMissesNothing(st: State, v: Version, reported: bool)
    requires NothingMissed(st) && v in st.lsm && (st.lsm[v].Blob? ==> reported)
    ensures NothingMissed(DropVersion(st, v, reported))
  {
    var st' := DropVersion(st, v, reported);
    ScansQueued(st, st');
    forall r | r in st'.contents && r.file in st'.live ensures Accounted(st', r) {
      LostReference(st, st', v, r);
    }
  }

  lemma CallbackMissesNothing(st: State, dropped: set<Rec>)
    requires NothingMissed(st)
    ensures NothingMissed(SetBits(st, dropped))
  {
    var st' := SetBits(st, dropped);
    ScansQueued(st, st');
    forall r | r in st'.contents && r.file in st'.live ensures Accounted(st', r) {
      assert Accounted(st, r);
      if Targeted(st, r) {
        var j, i :| TargetAt(st, j, i, r);
        assert TargetAt(st', j, i, r);
      }
    }
  }

  /** The scan may copy one record to a file of the job, and then queues a rewrite to it. */
  ghost predicate ScannedTo(st: State, st': State, j: nat) {
    && j in st.jobs && j in st'.jobs && st'.jobs == st.jobs[j := st'.jobs[j]] && st'.live == st.live
    && st.jobs[j].batches <= st'.jobs[j].batches
    && st'.lsm == st.lsm && st'.unplaced == st.unplaced && st'.bits == st.bits && st'.announced == st.announced
    && forall r | r in st'.contents ::
         || (r in st.contents && (r.file in st'.jobs[j].outputs ==> r.file in st.jobs[j].outputs))
         || (r.file in st'.jobs[j].outputs && exists i :: TargetAt(st', j, i, r))
  }

  lemma PassScanned(st: State, j: nat, job': Job)
    requires j in st.jobs && job'.outputs == st.jobs[j].outputs && st.jobs[j].batches <= job'.batches
    ensures ScannedTo(st, st.(jobs := st.jobs[j := job']), j)
  {}

  lemma CopyTargets(st: State, st': State, j: nat, out: Rec)
    requires j in st.jobs && j in st'.jobs && |st'.jobs[j].batches| == |st.jobs[j].batches| + 1
    requires st'.jobs[j].batches[|st.jobs[j].batches|].entry == Blob(out)
    requires out.file in st'.jobs[j].outputs && st'.jobs[j].outputs == st.jobs[j].outputs + {out.file}
    requires st'.contents.Keys == st.contents.Keys + {out}
    requires out.file in st.jobs[j].outputs || forall r | r in st.contents :: r.file != out.file
    ensures forall r | r in st'.contents ::
              || (r in st.contents && (r.file in st'.jobs[j].outputs ==> r.file in st.jobs[j].outputs))
              || (r.file in st'.jobs[j].outputs && exists i :: TargetAt(st', j, i, r))
  {
    assert TargetAt(st', j, |st.jobs[j].batches|, out);
  }

  lemma CopyJobs(st: State, j: nat, out: Rec, record: Record, newFile: bool, job': Job)
    requires j in st.jobs
    ensures var mid := CopyRecord(st, j, out, record, newFile); mid.jobs[j := job'] == st.jobs[j := job']
  {}

  lemma CopyScanned(st: State, j: nat, out: Rec, record: Record, newFile: bool, job': Job, b: Rewrite)
    requires CanCopy(st, j, out, newFile) && b.entry == Blob(out)
    requires job'.outputs == st.jobs[j].outputs + {out.file} && job'.batches == st.jobs[j].batches + [b]
    ensures ScannedTo(st, CopyRecord(st, j, out, record, newFile).(jobs := st.jobs[j := job']), j)
  {
    CopyTargets(st, CopyRecord(st, j, out, record, newFile).(jobs := st.jobs[j := job']), j, out);
  }

  lemma CopyIsSuch(st: State, j: nat, rotate: bool, offset: nat)
    requires Core(st) && ScanCopies(st, j, rotate, offset)
    ensures ScannedTo(st, Scan(st, j, rotate, offset), j)
  {
    var (job, r) := (st.jobs[j], st.jobs[j].todo[0]);
    var (out, newFile) := CopyTarget(st, job, rotate, offset);
    var b := Rewrite(st.contents[r].key, r, Blob(out));
    var mid := CopyRecord(st, j, out, st.contents[r], newFile);
    var job' := mid.jobs[j].(todo := job.todo[1..], lastKey := Some(st.contents[r].key), lastFresh := !job.useBitmap,
                             batches := job.batches + [b]);
    CopyTargetOk(st, j, rotate, offset);
    CopyJobs(st, j, out, st.contents[r], newFile, job');
    CopyScanned(st, j, out, st.contents[r], newFile, job', b);
    ScanAsCopy(st, j, rotate, offset);
  }

  lemma ScanIsSuch(st: State, j: nat, rotate: bool, offset: nat)
    requires Core(st) && CanScan(st, j, rotate, offset)
    ensures ScannedTo(st, Scan(st, j, rotate, offset), j)
  {
    if ScanCopies(st, j, rotate, offset) {
      CopyIsSuch(st, j, rotate, offset);
    } else {
      PassScanned(st, j, Scan(st, j, rotate, offset).jobs[j]);
    }
  }

  lemma ScanMissesNothing(st: State, j: nat, rotate: bool, offset: nat)
    requires NothingMissed(st) && Core(st) && CanScan(st, j, rotate, offset) && Core(Scan(st, j, rotate, offset))
    ensures NothingMissed(Scan(st, j, rotate, offset))
  {
    ScanIsSuch(st, j, rotate, offset);
    ScannedMissesNothing(st, Scan(st, j, rotate, offset), j);
  }

  lemma ScannedMissesNothing(st: State, st': State, j: nat)
    requires NothingMissed(st) && JobsOk(st') && ScannedTo(st, st', j) && st.jobs[j].phase == Scanning
    ensures NothingMissed(st')
  {
    ScanQueues(st, st', j);
    assert Keeps(st, st');
    forall r | r in st'.contents && r.file in st'.live ensures Accounted(st', r) {
      if r in st.contents { KeepsAccounted(st, st', r); } else { assert Targeted(st', r); }
    }
  }

  lemma ScanQueues(st: State, st': State, j: nat)
    requires OutputsQueued(st) && ScannedTo(st, st', j) && JobsOk(st') && st.jobs[j].phase == Scanning
    ensures OutputsQueued(st')
  {
    forall i, r | i in st'.jobs && st'.jobs[i].phase == Scanning && r in st'.contents && r.file in st'.jobs[i].outputs
      ensures exists k :: TargetAt(st', i, k, r)
    {
      assert i != j ==> Apart(st'.jobs[i], st'.jobs[j]);
      if r in st.contents && r.file in st.jobs[i].outputs {
        var k :| TargetAt(st, i, k, r);
        assert TargetAt(st', i, k, r);
      }
    }
  }

  lemma InstallMissesNothing(st: State, j: nat)
    requires NothingMissed(st) && JobIn(st, j, Scanning)
    ensures NothingMissed(InstallOutputs(st, j))
  {
    var st' := InstallOutputs(st, j);
    ScansQueued(st, st');
    forall r | r in st'.contents && r.file in st'.live ensures Accounted(st', r) {
      if r.file !in st.live {
        var i :| TargetAt(st, j, i, r);
        assert TargetAt(st', j, i, r);
      } else {
        KeepsAccounted(st, st', r);
      }
    }
  }

  lemma PopTargets(st: State, st': State, j: nat, r: Rec)
    requires j in st.jobs && st.jobs[j].batches != [] && Targeted(st, r) && st.jobs[j].batches[0].entry != Blob(r)
    requires st'.jobs == st.jobs[j := st.jobs[j].(batches := st.jobs[j].batches[1..])]
    ensures Targeted(st', r)
  {
    var i, k :| TargetAt(st, i, k, r);
    assert TargetAt(st', i, if i == j then k - 1 else k, r);
  }

  lemma RewriteAccounted(st: State, j: nat, r: Rec)
    requires WellFormed(st) && j in st.jobs && st.jobs[j].batches != [] && st.jobs[j].useBitmap && Accounted(st, r)
    ensures Accounted(RewriteNext(st, j), r)
  {
    var (st', b) := (RewriteNext(st, j), st.jobs[j].batches[0]);
    if !Unreferenced(st, r) {
      var v :| v in st.lsm && st.lsm[v] == Blob(r);
      assert st'.lsm[v] == Blob(r);
    } else if b.entry == Blob(r) {
      assert PointsAt(st, b.key, b.from) ==> st'.lsm[Version(b.key, |st.log| + 1)] == Blob(r);
    } else if Targeted(st, r) {
      PopTargets(st, st', j, r);
    }
  }

  lemma RewriteScans(st: State, j: nat)
    requires JobIn(st, j, Rewriting) && st.jobs[j].batches != []
    ensures var st' := RewriteNext(st, j);
            SameScans(st, st') && st'.contents == st.contents && st'.live == st.live
  {}

  lemma RewriteMissesNothing(st: State, j: nat)
    requires NothingMissed(st) && WellFormed(st) && JobIn(st, j, Rewriting) && st.jobs[j].batches != []
    requires st.jobs[j].useBitmap
    ensures NothingMissed(RewriteNext(st, j))
  {
    var st' := RewriteNext(st, j);
    RewriteScans(st, j);
    ScansQueued(st, st');
    forall r | r in st.contents && r.file in st.live ensures Accounted(st', r) { RewriteAccounted(st, j, r); }
  }

  lemma ScanTargets(st: State, j: nat)
    requires JobsOk(st) && JobIn(st, j, Scanning)
    ensures forall k, r | TargetAt(st, j, k, r) :: r.file !in st.live
  {
    assert JobOk(st, st.jobs[j]);
    forall k, r | TargetAt(st, j, k, r) ensures r.file !in st.live {
      assert BatchOk(st, st.jobs[j], st.jobs[j].batches[k]);
    }
  }

  lemma EndAccounted(st: State, st': State, j: nat, r: Rec)
    requires JobsOk(st) && j in st.jobs && st'.jobs == st.jobs - {j} && Accounted(st, r) && r.file in st.live
    requires st.jobs[j].phase == Scanning || st.jobs[j].batches == []
    requires st'.lsm == st.lsm && st'.unplaced == st.unplaced && st'.bits == st.bits && st'.announced == st.announced
    ensures Accounted(st', r)
  {
    if st.jobs[j].phase == Scanning { ScanTargets(st, j); }
    if Targeted(st, r) {
      var i, k :| TargetAt(st, i, k, r);
      assert TargetAt(st', i, k, r);
    }
  }

  /** The last step of a job that has no rewrites left, and giving up in the scan. */
  lemma EndMissesNothing(st: State, st': State, j: nat)
    requires NothingMissed(st) && JobsOk(st) && j in st.jobs && st'.jobs == st.jobs - {j}
    requires st.jobs[j].phase == Scanning || st.jobs[j].batches == []
    requires st'.lsm == st.lsm && st'.contents == st.contents && st'.live <= st.live
    requires st'.unplaced == st.unplaced && st'.bits == st.bits && st'.announced == st.announced
    ensures NothingMissed(st')
  {
    ScansQueued(st, st');
    forall r | r in st'.contents && r.file in st'.live ensures Accounted(st', r) { EndAccounted(st, st', j, r); }
  }

  /** Neither references nor marks nor rewrites change. */
  lemma SameMissesNothing(st: State, st': State)
    requires NothingMissed(st) && SameScans(st, st')
    requires st'.lsm == st.lsm && st'.contents == st.contents && st'.live == st.live
    requires st'.unplaced == st.unplaced && st'.bits == st.bits && st'.announced == st.announced
    requires forall j, i, r | TargetAt(st, j, i, r) :: TargetAt(st', j, i, r)
    ensures NothingMissed(st')
  {
    ScansQueued(st, st');
    forall r | r in st'.contents && r.file in st'.live ensures Accounted(st', r) { KeepsAccounted(st, st', r); }
  }

  lemma AsideMissesNothing(st: State, st': State)
    requires NothingMissed(st) && SameAside(st, st')
    ensures NothingMissed(st')
  {
    SameMissesNothing(st, st');
  }

  lemma BeginMissesNothing(st: State, j: nat, inputs: set<File>, todo: seq<Rec>, fallback: bool, useBitmap: bool)
    requires NothingMissed(st) && j !in st.jobs
    ensures NothingMissed(BeginJob(st, j, inputs, todo, fallback, useBitmap))
  {
    var st' := BeginJob(st, j, inputs, todo, fallback, useBitmap);
    BeginQueued(st, j, inputs, todo, fallback, useBitmap);
    forall r | r in st'.contents && r.file in st'.live ensures Accounted(st', r) { KeepsAccounted(st, st', r); }
  }

  lemma BeginQueued(st: State, j: nat, inputs: set<File>, todo: seq<Rec>, fallback: bool, useBitmap: bool)
    requires OutputsQueued(st) && j !in st.jobs
    ensures OutputsQueued(BeginJob(st, j, inputs, todo, fallback, useBitmap))
    ensures Keeps(st, BeginJob(st, j, inputs, todo, fallback, useBitmap))
  {
    var st' := BeginJob(st, j, inputs, todo, fallback, useBitmap);
    forall i, r | i in st'.jobs && st'.jobs[i].phase == Scanning && r in st'.contents && r.file in st'.jobs[i].outputs
      ensures exists k :: TargetAt(st', i, k, r)
    {
      var k :| TargetAt(st, i, k, r);
      assert TargetAt(st', i, k, r);
    }
  }

  /** Steps that are no concern of the bits. */
  predicate IsAside(step: Step) {
    step.SyncLog? || step.TakeSnapshot? || step.ReleaseSnapshot? || step.Purge? || step.BuildBegin? || step.BuildDone?
  }

  ghost predicate SameAside(st: State, st': State) {
    && st'.jobs == st.jobs && st'.lsm == st.lsm && st'.contents == st.contents && st'.live == st.live
    && st'.unplaced == st.unplaced && st'.bits == st.bits && st'.announced == st.announced
  }

  lemma AsideStep(st: State, step: Step)
    requires Enabled(st, step) && Careful(st, step) && IsAside(step)
    ensures SameAside(st, Apply(st, step))
  {}

  lemma WriteStep(st: State, step: Step)
    requires NothingMissed(st) && Inv(st) && Enabled(st, step) && (step.UserPut? || step.UserDelete?)
    ensures NothingMissed(Apply(st, step))
  {
    match step
    case UserPut(k, v) => WriteMissesNothing(st, Put(k, v), Inline(v));
    case UserDelete(k) => WriteMissesNothing(st, Delete(k), Tombstone);
  }

  lemma LsmMissesNothing(st: State, step: Step)
    requires NothingMissed(st) && Core(st) && Enabled(st, step) && Careful(st, step)
    requires IsLsmStep(step) && !IsAside(step)
    ensures NothingMissed(Apply(st, step))
  {
    match step
    case BuildFinish(f, records) => BuildMissesNothing(st, f, records);
    case Relocate(v, e, reported) => RelocateMissesNothing(st, v, e, reported);
    case DropShadowed(v, _, reported) => DropMissesNothing(st, v, reported);
    case DropTombstone(v) => DropMissesNothing(st, v, false);
    case Callback(dropped) => CallbackMissesNothing(st, dropped);
  }

  lemma SyncMissesNothing(st: State, j: nat)
    requires NothingMissed(st) && JobIn(st, j, Rewriting)
    ensures NothingMissed(st.(durable := |st.log|, jobs := st.jobs[j := st.jobs[j].(phase := Deleting)]))
  {
    SameMissesNothing(st, st.(durable := |st.log|, jobs := st.jobs[j := st.jobs[j].(phase := Deleting)]));
  }

  lemma DeleteMissesNothing(st: State, j: nat)
    requires NothingMissed(st) && JobsOk(st) && JobIn(st, j, Deleting)
    ensures NothingMissed(DeleteInputs(st, j))
  {
    assert JobOk(st, st.jobs[j]);
    EndMissesNothing(st, DeleteInputs(st, j), j);
  }

  lemma GcMissesNothing(st: State, step: Step)
    requires NothingMissed(st) && Core(st) && Enabled(st, step) && Careful(st, step) && IsGcStep(step)
    requires Core(Apply(st, step))
    ensures NothingMissed(Apply(st, step))
  {
    match step
    case GcBegin(j, inputs, todo, fallback, useBitmap) =>
      BeginMissesNothing(st, j, inputs, todo, fallback, useBitmap);
    case GcScan(j, rotate, offset) => ScanMissesNothing(st, j, rotate, offset);
    case GcInstall(j) => InstallMissesNothing(st, j);
    case GcRewrite(j) => RewriteMissesNothing(st, j);
    case GcSync(j) => SyncMissesNothing(st, j);
    case GcDeleteInputs(j) => DeleteMissesNothing(st, j);
    case GcAbort(j) => EndMissesNothing(st, st.(jobs := st.jobs - {j}), j);
  }

  lemma StepMissesNothing(st: State, step: Step)
    requires NothingMissed(st) && Inv(st) && Enabled(st, step) && Careful(st, step)
    ensures NothingMissed(Apply(st, step)) && Inv(Apply(st, step))
  {
    StepInv(st, step);
    if IsAside(step) {
      AsideStep(st, step);
      AsideMissesNothing(st, Apply(st, step));
    } else if IsGcStep(step) {
      GcMissesNothing(st, step);
    } else if IsLsmStep(step) {
      LsmMissesNothing(st, step);
    } else {
      WriteStep(st, step);
    }
  }

  // ---------------------------------------------------------------- whole runs

  ghost predicate CarefulRun(st: State, steps: seq<Step>)
    requires Runs(st, steps)
    decreases |steps|
  {
    steps == [] || (Careful(st, steps[0]) && CarefulRun(Apply(st, steps[0]), steps[1..]))
  }

  lemma {:induction false} RunMissesNothing(st: State, steps: seq<Step>)
    requires NothingMissed(st) && Inv(st) && Runs(st, steps) && CarefulRun(st, steps)
    ensures NothingMissed(Exec(st, steps))
    decreases |steps|
  {
    if steps != [] {
      StepMissesNothing(st, steps[0]);
      RunMissesNothing(Apply(st, steps[0]), steps[1..]);
    }
  }

  /** Nothing is under way: no build, no report that is due, no rewrite. */
  ghost predicate Quiet(st: State) {
    st.unplaced == {} && st.announced == {} && forall j | j in st.jobs :: st.jobs[j].batches == []
  }

  /**
   After any careful run that has come to rest, the bits of the live files are exact: a record's bit is
   set if and only if nothing refers to it.
   */
  lemma BitsExact(steps: seq<Step>, r: Rec)
    requires Runs(INITIAL, steps) && CarefulRun(INITIAL, steps) && Quiet(Exec(INITIAL, steps))
    ensures var st := Exec(INITIAL, steps);
            r in st.contents && r.file in st.live ==> (r in st.bits <==> Unreferenced(st, r))
  {
    var st := Exec(INITIAL, steps);
    InitialInv();
    RunMissesNothing(INITIAL, steps);
    if r in st.bits { BitsMeanUnreferenced(st, r); }
  }

  /** So a job that begins then, and goes by its bitmap, will keep exactly what is referred to. */
  lemma BitmapJobExact(steps: seq<Step>, j: nat, inputs: set<File>, todo: seq<Rec>, fallback: bool, r: Rec)
    requires Runs(INITIAL, steps) && CarefulRun(INITIAL, steps) && Quiet(Exec(INITIAL, steps))
    requires Enabled(Exec(INITIAL, steps), GcBegin(j, inputs, todo, fallback, true))
    ensures var st := Exec(INITIAL, steps);
            var job := Apply(st, GcBegin(j, inputs, todo, fallback, true)).jobs[j];
            r in job.todo ==> (r in job.bits <==> Unreferenced(st, r))
  {
    BitsExact(steps, r);
  }
}
