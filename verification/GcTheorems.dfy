/**
 What the GC step system gives: snapshot reads are exact, inputs are unreferenced when they are
 marked obsolete, set bits are right, and every crash point recovers.
 */
module GcTheorems {
  import opened Wrappers
  import opened GcProtocol
  import opened GcInvariant
  import opened GcBits

  // ---------------------------------------------------------------- every step

  lemma ClientStepBits(st: State, step: Step)
    requires Inv(st) && Enabled(st, step) && !IsGcStep(step) && !IsLsmStep(step)
    ensures BitsOk(Apply(st, step))
  {
    match step
    case UserPut(k, v) => PlainWriteBits(st, Put(k, v), Inline(v));
    case UserDelete(k) => PlainWriteBits(st, Delete(k), Tombstone);
    case Crash(n) => CrashBits(st, n);
    case SyncLog(n) => SameMarks(st, st.(durable := n));
    case TakeSnapshot => SameMarks(st, st.(snapshots := st.snapshots + [|st.log|]));
    case ReleaseSnapshot(i) => SameMarks(st, st.(snapshots := st.snapshots[..i] + st.snapshots[i + 1..]));
    case Purge => SameMarks(st, PurgeFiles(st));
  }

  lemma LsmStepBits(st: State, step: Step)
    requires Inv(st) && Enabled(st, step) && IsLsmStep(step)
    ensures BitsOk(Apply(st, step))
  {
    match step
    case BuildFinish(f, records) => BuildFinishBits(st, f, records);
    case Relocate(v, e, reported) => RelocateBits(st, v, e, reported);
    case BuildDone(f) => BuildDoneBits(st, f);
    case DropShadowed(v, _, reported) => DropBits(st, v, reported);
    case DropTombstone(v) => DropBits(st, v, false);
    case Callback(dropped) => CallbackBits(st, dropped);
    case BuildBegin => SameMarks(st, st.(reserved := st.reserved + {st.nextFile}, nextFile := st.nextFile + 1));
  }

  lemma GcStepBits(st: State, step: Step)
    requires Inv(st) && Enabled(st, step) && IsGcStep(step)
    ensures BitsOk(Apply(st, step))
  {
    match step
    case GcBegin(j, inputs, todo, fallback, useBitmap) => GcBeginBits(st, j, inputs, todo, fallback, useBitmap);
    case GcScan(j, rotate, offset) => GcScanBits(st, j, rotate, offset);
    case GcRewrite(j) => GcRewriteBits(st, j);
    case GcInstall(j) => InstallBits(st, j);
    case GcSync(j) => SyncJobBits(st, j);
    case GcDeleteInputs(j) => DeleteInputsBits(st, j);
    case GcAbort(j) => AbortBits(st, j);
  }

  /** The bits a job goes by are right: they were set when it started and are never cleared before a crash. */
  lemma JobBitsRight(st: State, j: nat)
    requires BitsOk(st) && j in st.jobs
    ensures forall r | r in st.jobs[j].bits :: Unreferenced(st, r)
  {
    forall r | r in st.jobs[j].bits ensures Unreferenced(st, r) {
      assert Gone(st, r) && GoneOk(st, r);
    }
  }

  /** Every enabled step keeps the invariant. */
  lemma StepInv(st: State, step: Step)
    requires Inv(st) && Enabled(st, step)
    ensures Inv(Apply(st, step))
  {
    if step.GcScan? { JobBitsRight(st, step.job); }
    CoreStep(st, step);
    if IsGcStep(step) {
      GcStepBits(st, step);
    } else if IsLsmStep(step) {
      LsmStepBits(st, step);
    } else {
      ClientStepBits(st, step);
    }
  }

  /** A new database: the first manifest took file number 1. */
  const INITIAL := State([], 0, map[], map[], {}, map[], {}, {}, 2, 2, [], {}, {}, {}, map[])

  ghost predicate Runs(st: State, steps: seq<Step>)
    decreases |steps|
  {
    steps == [] || (Enabled(st, steps[0]) && Runs(Apply(st, steps[0]), steps[1..]))
  }

  ghost function Exec(st: State, steps: seq<Step>): State
    requires Runs(st, steps)
    decreases |steps|
  {
    if steps == [] then st else Exec(Apply(st, steps[0]), steps[1..])
  }

  lemma {:induction false} RunInv(st: State, steps: seq<Step>)
    requires Inv(st) && Runs(st, steps)
    ensures Inv(Exec(st, steps))
    decreases |steps|
  {
    if steps != [] {
      StepInv(st, steps[0]);
      RunInv(Apply(st, steps[0]), steps[1..]);
    }
  }

  ghost predicate Reachable(st: State) {
    exists steps :: Runs(INITIAL, steps) && Exec(INITIAL, steps) == st
  }

  lemma InitialInv()
    ensures Inv(INITIAL)
  {}

  lemma ReachableInv(st: State)
    requires Reachable(st)
    ensures Inv(st)
  {
    var steps :| Runs(INITIAL, steps) && Exec(INITIAL, steps) == st;
    InitialInv();
    RunInv(INITIAL, steps);
  }

  // ---------------------------------------------------------------- the theorems

  /** A version that the head or a live snapshot sees has a readable file and the right value. */
  lemma ReadExact(st: State, k: Key, s: SeqNo)
    requires Core(st) && s <= |st.log| && Viewed(st, s)
    ensures Get(st, k, s) == AsRead(UserValue(st.log, k, s))
  {
    assert ViewOk(st, k, s);
    var q := Newest(st.lsm, k, s);
    if q.Some? {
      var v := Version(k, q.value);
      assert RefOk(st, v) && ValueOk(st, v);
      if st.lsm[v].Blob? && st.lsm[v].rec.file !in st.live {
        var f := st.lsm[v].rec.file;
        var newer :| ShadowedBy(st, v, f, newer);
        assert Version(k, newer) in st.lsm;
        assert s in st.snapshots;
        var i :| 0 <= i < |st.snapshots| && st.snapshots[i] == s;
      }
    }
  }

  /**
   Every read at a live snapshot, at any point of any run, finds its blob file and returns what the
   user had written as of that sequence number.
   */
  lemma SnapshotReadsExact(st: State, k: Key, s: SeqNo)
    requires Reachable(st) && s in st.snapshots
    ensures s <= |st.log| && Get(st, k, s) == AsRead(UserValue(st.log, k, s))
  {
    ReachableInv(st);
    ReadExact(st, k, s);
  }

  /** A read at the head of the history is exact as well. */
  lemma HeadReadsExact(st: State, k: Key)
    requires Reachable(st)
    ensures Get(st, k, |st.log|) == AsRead(UserValue(st.log, k, |st.log|))
  {
    ReachableInv(st);
    ReadExact(st, k, |st.log|);
  }

  /** The version that a read at or after the durable point sees is neither superseded nor shadowed. */
  lemma NewestNotSuperseded(st: State, k: Key, n: SeqNo)
    requires st.durable <= n && Newest(st.lsm, k, n).Some?
    ensures var v := Version(k, Newest(st.lsm, k, n).value);
            !Superseded(st, v, st.durable) && forall f :: !Shadowed(st, v, f)
  {}

  /**
   When a job is about to mark its inputs obsolete, no key's newest version points into them: not at
   the head, and not at any point of the history that a crash may fall back to.
   */
  lemma InputsUnreferencedAtDelete(st: State, j: nat, k: Key, n: SeqNo)
    requires Reachable(st) && Enabled(st, GcDeleteInputs(j)) && st.durable <= n <= |st.log|
    ensures var q := Newest(st.lsm, k, n);
            q.Some? && st.lsm[Version(k, q.value)].Blob? ==>
              st.lsm[Version(k, q.value)].rec.file !in st.jobs[j].inputs
  {
    ReachableInv(st);
    var q := Newest(st.lsm, k, n);
    if q.Some? && st.lsm[Version(k, q.value)].Blob? {
      var v := Version(k, q.value);
      var r := st.lsm[v].rec;
      assert RefOk(st, v) && JobOk(st, st.jobs[j]);
      NewestNotSuperseded(st, k, n);
      assert InputRec(st, st.jobs[j], r) ==> Dead(st, r, st.durable);
    }
  }

  /**
   A set bit, one that a callback will still set, and one that a job copied when it started, all
   stand for records that no version refers to and that no rewrite or build will make one refer to.
   */
  lemma BitsMeanUnreferenced(st: State, r: Rec)
    requires Reachable(st)
    requires r in st.bits || r in st.announced || exists j :: j in st.jobs && r in st.jobs[j].bits
    ensures Unreferenced(st, r) && r !in st.unplaced && forall j, i :: !TargetAt(st, j, i, r)
  {
    ReachableInv(st);
    assert GoneOk(st, r) by { assert Gone(st, r); }
  }

  /**
   Whatever prefix of the log a crash keeps, every blob file that the surviving head of a key points
   into is in the file set recovered from the Titan manifest, and holds the record.
   */
  lemma CrashFindsFiles(st: State, n: SeqNo, k: Key)
    requires Reachable(st) && st.durable <= n <= |st.log|
    ensures var q := Newest(st.lsm, k, n);
            q.Some? && st.lsm[Version(k, q.value)].Blob? ==>
              var r := st.lsm[Version(k, q.value)].rec;
              r.file in Restart(st, n).live && r in Restart(st, n).contents
  {
    ReachableInv(st);
    var q := Newest(st.lsm, k, n);
    if q.Some? && st.lsm[Version(k, q.value)].Blob? {
      assert RefOk(st, Version(k, q.value));
      NewestNotSuperseded(st, k, n);
    }
  }

  /** After a crash the database reads as the surviving history says. */
  lemma CrashReadsExact(st: State, n: SeqNo, k: Key)
    requires Reachable(st) && st.durable <= n <= |st.log|
    ensures Get(Restart(st, n), k, n) == AsRead(UserValue(st.log, k, n))
  {
    ReachableInv(st);
    CrashInv(st, n);
    ReadExact(Restart(st, n), k, n);
    assert st.log == st.log[..n] + st.log[n..];
    UserValueExtends(st.log[..n], st.log[n..], k, n);
  }

  predicate IsUserStep(step: Step) {
    step.UserPut? || step.UserDelete? || step.Crash?
  }

  /** A maintenance step adds at most one history entry, which means nothing to the user. */
  lemma MaintenanceHistory(st: State, step: Step, k: Key)
    requires Enabled(st, step) && !IsUserStep(step)
    ensures var log' := Apply(st, step).log;
            && |st.log| <= |log'|
            && UserValue(log', k, |log'|) == UserValue(st.log, k, |st.log|)
            && forall s: SeqNo | s <= |st.log| :: UserValue(log', k, s) == UserValue(st.log, k, s)
  {
    var log' := Apply(st, step).log;
    if log' != st.log {
      var op := Moved(st.jobs[step.job].batches[0].key);
      assert log' == st.log + [op];
      forall s: SeqNo | s <= |st.log| ensures UserValue(log', k, s) == UserValue(st.log, k, s) {
        UserValueExtends(st.log, [op], k, s);
      }
    }
  }

  lemma MaintenanceKeeps(st: State, step: Step, k: Key)
    requires Inv(st) && Enabled(st, step) && !IsUserStep(step)
    ensures var st' := Apply(st, step);
            && Get(st', k, |st'.log|) == Get(st, k, |st.log|)
            && forall s | s in st.snapshots && s in st'.snapshots :: Get(st', k, s) == Get(st, k, s)
  {
    StepInv(st, step);
    var st' := Apply(st, step);
    MaintenanceHistory(st, step, k);
    ReadExact(st, k, |st.log|);
    ReadExact(st', k, |st'.log|);
    forall s | s in st.snapshots && s in st'.snapshots ensures Get(st', k, s) == Get(st, k, s) {
      ReadExact(st, k, s);
      ReadExact(st', k, s);
    }
  }

  /**
   Refinement: flushes, compactions, purges and every step of every GC job leave the user's view
   alone, at the head and at each snapshot that stays alive.
   */
  lemma MaintenanceInvisible(st: State, step: Step, k: Key)
    requires Reachable(st) && Enabled(st, step) && !IsUserStep(step)
    ensures var st' := Apply(st, step);
            && Get(st', k, |st'.log|) == Get(st, k, |st.log|)
            && forall s | s in st.snapshots && s in st'.snapshots :: Get(st', k, s) == Get(st, k, s)
  {
    ReachableInv(st);
    MaintenanceKeeps(st, step, k);
  }
}
