/**
 The invalid-entry bits of the GC step system: a bit that is set, or will be, stands for a record
 that nothing refers to and nothing will be made to refer to.
 */
module GcBits {
  import opened Wrappers
  import opened GcProtocol
  import opened GcInvariant

  /** No record is referred to twice. */
  ghost predicate Single(st: State) {
    forall v, w | v in st.lsm && w in st.lsm && v != w && st.lsm[v].Blob? :: st.lsm[v] != st.lsm[w]
  }

  /** Rewrite `i` of job `j` would make its key refer to `r`. */
  predicate TargetAt(st: State, j: nat, i: int, r: Rec) {
    j in st.jobs && 0 <= i < |st.jobs[j].batches| && st.jobs[j].batches[i].entry == Blob(r)
  }

  ghost predicate Gone(st: State, r: Rec) { r in st.bits || r in st.announced }

  ghost predicate GoneOk(st: State, r: Rec) {
    r in st.contents && Unreferenced(st, r) && r !in st.unplaced && forall j, i :: !TargetAt(st, j, i, r)
  }

  ghost predicate UnplacedOk(st: State, r: Rec) {
    r in st.contents && r.file in st.pendingLsm && Unreferenced(st, r)
  }

  /** What a rewrite points at is not referred to yet, and no two rewrites of a job share it. */
  ghost predicate TargetsOk(st: State) {
    && (forall j, i, r | TargetAt(st, j, i, r) :: Unreferenced(st, r))
    && (forall j, i, i', r | TargetAt(st, j, i, r) && TargetAt(st, j, i', r) :: i == i')
  }

  ghost predicate BitsOk(st: State) {
    && Single(st) && TargetsOk(st)
    && (forall r | Gone(st, r) :: GoneOk(st, r))
    && (forall r | r in st.unplaced :: UnplacedOk(st, r))
    && (forall j | j in st.jobs :: st.jobs[j].bits <= st.bits)
  }

  ghost predicate Inv(st: State) { Core(st) && BitsOk(st) }

  /** A rewrite's target is in one of the job's own output files, so it is no other job's. */
  lemma TargetFile(st: State, j: nat, i: int, r: Rec)
    requires Core(st) && TargetAt(st, j, i, r)
    ensures r in st.contents && r.file in st.jobs[j].outputs && r.file !in st.pendingLsm
    ensures forall j', i' | TargetAt(st, j', i', r) :: j' == j
  {
    assert JobOk(st, st.jobs[j]) && BatchOk(st, st.jobs[j], st.jobs[j].batches[i]);
    forall j', i' | TargetAt(st, j', i', r) ensures j' == j {
      assert JobOk(st, st.jobs[j']) && BatchOk(st, st.jobs[j'], st.jobs[j'].batches[i']);
      assert j' != j ==> Apart(st.jobs[j], st.jobs[j']);
    }
  }

  /** Steps that leave references, records and marks alone, and change no job's rewrites. */
  lemma SameMarks(st: State, st': State)
    requires BitsOk(st) && st'.lsm == st.lsm && st'.contents == st.contents && st'.pendingLsm == st.pendingLsm
    requires st'.unplaced == st.unplaced && st'.announced == st.announced && st'.bits == st.bits
    requires forall j | j in st'.jobs ::
               j in st.jobs && st'.jobs[j].batches == st.jobs[j].batches && st'.jobs[j].bits == st.jobs[j].bits
    ensures BitsOk(st')
  {
    assert forall j, i, r | TargetAt(st', j, i, r) :: TargetAt(st, j, i, r);
    forall r | Gone(st', r) ensures GoneOk(st', r) { assert Gone(st, r); }
    forall r | r in st'.unplaced ensures UnplacedOk(st', r) { assert UnplacedOk(st, r); }
  }

  lemma InstallBits(st: State, j: nat)
    requires BitsOk(st) && j in st.jobs
    ensures BitsOk(InstallOutputs(st, j))
  {
    SameMarks(st, InstallOutputs(st, j));
  }

  lemma SyncJobBits(st: State, j: nat)
    requires BitsOk(st) && j in st.jobs
    ensures BitsOk(st.(durable := |st.log|, jobs := st.jobs[j := st.jobs[j].(phase := Deleting)]))
  {
    SameMarks(st, st.(durable := |st.log|, jobs := st.jobs[j := st.jobs[j].(phase := Deleting)]));
  }

  lemma DeleteInputsBits(st: State, j: nat)
    requires BitsOk(st) && j in st.jobs
    ensures BitsOk(DeleteInputs(st, j))
  {
    SameMarks(st, DeleteInputs(st, j));
  }

  lemma AbortBits(st: State, j: nat)
    requires BitsOk(st)
    ensures BitsOk(st.(jobs := st.jobs - {j}))
  {
    SameMarks(st, st.(jobs := st.jobs - {j}));
  }

  lemma PlainWriteBits(st: State, op: Op, e: Entry)
    requires BitsOk(st) && !e.Blob?
    ensures BitsOk(Append(st, op, e))
  {
    var st' := Append(st, op, e);
    assert forall r | Unreferenced(st, r) :: Unreferenced(st', r);
    assert forall j, i, r | TargetAt(st', j, i, r) :: TargetAt(st, j, i, r);
    forall r | Gone(st', r) ensures GoneOk(st', r) { assert Gone(st, r); }
    forall r | r in st'.unplaced ensures UnplacedOk(st', r) { assert UnplacedOk(st, r); }
  }

  lemma BuildFinishBits(st: State, f: File, records: map<nat, Record>)
    requires Inv(st) && f in st.reserved
    ensures BitsOk(FinishBuild(st, f, records))
  {
    var st' := FinishBuild(st, f, records);
    var written := FileRecords(f, records);
    assert forall r | r in written :: r.file == f && r !in st.contents;
    assert forall j, i, r | TargetAt(st', j, i, r) :: TargetAt(st, j, i, r);
    forall r | Gone(st', r) ensures GoneOk(st', r) { assert Gone(st, r) && GoneOk(st, r); }
    forall r | r in st'.unplaced ensures UnplacedOk(st', r) {
      if r in st.unplaced {
        assert UnplacedOk(st, r);
      } else {
        forall v | v in st.lsm ensures st.lsm[v] != Blob(r) { assert RefOk(st, v); }
      }
    }
  }

  lemma BuildDoneBits(st: State, f: File)
    requires BitsOk(st)
    ensures BitsOk(DoneBuilding(st, f))
  {
    var st' := DoneBuilding(st, f);
    assert forall j, i, r | TargetAt(st', j, i, r) :: TargetAt(st, j, i, r);
    forall r | Gone(st', r) ensures GoneOk(st', r) { assert Gone(st, r); }
    forall r | r in st'.unplaced ensures UnplacedOk(st', r) { assert UnplacedOk(st, r); }
  }

  /** The one version that referred to a record is gone: nothing refers to it any more. */
  lemma LastReference(st: State, v: Version, e: Entry, r: Rec)
    requires Single(st) && v in st.lsm && st.lsm[v] == Blob(r) && e != Blob(r)
    ensures Unreferenced(st.(lsm := st.lsm[v := e]), r) && Unreferenced(st.(lsm := st.lsm - {v}), r)
  {}

  lemma RelocateBits(st: State, v: Version, e: Entry, reported: bool)
    requires Inv(st) && CanRelocate(st, v, e)
    ensures BitsOk(RelocateEntry(st, v, e, reported))
  {
    var st' := RelocateEntry(st, v, e, reported);
    if e.Blob? { assert UnplacedOk(st, e.rec); }
    assert forall r | Unreferenced(st, r) && e != Blob(r) :: Unreferenced(st', r);
    forall j, i, r | TargetAt(st', j, i, r) ensures Unreferenced(st', r) {
      assert TargetAt(st, j, i, r);
      TargetFile(st, j, i, r);
    }
    forall r | Gone(st', r) ensures GoneOk(st', r) {
      if Gone(st, r) {
        assert GoneOk(st, r);
        assert forall j, i | TargetAt(st', j, i, r) :: TargetAt(st, j, i, r);
      } else {
        DroppedIsGone(st, v, r);
        LastReference(st, v, e, r);
        assert forall j, i | TargetAt(st', j, i, r) :: TargetAt(st, j, i, r);
      }
    }
    forall r | r in st'.unplaced ensures UnplacedOk(st', r) { assert UnplacedOk(st, r); }
    assert forall j, i, r | TargetAt(st', j, i, r) :: TargetAt(st, j, i, r);
  }

  /** A record that a version refers to is nowhere else: it is placed, and no rewrite points at it. */
  lemma DroppedIsGone(st: State, v: Version, r: Rec)
    requires Inv(st) && v in st.lsm && st.lsm[v] == Blob(r)
    ensures r in st.contents && r !in st.unplaced && forall j, i :: !TargetAt(st, j, i, r)
  {
    assert RefOk(st, v);
    assert r in st.unplaced ==> UnplacedOk(st, r);
  }

  lemma DropBits(st: State, v: Version, reported: bool)
    requires Inv(st) && v in st.lsm
    ensures BitsOk(DropVersion(st, v, reported))
  {
    var st' := DropVersion(st, v, reported);
    assert forall r | Unreferenced(st, r) :: Unreferenced(st', r);
    assert forall j, i, r | TargetAt(st', j, i, r) :: TargetAt(st, j, i, r);
    forall r | Gone(st', r) ensures GoneOk(st', r) {
      if Gone(st, r) {
        assert GoneOk(st, r);
      } else {
        DroppedIsGone(st, v, r);
        LastReference(st, v, Tombstone, r);
      }
    }
    forall r | r in st'.unplaced ensures UnplacedOk(st', r) { assert UnplacedOk(st, r); }
  }

  lemma CallbackBits(st: State, dropped: set<Rec>)
    requires BitsOk(st) && dropped <= st.announced
    ensures BitsOk(SetBits(st, dropped))
  {
    var st' := SetBits(st, dropped);
    assert forall j, i, r | TargetAt(st', j, i, r) :: TargetAt(st, j, i, r);
    forall r | Gone(st', r) ensures GoneOk(st', r) { assert Gone(st, r) && GoneOk(st, r); }
    forall r | r in st'.unplaced ensures UnplacedOk(st', r) { assert UnplacedOk(st, r); }
  }

  lemma GcBeginBits(st: State, j: nat, inputs: set<File>, todo: seq<Rec>, fallback: bool, useBitmap: bool)
    requires BitsOk(st) && j !in st.jobs
    ensures BitsOk(BeginJob(st, j, inputs, todo, fallback, useBitmap))
  {
    var st' := BeginJob(st, j, inputs, todo, fallback, useBitmap);
    assert forall j, i, r | TargetAt(st', j, i, r) :: TargetAt(st, j, i, r);
    forall r | Gone(st', r) ensures GoneOk(st', r) { assert Gone(st, r); }
    forall r | r in st'.unplaced ensures UnplacedOk(st', r) { assert UnplacedOk(st, r); }
  }

  /** A job that queues `b`, whose target, if it has one, was written for it just now. */
  lemma QueueBits(st: State, st': State, j: nat, b: Rewrite)
    requires Inv(st) && j in st.jobs && st'.jobs.Keys == st.jobs.Keys
    requires st'.lsm == st.lsm && st'.pendingLsm == st.pendingLsm && st'.unplaced == st.unplaced
    requires st'.announced == st.announced && st'.bits == st.bits
    requires st'.jobs[j].batches == st.jobs[j].batches + [b] && st'.jobs[j].bits == st.jobs[j].bits
    requires forall i | i in st.jobs && i != j :: st'.jobs[i] == st.jobs[i]
    requires forall r | r in st.contents :: r in st'.contents
    requires b.entry.Blob? ==> b.entry.rec !in st.contents
    ensures BitsOk(st')
  {
    QueuedTargets(st, st', j, b);
    forall r | Gone(st', r) ensures GoneOk(st', r) { assert Gone(st, r) && GoneOk(st, r); }
    forall r | r in st'.unplaced ensures UnplacedOk(st', r) { assert UnplacedOk(st, r); }
    forall i | i in st'.jobs ensures st'.jobs[i].bits <= st'.bits { assert st.jobs[i].bits <= st.bits; }
  }

  lemma QueuedTargets(st: State, st': State, j: nat, b: Rewrite)
    requires Core(st) && TargetsOk(st) && j in st.jobs && st'.jobs.Keys == st.jobs.Keys && st'.lsm == st.lsm
    requires st'.jobs[j].batches == st.jobs[j].batches + [b]
    requires forall i | i in st.jobs && i != j :: st'.jobs[i] == st.jobs[i]
    requires b.entry.Blob? ==> b.entry.rec !in st.contents
    ensures TargetsOk(st')
    ensures forall i, k, r | TargetAt(st', i, k, r) :: TargetAt(st, i, k, r) || r !in st.contents
  {
    var n := |st.jobs[j].batches|;
    forall i, k, r | TargetAt(st', i, k, r)
      ensures TargetAt(st, i, k, r) || (i == j && k == n && b.entry == Blob(r) && r !in st.contents)
    {}
    forall i, k, r | TargetAt(st', i, k, r) ensures Unreferenced(st', r) {
      forall v | v in st.lsm ensures st.lsm[v] != Blob(r) { assert RefOk(st, v); }
    }
    forall i, k, k', r | TargetAt(st', i, k, r) && TargetAt(st', i, k', r) ensures k == k' {
      if TargetAt(st, i, k, r) { TargetFile(st, i, k, r); }
      if TargetAt(st, i, k', r) { TargetFile(st, i, k', r); }
    }
  }

  /** The scan moved on and queued nothing. */
  lemma PassBits(st: State, j: nat, job': Job)
    requires BitsOk(st) && j in st.jobs && job'.batches == st.jobs[j].batches && job'.bits == st.jobs[j].bits
    ensures BitsOk(st.(jobs := st.jobs[j := job']))
  {
    SameMarks(st, st.(jobs := st.jobs[j := job']));
  }

  lemma InlineBits(st: State, j: nat, job': Job, b: Rewrite)
    requires Inv(st) && j in st.jobs && !b.entry.Blob?
    requires job'.batches == st.jobs[j].batches + [b] && job'.bits == st.jobs[j].bits
    ensures BitsOk(st.(jobs := st.jobs[j := job']))
  {
    QueueBits(st, st.(jobs := st.jobs[j := job']), j, b);
  }

  lemma CopyBits(st: State, j: nat, out: Rec, record: Record, newFile: bool, job': Job, b: Rewrite)
    requires Inv(st) && CanCopy(st, j, out, newFile) && b.entry == Blob(out)
    requires job'.batches == st.jobs[j].batches + [b] && job'.bits == st.jobs[j].bits
    ensures var mid := CopyRecord(st, j, out, record, newFile); BitsOk(mid.(jobs := mid.jobs[j := job']))
  {
    var mid := CopyRecord(st, j, out, record, newFile);
    QueueBits(st, mid.(jobs := mid.jobs[j := job']), j, b);
  }

  lemma GcScanCopyBits(st: State, j: nat, rotate: bool, offset: nat)
    requires Inv(st) && ScanCopies(st, j, rotate, offset)
    ensures BitsOk(Scan(st, j, rotate, offset))
  {
    var (job, r) := (st.jobs[j], st.jobs[j].todo[0]);
    var (out, newFile) := CopyTarget(st, job, rotate, offset);
    var b := Rewrite(st.contents[r].key, r, Blob(out));
    var mid := CopyRecord(st, j, out, st.contents[r], newFile);
    var job' := mid.jobs[j].(todo := job.todo[1..], lastKey := Some(st.contents[r].key), lastFresh := !job.useBitmap,
                             batches := job.batches + [b]);
    CopyTargetOk(st, j, rotate, offset);
    CopyBits(st, j, out, st.contents[r], newFile, job', b);
    ScanAsCopy(st, j, rotate, offset);
  }

  lemma GcScanBits(st: State, j: nat, rotate: bool, offset: nat)
    requires Inv(st) && CanScan(st, j, rotate, offset)
    ensures BitsOk(Scan(st, j, rotate, offset))
  {
    var (job, r) := (st.jobs[j], st.jobs[j].todo[0]);
    var record := st.contents[r];
    var rest := job.(todo := job.todo[1..]);
    var seen := rest.(lastKey := Some(record.key), lastFresh := false);
    if OlderVersion(job, record.key) {
      PassBits(st, j, rest);
    } else if (if job.useBitmap then r in job.bits else !PointsAt(st, record.key, r)) {
      PassBits(st, j, seen);
    } else if job.fallback {
      var b := Rewrite(record.key, r, Inline(record.value));
      InlineBits(st, j, seen.(lastFresh := !job.useBitmap, batches := job.batches + [b]), b);
    } else {
      GcScanCopyBits(st, j, rotate, offset);
    }
  }

  /** Taking the first rewrite off a job's list, once its target may no longer be one. */
  lemma PopBits(st: State, j: nat)
    requires BitsOk(st) && j in st.jobs && st.jobs[j].batches != []
    ensures BitsOk(PopBatch(st, j))
  {
    var st' := PopBatch(st, j);
    forall i, k, r | TargetAt(st', i, k, r) ensures TargetAt(st, i, if i == j then k + 1 else k, r) {}
    forall i, k, k', r | TargetAt(st', i, k, r) && TargetAt(st', i, k', r) ensures k == k' {
      assert TargetAt(st, i, if i == j then k + 1 else k, r) && TargetAt(st, i, if i == j then k' + 1 else k', r);
    }
    forall r | Gone(st', r) ensures GoneOk(st', r) { assert Gone(st, r); }
    forall r | r in st'.unplaced ensures UnplacedOk(st', r) { assert UnplacedOk(st, r); }
  }

  /** After the pop, the target of the popped rewrite is nobody's. */
  lemma PoppedTarget(st: State, j: nat, r: Rec)
    requires Inv(st) && TargetAt(st, j, 0, r)
    ensures forall i, k :: !TargetAt(PopBatch(st, j), i, k, r)
    ensures r in st.contents && r !in st.unplaced && !Gone(st, r) && Unreferenced(st, r)
  {
    TargetFile(st, j, 0, r);
    assert r in st.unplaced ==> UnplacedOk(st, r);
    assert Gone(st, r) ==> GoneOk(st, r);
    assert forall i, k | TargetAt(PopBatch(st, j), i, k, r) :: TargetAt(st, i, if i == j then k + 1 else k, r);
  }

  /** A write gives a free record its one reference. */
  lemma PlaceBits(st: State, op: Op, out: Rec)
    requires BitsOk(st) && Unreferenced(st, out) && !Gone(st, out) && out !in st.unplaced
    requires forall i, k :: !TargetAt(st, i, k, out)
    ensures BitsOk(Append(st, op, Blob(out)))
  {
    var st' := Append(st, op, Blob(out));
    assert forall i, k, r | TargetAt(st', i, k, r) :: TargetAt(st, i, k, r);
    assert forall r | Unreferenced(st, r) && r != out :: Unreferenced(st', r);
    forall r | Gone(st', r) ensures GoneOk(st', r) { assert Gone(st, r) && GoneOk(st, r); }
    forall r | r in st'.unplaced ensures UnplacedOk(st', r) { assert UnplacedOk(st, r); }
  }

  /** The re-point goes through: its target gets its one reference. */
  lemma RepointBits(st: State, j: nat)
    requires Inv(st) && JobIn(st, j, Rewriting) && st.jobs[j].batches != []
    ensures var b := st.jobs[j].batches[0]; BitsOk(PopBatch(Append(st, Moved(b.key), b.entry), j))
  {
    var b := st.jobs[j].batches[0];
    PopBits(st, j);
    if b.entry.Blob? {
      assert TargetAt(st, j, 0, b.entry.rec);
      PoppedTarget(st, j, b.entry.rec);
      PlaceBits(PopBatch(st, j), Moved(b.key), b.entry.rec);
    } else {
      PlainWriteBits(PopBatch(st, j), Moved(b.key), b.entry);
    }
    assert PopBatch(Append(st, Moved(b.key), b.entry), j) == Append(PopBatch(st, j), Moved(b.key), b.entry);
  }

  /** The re-point is refused: its target is announced and never placed. */
  lemma SkipBits(st: State, j: nat)
    requires Inv(st) && JobIn(st, j, Rewriting) && st.jobs[j].batches != []
    ensures var b := st.jobs[j].batches[0];
            BitsOk(PopBatch(st.(announced := Announce(st, b.entry, st.jobs[j].useBitmap)), j))
  {
    var b := st.jobs[j].batches[0];
    var mid := PopBatch(st, j);
    var st' := PopBatch(st.(announced := Announce(st, b.entry, st.jobs[j].useBitmap)), j);
    PopBits(st, j);
    if b.entry.Blob? {
      assert TargetAt(st, j, 0, b.entry.rec);
      PoppedTarget(st, j, b.entry.rec);
    }
    assert forall i, k, r | TargetAt(st', i, k, r) :: TargetAt(mid, i, k, r);
    forall r | Gone(st', r) ensures GoneOk(st', r) {
      if Gone(mid, r) { assert GoneOk(mid, r); }
    }
    forall r | r in st'.unplaced ensures UnplacedOk(st', r) { assert UnplacedOk(mid, r); }
  }

  lemma GcRewriteBits(st: State, j: nat)
    requires Inv(st) && JobIn(st, j, Rewriting) && st.jobs[j].batches != []
    ensures BitsOk(RewriteNext(st, j))
  {
    RepointBits(st, j);
    SkipBits(st, j);
  }

  lemma CrashBits(st: State, n: SeqNo)
    requires BitsOk(st) && n <= |st.log|
    ensures BitsOk(Restart(st, n))
  {}
}
