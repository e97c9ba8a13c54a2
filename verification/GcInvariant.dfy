/**
 The inductive invariant of the GC step system, and what it gives: snapshot reads are exact,
 inputs are unreferenced when they are marked obsolete, and every crash point recovers.
 */
module GcInvariant {
  import opened Wrappers
  import opened GcProtocol

  // ---------------------------------------------------------------- the invariant

  ghost predicate WellFormed(st: State) {
    && st.durable <= |st.log|
    && (forall v | v in st.lsm :: 1 <= v.seqno <= |st.log|)
    && (forall i | 0 <= i < |st.snapshots| :: st.snapshots[i] <= |st.log|)
    && (forall i, j | 0 <= i < j < |st.snapshots| :: st.snapshots[i] <= st.snapshots[j])
  }

  ghost predicate FilesOk(st: State) {
    && st.loggedNext <= st.nextFile
    && (forall r | r in st.contents :: r.file < st.nextFile)
    && (forall f | f in st.live :: f < st.loggedNext)
    && (forall f | f in st.obsolete :: f < st.loggedNext)
    && st.live !! st.obsolete.Keys
    && st.pendingLsm <= st.live
    && (forall f | f in st.reserved :: f < st.nextFile && f !in st.live && f !in st.obsolete)
    && (forall r | r in st.contents :: r.file !in st.reserved)
  }

  /** A newer durable version hides `v` from the head and from every snapshot that outlives `f`. */
  ghost predicate Shadowed(st: State, v: Version, f: File) {
    exists q :: ShadowedBy(st, v, f, q)
  }

  ghost predicate ShadowedBy(st: State, v: Version, f: File, q: SeqNo) {
    && v.seqno < q <= st.durable
    && Version(v.key, q) in st.lsm
    && forall i | 0 <= i < |st.snapshots| ::
         v.seqno <= st.snapshots[i] < q ==> f in st.obsolete && st.snapshots[i] <= st.obsolete[f]
  }

  ghost predicate RefOk(st: State, v: Version)
    requires v in st.lsm
  {
    st.lsm[v].Blob? ==>
      var r := st.lsm[v].rec;
      && r in st.contents && st.contents[r].key == v.key
      && r.file < st.loggedNext
      && (r.file in st.live || Shadowed(st, v, r.file))
  }

  ghost predicate RefsOk(st: State) {
    forall v | v in st.lsm :: RefOk(st, v)
  }

  ghost predicate ValuesOk(st: State)
    requires WellFormed(st) && RefsOk(st)
  {
    forall v | v in st.lsm :: ValueOk(st, v)
  }

  ghost predicate ValueOk(st: State, v: Version)
    requires WellFormed(st) && v in st.lsm && RefOk(st, v)
  {
    Meaning(st.contents, st.lsm[v]) == UserValue(st.log, v.key, v.seqno)
  }

  /** Whatever compaction dropped, reading at `s` still means what the history says. */
  ghost predicate ViewOk(st: State, k: Key, s: SeqNo)
    requires WellFormed(st) && s <= |st.log|
  {
    var q := Newest(st.lsm, k, s);
    if q.None? then UserValue(st.log, k, s) == None
    else UserValue(st.log, k, q.value) == UserValue(st.log, k, s)
  }

  ghost predicate Viewed(st: State, s: SeqNo) {
    st.durable <= s || s in st.snapshots
  }

  ghost predicate ViewsOk(st: State)
    requires WellFormed(st)
  {
    forall k: Key, s: SeqNo | s <= |st.log| && Viewed(st, s) :: ViewOk(st, k, s)
  }

  /** Every version that points at `r` has a newer version of the same key, at most `bound`. */
  ghost predicate Dead(st: State, r: Rec, bound: SeqNo) {
    forall v | v in st.lsm && st.lsm[v] == Blob(r) :: Superseded(st, v, bound)
  }

  ghost predicate Superseded(st: State, v: Version, bound: SeqNo) {
    exists q :: v.seqno < q <= bound && Version(v.key, q) in st.lsm
  }

  ghost predicate InBatches(job: Job, r: Rec) {
    exists i :: 0 <= i < |job.batches| && job.batches[i].from == r
  }

  ghost predicate InputRec(st: State, job: Job, r: Rec) {
    r in st.contents && r.file in job.inputs
  }

  ghost predicate BatchOk(st: State, job: Job, b: Rewrite) {
    && InputRec(st, job, b.from)
    && st.contents[b.from].key == b.key
    && match b.entry
       case Tombstone => false
       case Inline(v) => v == st.contents[b.from].value
       case Blob(r) => r.file in job.outputs && r in st.contents && st.contents[r] == st.contents[b.from]
  }

  ghost predicate CoverOk(st: State, job: Job) {
    match job.phase
    case Deleting => forall r | InputRec(st, job, r) :: Dead(st, r, st.durable)
    case _ =>
      && (forall r | InputRec(st, job, r) :: r in job.todo || InBatches(job, r) || Dead(st, r, |st.log|))
      && (job.lastFresh && job.lastKey.Some? ==>
            forall r | InputRec(st, job, r) && st.contents[r].key == job.lastKey.value ::
              InBatches(job, r) || Dead(st, r, |st.log|))
  }

  ghost predicate JobFilesOk(st: State, job: Job) {
    && job.inputs <= st.live
    && job.inputs !! st.pendingLsm && job.outputs !! st.pendingLsm && job.outputs !! job.inputs
    && (forall f | f in job.outputs :: f < st.nextFile && f !in st.reserved && f !in st.obsolete)
    && (job.current.Some? ==> job.current.value in job.outputs)
    && (if job.phase.Scanning? then job.outputs !! st.live else job.outputs <= st.live && job.todo == [])
    && (job.phase.Deleting? ==> job.batches == [])
  }

  ghost predicate JobOk(st: State, job: Job) {
    && JobFilesOk(st, job)
    && (forall i | 0 <= i < |job.todo| :: InputRec(st, job, job.todo[i]))
    && (forall i | 0 <= i < |job.batches| :: BatchOk(st, job, job.batches[i]))
    && CoverOk(st, job)
  }

  ghost predicate Apart(a: Job, b: Job) {
    a.inputs !! b.inputs && a.outputs !! b.outputs && a.inputs !! b.outputs && a.outputs !! b.inputs
  }

  ghost predicate JobsOk(st: State) {
    && (forall j | j in st.jobs :: JobOk(st, st.jobs[j]))
    && (forall i, j | i in st.jobs && j in st.jobs && i != j :: Apart(st.jobs[i], st.jobs[j]))
  }

  /** The tree, its references and its meaning. */
  ghost predicate TreeOk(st: State) {
    WellFormed(st) && RefsOk(st) && ValuesOk(st) && ViewsOk(st)
  }

  ghost predicate Core(st: State) {
    TreeOk(st) && FilesOk(st) && JobsOk(st)
  }

  // ---------------------------------------------------------------- facts about histories

  lemma {:induction false} UserValueExtends(log: seq<Op>, more: seq<Op>, k: Key, s: SeqNo)
    requires s <= |log|
    ensures UserValue(log + more, k, s) == UserValue(log, k, s)
  {
    if s > 0 {
      assert (log + more)[s - 1] == log[s - 1];
      UserValueExtends(log, more, k, s - 1);
    }
  }

  /** Two trees that agree on the versions of `k` up to `s` have the same newest one. */
  lemma NewestAgrees(a: map<Version, Entry>, b: map<Version, Entry>, k: Key, s: SeqNo)
    requires forall q | 0 <= q <= s :: Version(k, q) in a <==> Version(k, q) in b
    ensures Newest(a, k, s) == Newest(b, k, s)
  {
    var x, y := Newest(a, k, s), Newest(b, k, s);
    if x.Some? { assert Version(k, x.value) in b; }
    if y.Some? { assert Version(k, y.value) in a; }
  }

  // ---------------------------------------------------------------- writes

  /** A write of `op` with entry `e` that no GC input file can receive a reference from. */
  ghost predicate GoodWrite(st: State, op: Op, e: Entry)
    requires Core(st)
  {
    && (e.Blob? ==> && e.rec in st.contents && st.contents[e.rec].key == op.key
                    && e.rec.file in st.live
                    && forall j | j in st.jobs :: e.rec.file !in st.jobs[j].inputs)
    && Meaning(st.contents, e) == UserValue(st.log + [op], op.key, |st.log| + 1)
  }

  lemma AppendRefs(st: State, op: Op, e: Entry)
    requires Core(st) && GoodWrite(st, op, e)
    ensures RefsOk(Append(st, op, e))
  {
    var st' := Append(st, op, e);
    forall v | v in st'.lsm ensures RefOk(st', v) {
      if v in st.lsm && v.seqno <= |st.log| {
        assert RefOk(st, v);
        if st.lsm[v].Blob? && st.lsm[v].rec.file !in st.live {
          var f := st.lsm[v].rec.file;
          var q :| ShadowedBy(st, v, f, q);
          assert ShadowedBy(st', v, f, q);
        }
      }
    }
  }

  lemma AppendViews(st: State, op: Op, e: Entry)
    requires Core(st) && GoodWrite(st, op, e)
    ensures WellFormed(Append(st, op, e)) && ViewsOk(Append(st, op, e))
  {
    var st' := Append(st, op, e);
    var n := |st.log|;
    forall k: Key, s: SeqNo | s <= |st'.log| && Viewed(st', s) ensures ViewOk(st', k, s) {
      var t := if s <= n then s else n;
      assert Viewed(st, t) && ViewOk(st, k, t);
      NewestAgrees(st.lsm, st'.lsm, k, t);
      UserValueExtends(st.log, [op], k, t);
      var q := Newest(st.lsm, k, t);
      if q.Some? { UserValueExtends(st.log, [op], k, q.value); }
      if s == n + 1 {
        assert st'.log[n] == op;
      }
    }
  }

  lemma AppendCover(st: State, op: Op, e: Entry, job: Job)
    requires Core(st) && GoodWrite(st, op, e)
    requires CoverOk(st, job) && (e.Blob? ==> e.rec.file !in job.inputs)
    ensures CoverOk(Append(st, op, e), job)
  {
    var st' := Append(st, op, e);
    forall r, bound | InputRec(st, job, r) && Dead(st, r, bound) ensures Dead(st', r, bound) {
      forall v | v in st'.lsm && st'.lsm[v] == Blob(r) ensures Superseded(st', v, bound) {
        assert v in st.lsm && Superseded(st, v, bound);
        var q :| v.seqno < q <= bound && Version(v.key, q) in st.lsm;
        assert Version(v.key, q) in st'.lsm;
      }
    }
    assert forall r | Dead(st', r, |st.log|) :: Dead(st', r, |st'.log|) by { DeadWeakens(st', |st.log|, |st'.log|); }
  }

  lemma DeadWeakens(st: State, a: SeqNo, b: SeqNo)
    requires a <= b
    ensures forall r | Dead(st, r, a) :: Dead(st, r, b)
  {
    forall r | Dead(st, r, a) ensures Dead(st, r, b) {
      forall v | v in st.lsm && st.lsm[v] == Blob(r) ensures Superseded(st, v, b) {
        assert Superseded(st, v, a);
      }
    }
  }

  lemma AppendInv(st: State, op: Op, e: Entry)
    requires Core(st) && GoodWrite(st, op, e)
    ensures Core(Append(st, op, e))
  {
    var st' := Append(st, op, e);
    AppendRefs(st, op, e);
    AppendViews(st, op, e);
    forall v | v in st'.lsm ensures ValueOk(st', v) {
      if v in st.lsm && v.seqno <= |st.log| {
        assert ValueOk(st, v);
        UserValueExtends(st.log, [op], v.key, v.seqno);
      }
    }
    forall j | j in st'.jobs ensures JobOk(st', st'.jobs[j]) {
      assert JobOk(st, st.jobs[j]);
      AppendCover(st, op, e, st.jobs[j]);
    }
  }

  // ---------------------------------------------------------------- log, snapshots, purge

  lemma SyncInv(st: State, n: SeqNo)
    requires Core(st) && st.durable <= n <= |st.log|
    ensures Core(st.(durable := n))
  {
    var st' := st.(durable := n);
    forall v | v in st'.lsm ensures RefOk(st', v) {
      assert RefOk(st, v);
      if st.lsm[v].Blob? && st.lsm[v].rec.file !in st.live {
        var q :| ShadowedBy(st, v, st.lsm[v].rec.file, q);
        assert ShadowedBy(st', v, st.lsm[v].rec.file, q);
      }
    }
    forall v | v in st'.lsm ensures ValueOk(st', v) { assert ValueOk(st, v); }
    forall k: Key, s: SeqNo | s <= |st'.log| && Viewed(st', s) ensures ViewOk(st', k, s) {
      assert Viewed(st, s) && ViewOk(st, k, s);
    }
    DeadWeakens(st, st.durable, n);
    forall j | j in st'.jobs ensures JobOk(st', st'.jobs[j]) {
      assert JobOk(st, st.jobs[j]);
      assert forall r, b :: Dead(st, r, b) ==> Dead(st', r, b) by { SameTreeDead(st, st'); }
    }
  }

  /** Deadness looks at nothing but the tree. */
  lemma SameTreeDead(st: State, st': State)
    requires st.lsm == st'.lsm
    ensures forall r, b :: Dead(st, r, b) ==> Dead(st', r, b)
  {
    forall r, b | Dead(st, r, b) ensures Dead(st', r, b) {
      forall v | v in st'.lsm && st'.lsm[v] == Blob(r) ensures Superseded(st', v, b) {
        assert Superseded(st, v, b);
      }
    }
  }

  /** Changing only snapshots and obsolete files keeps everything but the references. */
  lemma SnapshotsInv(st: State, st': State)
    requires Core(st)
    requires st' == st.(snapshots := st'.snapshots, obsolete := st'.obsolete)
    requires st'.obsolete.Keys <= st.obsolete.Keys
    requires WellFormed(st') && RefsOk(st')
    requires forall s | s in st'.snapshots :: Viewed(st, s)
    ensures Core(st')
  {
    forall v | v in st'.lsm ensures ValueOk(st', v) { assert ValueOk(st, v); }
    forall k: Key, s: SeqNo | s <= |st'.log| && Viewed(st', s) ensures ViewOk(st', k, s) {
      assert Viewed(st, s) && ViewOk(st, k, s);
    }
    forall j | j in st'.jobs ensures JobOk(st', st'.jobs[j]) {
      assert JobOk(st, st.jobs[j]);
      SameTreeDead(st, st');
    }
  }

  lemma TakeSnapshotInv(st: State)
    requires Core(st)
    ensures Core(st.(snapshots := st.snapshots + [|st.log|]))
  {
    var st' := st.(snapshots := st.snapshots + [|st.log|]);
    forall v | v in st'.lsm ensures RefOk(st', v) {
      assert RefOk(st, v);
      if st.lsm[v].Blob? && st.lsm[v].rec.file !in st.live {
        var q :| ShadowedBy(st, v, st.lsm[v].rec.file, q);
        assert ShadowedBy(st', v, st.lsm[v].rec.file, q);
      }
    }
    SnapshotsInv(st, st');
  }

  lemma ReleaseSnapshotInv(st: State, i: nat)
    requires Core(st) && i < |st.snapshots|
    ensures Core(st.(snapshots := st.snapshots[..i] + st.snapshots[i + 1..]))
  {
    var st' := st.(snapshots := st.snapshots[..i] + st.snapshots[i + 1..]);
    forall k | 0 <= k < |st'.snapshots|
      ensures st'.snapshots[k] == st.snapshots[if k < i then k else k + 1] {}
    forall v | v in st'.lsm ensures RefOk(st', v) {
      assert RefOk(st, v);
      if st.lsm[v].Blob? && st.lsm[v].rec.file !in st.live {
        var q :| ShadowedBy(st, v, st.lsm[v].rec.file, q);
        assert ShadowedBy(st', v, st.lsm[v].rec.file, q);
      }
    }
    SnapshotsInv(st, st');
  }

  lemma PurgeInv(st: State)
    requires Core(st)
    ensures Core(PurgeFiles(st))
  {
    var st' := PurgeFiles(st);
    forall v | v in st'.lsm ensures RefOk(st', v) {
      assert RefOk(st, v);
      if st.lsm[v].Blob? && st.lsm[v].rec.file !in st.live {
        var f := st.lsm[v].rec.file;
        var q :| ShadowedBy(st, v, f, q);
        assert ShadowedBy(st', v, f, q);
      }
    }
    SnapshotsInv(st, st');
  }

  // ---------------------------------------------------------------- flush and compaction

  lemma BuildBeginInv(st: State)
    requires Core(st)
    ensures Core(st.(reserved := st.reserved + {st.nextFile}, nextFile := st.nextFile + 1))
  {
    var st' := st.(reserved := st.reserved + {st.nextFile}, nextFile := st.nextFile + 1);
    SameTree(st, st');
    assert forall j | j in st.jobs :: JobFilesOk(st', st.jobs[j]) by {
      assert forall j | j in st.jobs :: JobFilesOk(st, st.jobs[j]) by {
        assert forall j | j in st.jobs :: JobOk(st, st.jobs[j]);
      }
    }
    JobsKept(st, st');
  }

  /** Steps that keep tree, history and snapshots, and only add files and records. */
  lemma SameTree(st: State, st': State)
    requires TreeOk(st)
    requires st'.log == st.log && st'.durable == st.durable && st'.lsm == st.lsm && st'.snapshots == st.snapshots
    requires st'.obsolete == st.obsolete && st.live <= st'.live && st.loggedNext <= st'.loggedNext
    requires forall r | r in st.contents :: r in st'.contents && st'.contents[r] == st.contents[r]
    ensures TreeOk(st')
  {
    forall v | v in st'.lsm ensures RefOk(st', v) {
      assert RefOk(st, v);
      if st.lsm[v].Blob? && st.lsm[v].rec.file !in st.live {
        var q :| ShadowedBy(st, v, st.lsm[v].rec.file, q);
        assert ShadowedBy(st', v, st.lsm[v].rec.file, q);
      }
    }
    forall v | v in st'.lsm ensures ValueOk(st', v) { assert ValueOk(st, v); }
    forall k: Key, s: SeqNo | s <= |st'.log| && Viewed(st', s) ensures ViewOk(st', k, s) {
      assert Viewed(st, s) && ViewOk(st, k, s);
    }
  }

  /** A job keeps its invariant when its input records and its own fields stay as they are. */
  lemma JobKept(st: State, st': State, job: Job)
    requires JobOk(st, job) && JobFilesOk(st', job)
    requires st'.log == st.log && st'.durable == st.durable && st'.lsm == st.lsm
    requires forall r | r in st.contents :: r in st'.contents && st'.contents[r] == st.contents[r]
    requires forall r | InputRec(st', job, r) :: r in st.contents
    ensures JobOk(st', job)
  {
    SameTreeDead(st, st');
    forall i | 0 <= i < |job.batches| ensures BatchOk(st', job, job.batches[i]) {
      assert BatchOk(st, job, job.batches[i]);
    }
  }

  /** All jobs that are still there are as they were. */
  ghost predicate SameJobs(st: State, st': State) {
    forall j | j in st'.jobs :: j in st.jobs && st'.jobs[j] == st.jobs[j]
  }

  lemma JobsKept(st: State, st': State)
    requires JobsOk(st) && SameJobs(st, st')
    requires st'.log == st.log && st'.durable == st.durable && st'.lsm == st.lsm
    requires forall r | r in st.contents :: r in st'.contents && st'.contents[r] == st.contents[r]
    requires forall j | j in st'.jobs :: JobFilesOk(st', st.jobs[j])
    requires forall j, r | j in st'.jobs && InputRec(st', st.jobs[j], r) :: r in st.contents
    ensures JobsOk(st')
  {
    forall j | j in st'.jobs ensures JobOk(st', st'.jobs[j]) {
      assert JobOk(st, st.jobs[j]);
      JobKept(st, st', st.jobs[j]);
    }
  }

  lemma BuildFinishFiles(st: State, f: File, records: map<nat, Record>)
    requires FilesOk(st) && f in st.reserved
    ensures FilesOk(FinishBuild(st, f, records))
    ensures var st' := FinishBuild(st, f, records);
            && (forall r | r in st'.contents :: r in st.contents || r.file == f)
            && (forall r | r in st.contents :: r in st'.contents && st'.contents[r] == st.contents[r])
  {}

  lemma BuildFinishInv(st: State, f: File, records: map<nat, Record>)
    requires Core(st) && f in st.reserved
    ensures Core(FinishBuild(st, f, records))
  {
    var st' := FinishBuild(st, f, records);
    BuildFinishFiles(st, f, records);
    BuildFinishJobs(st, st', f);
    SameTree(st, st');
  }

  lemma BuildFinishJobs(st: State, st': State, f: File)
    requires JobsOk(st) && FilesOk(st) && f in st.reserved
    requires st' == st.(contents := st'.contents, live := st.live + {f}, pendingLsm := st.pendingLsm + {f},
                        reserved := st.reserved - {f}, loggedNext := st.nextFile, unplaced := st'.unplaced)
    requires forall r | r in st'.contents :: r in st.contents || r.file == f
    requires forall r | r in st.contents :: r in st'.contents && st'.contents[r] == st.contents[r]
    ensures JobsOk(st')
  {
    forall j | j in st.jobs ensures JobFilesOk(st', st.jobs[j]) {
      assert JobOk(st, st.jobs[j]);
    }
    JobsKept(st, st');
  }

  lemma BuildDoneInv(st: State, f: File)
    requires Core(st) && f in st.pendingLsm
    ensures Core(DoneBuilding(st, f))
  {
    var st' := DoneBuilding(st, f);
    SameTree(st, st');
    assert forall j | j in st.jobs :: JobFilesOk(st', st.jobs[j]) by {
      assert forall j | j in st.jobs :: JobFilesOk(st, st.jobs[j]) by {
        assert forall j | j in st.jobs :: JobOk(st, st.jobs[j]);
      }
    }
    JobsKept(st, st');
  }

  lemma RelocateTree(st: State, v: Version, e: Entry)
    requires TreeOk(st) && st.pendingLsm <= st.live && (forall f | f in st.live :: f < st.loggedNext)
    requires CanRelocate(st, v, e)
    ensures TreeOk(st.(lsm := st.lsm[v := e]))
  {
    var st' := st.(lsm := st.lsm[v := e]);
    forall w | w in st'.lsm ensures RefOk(st', w) {
      assert RefOk(st, w);
      if st'.lsm[w].Blob? && st'.lsm[w].rec.file !in st.live {
        var q :| ShadowedBy(st, w, st.lsm[w].rec.file, q);
        assert ShadowedBy(st', w, st.lsm[w].rec.file, q);
      }
    }
    forall w | w in st'.lsm ensures ValueOk(st', w) { assert ValueOk(st, w); }
    forall k: Key, s: SeqNo | s <= |st'.log| && Viewed(st', s) ensures ViewOk(st', k, s) {
      assert Viewed(st, s) && ViewOk(st, k, s);
      NewestAgrees(st.lsm, st'.lsm, k, s);
    }
  }

  /** Only the tree changed, and whatever was dead in some job's inputs still is. */
  lemma JobsWithTree(st: State, st': State)
    requires JobsOk(st) && st.durable <= |st.log| && st' == st.(lsm := st'.lsm)
    requires forall j, r, b: SeqNo |
               j in st.jobs && InputRec(st, st.jobs[j], r) && st.durable <= b && Dead(st, r, b) :: Dead(st', r, b)
    ensures JobsOk(st')
  {
    forall j | j in st.jobs ensures JobOk(st', st.jobs[j]) {
      var job := st.jobs[j];
      assert JobOk(st, job);
      forall i | 0 <= i < |job.batches| ensures BatchOk(st', job, job.batches[i]) {
        assert BatchOk(st, job, job.batches[i]);
      }
      assert forall i | 0 <= i < |job.todo| :: InputRec(st, job, job.todo[i]);
    }
  }

  lemma RelocateJobs(st: State, v: Version, e: Entry)
    requires JobsOk(st) && st.durable <= |st.log| && CanRelocate(st, v, e)
    ensures JobsOk(st.(lsm := st.lsm[v := e]))
  {
    var st' := st.(lsm := st.lsm[v := e]);
    forall j, r, b: SeqNo | j in st.jobs && InputRec(st, st.jobs[j], r) && st.durable <= b && Dead(st, r, b)
      ensures Dead(st', r, b)
    {
      assert JobFilesOk(st, st.jobs[j]) by { assert JobOk(st, st.jobs[j]); }
      forall w | w in st'.lsm && st'.lsm[w] == Blob(r) ensures Superseded(st', w, b) {
        assert Superseded(st, w, b);
      }
    }
    JobsWithTree(st, st');
  }

  /** Which records are unplaced, announced or marked does not matter to tree, files and jobs. */
  lemma MarksAside(st: State, st': State)
    requires Core(st) && st' == st.(unplaced := st'.unplaced, announced := st'.announced, bits := st'.bits)
    ensures Core(st')
  {
    SameTree(st, st');
    forall j | j in st.jobs ensures JobFilesOk(st', st.jobs[j]) {
      assert JobOk(st, st.jobs[j]);
    }
    JobsKept(st, st');
  }

  lemma RelocateInv(st: State, v: Version, e: Entry, reported: bool)
    requires Core(st) && CanRelocate(st, v, e)
    ensures Core(RelocateEntry(st, v, e, reported))
  {
    RelocateTree(st, v, e);
    RelocateJobs(st, v, e);
    MarksAside(st.(lsm := st.lsm[v := e]), RelocateEntry(st, v, e, reported));
  }

  /** Dropping `v` under a newer durable version leaves every other version as well hidden. */
  lemma DropRefs(st: State, v: Version, newer: SeqNo)
    requires TreeOk(st) && CanDropShadowed(st, v, newer)
    ensures RefsOk(st.(lsm := st.lsm - {v}))
  {
    var st' := st.(lsm := st.lsm - {v});
    forall w | w in st'.lsm ensures RefOk(st', w) {
      assert RefOk(st, w);
      if st'.lsm[w].Blob? && st'.lsm[w].rec.file !in st.live {
        var f := st.lsm[w].rec.file;
        var q :| ShadowedBy(st, w, f, q);
        assert ShadowedBy(st', w, f, if Version(w.key, q) == v then newer else q);
      }
    }
  }

  lemma DropShadowedTree(st: State, v: Version, newer: SeqNo)
    requires TreeOk(st) && CanDropShadowed(st, v, newer)
    ensures TreeOk(st.(lsm := st.lsm - {v}))
  {
    var st' := st.(lsm := st.lsm - {v});
    DropRefs(st, v, newer);
    forall w | w in st'.lsm ensures ValueOk(st', w) { assert ValueOk(st, w); }
    forall k: Key, s: SeqNo | s <= |st'.log| && Viewed(st', s) ensures ViewOk(st', k, s) {
      assert Viewed(st, s) && ViewOk(st, k, s);
      DropView(st, v, newer, k, s);
    }
  }

  lemma DropShadowedJobs(st: State, v: Version, newer: SeqNo)
    requires JobsOk(st) && st.durable <= |st.log| && CanDropShadowed(st, v, newer)
    ensures JobsOk(st.(lsm := st.lsm - {v}))
  {
    var st' := st.(lsm := st.lsm - {v});
    forall r, b: SeqNo | st.durable <= b && Dead(st, r, b) ensures Dead(st', r, b) {
      forall w | w in st'.lsm && st'.lsm[w] == Blob(r) ensures Superseded(st', w, b) {
        assert Superseded(st, w, b);
        var q :| w.seqno < q <= b && Version(w.key, q) in st.lsm;
        assert Version(w.key, if Version(w.key, q) == v then newer else q) in st'.lsm;
      }
    }
    JobsWithTree(st, st');
  }

  lemma DropShadowedInv(st: State, v: Version, newer: SeqNo, reported: bool)
    requires Core(st) && CanDropShadowed(st, v, newer)
    ensures Core(DropVersion(st, v, reported))
  {
    DropShadowedTree(st, v, newer);
    DropShadowedJobs(st, v, newer);
    MarksAside(st.(lsm := st.lsm - {v}), DropVersion(st, v, reported));
  }

  lemma DropView(st: State, v: Version, newer: SeqNo, k: Key, s: SeqNo)
    requires WellFormed(st) && CanDropShadowed(st, v, newer) && s <= |st.log| && Viewed(st, s)
    ensures Newest(st.lsm - {v}, k, s) == Newest(st.lsm, k, s)
  {
    var lsm' := st.lsm - {v};
    if k == v.key && v.seqno <= s {
      assert newer <= s;
      var x, y := Newest(st.lsm, k, s), Newest(lsm', k, s);
      assert Version(k, newer) in lsm';
      assert Version(k, x.value) in lsm' && Version(k, y.value) in st.lsm;
    } else {
      NewestAgrees(st.lsm, lsm', k, s);
    }
  }

  /** A version hidden by a tombstone keeps that tombstone, which is not the oldest of its key. */
  lemma TombstoneStillHides(st: State, v: Version)
    requires CanDropTombstone(st, v)
    ensures forall w, q: SeqNo | w in st.lsm - {v} && w.seqno < q && Version(w.key, q) in st.lsm ::
              Version(w.key, q) in st.lsm - {v}
  {
    forall w, q: SeqNo | w in st.lsm - {v} && w.seqno < q && Version(w.key, q) in st.lsm
      ensures Version(w.key, q) in st.lsm - {v}
    {
      assert Version(w.key, w.seqno) in st.lsm;
    }
  }

  lemma DropTombstoneTree(st: State, v: Version)
    requires TreeOk(st) && CanDropTombstone(st, v)
    ensures TreeOk(st.(lsm := st.lsm - {v}))
  {
    var st' := st.(lsm := st.lsm - {v});
    TombstoneStillHides(st, v);
    forall w | w in st'.lsm ensures RefOk(st', w) {
      assert RefOk(st, w);
      if st'.lsm[w].Blob? && st'.lsm[w].rec.file !in st.live {
        var q :| ShadowedBy(st, w, st.lsm[w].rec.file, q);
        assert ShadowedBy(st', w, st.lsm[w].rec.file, q);
      }
    }
    forall w | w in st'.lsm ensures ValueOk(st', w) { assert ValueOk(st, w); }
    forall k: Key, s: SeqNo | s <= |st'.log| && Viewed(st', s) ensures ViewOk(st', k, s) {
      assert Viewed(st, s) && ViewOk(st, k, s);
      TombstoneView(st, v, k, s);
    }
  }

  lemma DropTombstoneJobs(st: State, v: Version)
    requires JobsOk(st) && st.durable <= |st.log| && CanDropTombstone(st, v)
    ensures JobsOk(st.(lsm := st.lsm - {v}))
  {
    var st' := st.(lsm := st.lsm - {v});
    TombstoneStillHides(st, v);
    forall r, b: SeqNo | Dead(st, r, b) ensures Dead(st', r, b) {
      forall w | w in st'.lsm && st'.lsm[w] == Blob(r) ensures Superseded(st', w, b) {
        assert Superseded(st, w, b);
      }
    }
    JobsWithTree(st, st');
  }

  lemma DropTombstoneInv(st: State, v: Version)
    requires Core(st) && CanDropTombstone(st, v)
    ensures Core(DropVersion(st, v, false))
  {
    DropTombstoneTree(st, v);
    DropTombstoneJobs(st, v);
    MarksAside(st.(lsm := st.lsm - {v}), DropVersion(st, v, false));
  }

  lemma TombstoneView(st: State, v: Version, k: Key, s: SeqNo)
    requires TreeOk(st) && CanDropTombstone(st, v) && s <= |st.log| && ViewOk(st, k, s)
    ensures WellFormed(st.(lsm := st.lsm - {v})) && ViewOk(st.(lsm := st.lsm - {v}), k, s)
  {
    var st' := st.(lsm := st.lsm - {v});
    var x, y := Newest(st.lsm, k, s), Newest(st'.lsm, k, s);
    if x.Some? && Version(k, x.value) == v {
      assert ValueOk(st, v);
    } else {
      assert x.Some? ==> Version(k, x.value) in st'.lsm;
      assert y.Some? ==> Version(k, y.value) in st.lsm;
    }
  }

  // ---------------------------------------------------------------- GC jobs

  /** A record that the head of its key does not point at is dead. */
  lemma NotPointedDead(st: State, r: Rec)
    requires Core(st) && r in st.contents && !PointsAt(st, st.contents[r].key, r)
    ensures Dead(st, r, |st.log|)
  {
    forall v | v in st.lsm && st.lsm[v] == Blob(r) ensures Superseded(st, v, |st.log|) {
      assert RefOk(st, v);
      var q := Newest(st.lsm, v.key, |st.log|);
      assert Version(v.key, v.seqno) in st.lsm;
      assert Version(v.key, q.value) in st.lsm;
    }
  }

  /** Once a fresh record of a key is found, every other record of that key is dead for good. */
  lemma OthersDead(st: State, r: Rec, other: Rec)
    requires Core(st) && r in st.contents && other in st.contents && other != r
    requires st.contents[other].key == st.contents[r].key && PointsAt(st, st.contents[r].key, r)
    ensures Dead(st, other, |st.log|)
  {
    NotPointedDead(st, other);
  }

  lemma GcBeginJobs(st: State, j: nat, inputs: set<File>, todo: seq<Rec>, fallback: bool, useBitmap: bool)
    requires JobsOk(st) && CanBegin(st, j, inputs, todo)
    ensures JobsOk(BeginJob(st, j, inputs, todo, fallback, useBitmap))
  {
    var st' := BeginJob(st, j, inputs, todo, fallback, useBitmap);
    assert JobOk(st', st'.jobs[j]);
    forall i | i in st.jobs ensures JobOk(st', st.jobs[i]) {
      assert JobOk(st, st.jobs[i]);
      JobKept(st, st', st.jobs[i]);
    }
  }

  lemma GcBeginInv(st: State, j: nat, inputs: set<File>, todo: seq<Rec>, fallback: bool, useBitmap: bool)
    requires Core(st) && CanBegin(st, j, inputs, todo)
    ensures Core(BeginJob(st, j, inputs, todo, fallback, useBitmap))
  {
    SameTree(st, BeginJob(st, j, inputs, todo, fallback, useBitmap));
    GcBeginJobs(st, j, inputs, todo, fallback, useBitmap);
  }

  /** The scan moved past `r`, which is dead or already queued for rewriting. */
  lemma CoverPassed(st: State, job: Job, job': Job, r: Rec)
    requires JobOk(st, job) && job.phase.Scanning? && job.todo != [] && job.todo[0] == r
    requires job' == job.(todo := job.todo[1..], lastKey := job'.lastKey, lastFresh := job'.lastFresh)
    requires InBatches(job, r) || Dead(st, r, |st.log|)
    requires job'.lastFresh ==> job.lastFresh && job'.lastKey == job.lastKey
    ensures JobOk(st, job')
  {
    assert forall x :: x in job.todo ==> x == r || x in job'.todo;
    assert forall x :: InBatches(job, x) ==> InBatches(job', x);
  }

  /** The scan queued `b` for the live record at the front. */
  lemma CoverKept(st: State, job: Job, job': Job, b: Rewrite)
    requires Core(st) && JobOk(st, job) && job.phase.Scanning? && job.todo != [] && job.todo[0] == b.from
    requires job' == job.(todo := job.todo[1..], lastKey := Some(b.key), lastFresh := !job.useBitmap,
                          batches := job.batches + [b])
    requires BatchOk(st, job, b)
    requires !job.useBitmap ==> PointsAt(st, b.key, b.from)
    ensures JobOk(st, job')
  {
    assert job'.batches[|job.batches|].from == b.from;
    forall x | InBatches(job, x) ensures InBatches(job', x) {
      var i :| 0 <= i < |job.batches| && job.batches[i].from == x;
      assert job'.batches[i].from == x;
    }
    forall x | InputRec(st, job', x) && job'.lastFresh && st.contents[x].key == b.key
      ensures InBatches(job', x) || Dead(st, x, |st.log|)
    {
      if x != b.from { OthersDead(st, b.from, x); }
    }
    assert forall x :: x in job.todo ==> x == b.from || x in job'.todo;
    forall i | 0 <= i < |job'.batches| ensures BatchOk(st, job', job'.batches[i]) {
      assert i < |job.batches| ==> BatchOk(st, job, job.batches[i]);
    }
  }

  /** Replacing one job by another with the same files. */
  lemma JobReplacedJobs(st: State, j: nat, job': Job)
    requires JobsOk(st) && j in st.jobs && JobOk(st, job')
    requires job'.inputs == st.jobs[j].inputs && job'.outputs == st.jobs[j].outputs
    ensures JobsOk(st.(jobs := st.jobs[j := job']))
  {
    var st' := st.(jobs := st.jobs[j := job']);
    forall i | i in st'.jobs ensures JobOk(st', st'.jobs[i]) {
      assert JobOk(st, st'.jobs[i]);
      JobKept(st, st', st'.jobs[i]);
    }
    forall a, b | a in st'.jobs && b in st'.jobs && a != b ensures Apart(st'.jobs[a], st'.jobs[b]) {
      assert Apart(st.jobs[a], st.jobs[b]);
    }
  }

  lemma JobReplaced(st: State, j: nat, job': Job)
    requires Core(st) && j in st.jobs && JobOk(st, job')
    requires job'.inputs == st.jobs[j].inputs && job'.outputs == st.jobs[j].outputs
    ensures Core(st.(jobs := st.jobs[j := job']))
  {
    SameTree(st, st.(jobs := st.jobs[j := job']));
    JobReplacedJobs(st, j, job');
  }

  /** The record copied into an output file of job `j`, the file taken from the counter if new. */
  function CopyRecord(st: State, j: nat, out: Rec, record: Record, newFile: bool): State
    requires j in st.jobs
  {
    st.(contents := st.contents[out := record],
        nextFile := if newFile then st.nextFile + 1 else st.nextFile,
        jobs := st.jobs[j := st.jobs[j].(current := Some(out.file), outputs := st.jobs[j].outputs + {out.file})])
  }

  ghost predicate CanCopy(st: State, j: nat, out: Rec, newFile: bool) {
    && Core(st) && JobIn(st, j, Scanning) && out !in st.contents
    && if newFile then out.file == st.nextFile else out.file in st.jobs[j].outputs
  }

  lemma CopyRecordOwnJob(st: State, j: nat, out: Rec, record: Record, newFile: bool)
    requires CanCopy(st, j, out, newFile)
    ensures JobOk(CopyRecord(st, j, out, record, newFile), CopyRecord(st, j, out, record, newFile).jobs[j])
  {
    var st' := CopyRecord(st, j, out, record, newFile);
    var job, job' := st.jobs[j], st'.jobs[j];
    assert JobOk(st, job);
    SameTreeDead(st, st');
    assert forall x :: InBatches(job, x) ==> InBatches(job', x);
    forall n | 0 <= n < |job'.batches| ensures BatchOk(st', job', job'.batches[n]) {
      assert BatchOk(st, job, job.batches[n]);
    }
    assert forall x :: InputRec(st', job', x) ==> InputRec(st, job, x);
  }

  lemma CopyRecordOtherJob(st: State, j: nat, out: Rec, record: Record, newFile: bool, i: nat)
    requires CanCopy(st, j, out, newFile) && i in st.jobs && i != j
    ensures JobOk(CopyRecord(st, j, out, record, newFile), st.jobs[i])
    ensures Apart(st.jobs[i], CopyRecord(st, j, out, record, newFile).jobs[j])
    ensures Apart(CopyRecord(st, j, out, record, newFile).jobs[j], st.jobs[i])
  {
    assert JobOk(st, st.jobs[i]) && Apart(st.jobs[j], st.jobs[i]) && Apart(st.jobs[i], st.jobs[j]);
    JobKept(st, CopyRecord(st, j, out, record, newFile), st.jobs[i]);
  }

  lemma CopyRecordJobs(st: State, j: nat, out: Rec, record: Record, newFile: bool)
    requires CanCopy(st, j, out, newFile)
    ensures JobsOk(CopyRecord(st, j, out, record, newFile))
  {
    var st' := CopyRecord(st, j, out, record, newFile);
    CopyRecordOwnJob(st, j, out, record, newFile);
    forall i | i in st.jobs && i != j
      ensures JobOk(st', st'.jobs[i]) && Apart(st'.jobs[i], st'.jobs[j]) && Apart(st'.jobs[j], st'.jobs[i])
    {
      CopyRecordOtherJob(st, j, out, record, newFile, i);
    }
  }

  lemma CopyRecordInv(st: State, j: nat, out: Rec, record: Record, newFile: bool)
    requires CanCopy(st, j, out, newFile)
    ensures Core(CopyRecord(st, j, out, record, newFile))
  {
    SameTree(st, CopyRecord(st, j, out, record, newFile));
    CopyRecordJobs(st, j, out, record, newFile);
    assert JobFilesOk(st, st.jobs[j]) by { assert JobOk(st, st.jobs[j]); }
  }

  lemma GcScanInv(st: State, j: nat, rotate: bool, offset: nat)
    requires Core(st) && CanScan(st, j, rotate, offset)
    requires forall r | r in st.jobs[j].bits :: Unreferenced(st, r)
    ensures Core(Scan(st, j, rotate, offset))
  {
    var job := st.jobs[j];
    var r := job.todo[0];
    var record := st.contents[r];
    var rest := job.(todo := job.todo[1..]);
    var seen := rest.(lastKey := Some(record.key), lastFresh := false);
    if OlderVersion(job, record.key) {
      assert JobOk(st, job) && InputRec(st, job, r);
      GcScanPasses(st, j, rest);
    } else if (if job.useBitmap then r in job.bits else !PointsAt(st, record.key, r)) {
      if !job.useBitmap { NotPointedDead(st, r); }
      GcScanPasses(st, j, seen);
    } else if job.fallback {
      GcScanFallback(st, j);
    } else {
      GcScanCopies(st, j, rotate, offset);
    }
  }

  lemma GcScanPasses(st: State, j: nat, job': Job)
    requires Core(st) && JobIn(st, j, Scanning) && st.jobs[j].todo != []
    requires var job := st.jobs[j];
             && job' == job.(todo := job.todo[1..], lastKey := job'.lastKey, lastFresh := job'.lastFresh)
             && (InBatches(job, job.todo[0]) || Dead(st, job.todo[0], |st.log|))
             && (job'.lastFresh ==> job.lastFresh && job'.lastKey == job.lastKey)
    ensures Core(st.(jobs := st.jobs[j := job']))
  {
    assert JobOk(st, st.jobs[j]);
    CoverPassed(st, st.jobs[j], job', st.jobs[j].todo[0]);
    JobReplaced(st, j, job');
  }

  lemma GcScanFallback(st: State, j: nat)
    requires Core(st) && JobIn(st, j, Scanning) && st.jobs[j].todo != [] && st.jobs[j].todo[0] in st.contents
    requires var job, r := st.jobs[j], st.jobs[j].todo[0];
             !job.useBitmap ==> PointsAt(st, st.contents[r].key, r)
    ensures var job, r := st.jobs[j], st.jobs[j].todo[0];
            var b := Rewrite(st.contents[r].key, r, Inline(st.contents[r].value));
            Core(st.(jobs := st.jobs[j := job.(todo := job.todo[1..], lastKey := Some(b.key),
                                              lastFresh := !job.useBitmap, batches := job.batches + [b])]))
  {
    var job, r := st.jobs[j], st.jobs[j].todo[0];
    var b := Rewrite(st.contents[r].key, r, Inline(st.contents[r].value));
    var job' := job.(todo := job.todo[1..], lastKey := Some(b.key),
                     lastFresh := !job.useBitmap, batches := job.batches + [b]);
    assert JobOk(st, job) && InputRec(st, job, r);
    CoverKept(st, job, job', b);
    JobReplaced(st, j, job');
  }

  ghost predicate ScanCopies(st: State, j: nat, rotate: bool, offset: nat) {
    && CanScan(st, j, rotate, offset) && !st.jobs[j].fallback
    && var job, r := st.jobs[j], st.jobs[j].todo[0];
       && !OlderVersion(job, st.contents[r].key)
       && if job.useBitmap then r !in job.bits else PointsAt(st, st.contents[r].key, r)
  }

  /** Where the scan copies the next record to. */
  function CopyTarget(st: State, job: Job, rotate: bool, offset: nat): (Rec, bool) {
    var newFile := job.current.None? || rotate;
    (Rec(if newFile then st.nextFile else job.current.value, offset), newFile)
  }

  lemma CopyTargetOk(st: State, j: nat, rotate: bool, offset: nat)
    requires Core(st) && ScanCopies(st, j, rotate, offset)
    ensures var (out, newFile) := CopyTarget(st, st.jobs[j], rotate, offset); CanCopy(st, j, out, newFile)
  {
    assert JobOk(st, st.jobs[j]);
  }

  /** The branch of the scan that copies the record to an output file. */
  lemma GcScanCopies(st: State, j: nat, rotate: bool, offset: nat)
    requires Core(st) && ScanCopies(st, j, rotate, offset)
    ensures Core(Scan(st, j, rotate, offset))
  {
    var job, r := st.jobs[j], st.jobs[j].todo[0];
    var record := st.contents[r];
    var (out, newFile) := CopyTarget(st, job, rotate, offset);
    CopyTargetOk(st, j, rotate, offset);
    CopyRecordInv(st, j, out, record, newFile);
    var mid := CopyRecord(st, j, out, record, newFile);
    var b := Rewrite(record.key, r, Blob(out));
    var copied := mid.jobs[j];
    var job' := copied.(todo := copied.todo[1..], lastKey := Some(b.key), lastFresh := !copied.useBitmap,
                        batches := copied.batches + [b]);
    assert JobOk(mid, copied);
    assert InputRec(mid, copied, copied.todo[0]);
    CoverKept(mid, copied, job', b);
    JobReplaced(mid, j, job');
    ScanAsCopy(st, j, rotate, offset);
  }

  lemma ScanAsCopy(st: State, j: nat, rotate: bool, offset: nat)
    requires ScanCopies(st, j, rotate, offset)
    ensures var job, r := st.jobs[j], st.jobs[j].todo[0];
            var (out, newFile) := CopyTarget(st, job, rotate, offset);
            var mid := CopyRecord(st, j, out, st.contents[r], newFile);
            var job' := mid.jobs[j].(todo := job.todo[1..], lastKey := Some(st.contents[r].key),
                                     lastFresh := !job.useBitmap,
                                     batches := job.batches + [Rewrite(st.contents[r].key, r, Blob(out))]);
            Scan(st, j, rotate, offset) == mid.(jobs := mid.jobs[j := job'])
  {
    var job, r := st.jobs[j], st.jobs[j].todo[0];
    var (out, newFile) := CopyTarget(st, job, rotate, offset);
    var mid := CopyRecord(st, j, out, st.contents[r], newFile);
    var job' := mid.jobs[j].(todo := job.todo[1..], lastKey := Some(st.contents[r].key),
                             lastFresh := !job.useBitmap,
                             batches := job.batches + [Rewrite(st.contents[r].key, r, Blob(out))]);
    assert mid.jobs[j := job'] == st.jobs[j := job'];
  }

  /** The job itself after its outputs went into the manifest. */
  lemma GcInstallOwnJob(st: State, st': State, job: Job)
    requires JobOk(st, job) && job.phase.Scanning? && job.todo == []
    requires st' == st.(live := st.live + job.outputs, loggedNext := st'.loggedNext, jobs := st'.jobs)
    ensures JobOk(st', job.(phase := Rewriting))
  {
    var job' := job.(phase := Rewriting);
    SameTreeDead(st, st');
    assert forall x :: InBatches(job, x) ==> InBatches(job', x);
    forall n | 0 <= n < |job.batches| ensures BatchOk(st', job', job'.batches[n]) {
      assert BatchOk(st, job, job.batches[n]);
    }
  }

  lemma GcInstallInv(st: State, j: nat)
    requires Core(st) && JobIn(st, j, Scanning) && st.jobs[j].todo == []
    ensures Core(InstallOutputs(st, j))
  {
    var st' := InstallOutputs(st, j);
    SameTree(st, st');
    var job := st.jobs[j];
    assert JobsOk(st') by {
      assert JobOk(st, job);
      GcInstallOwnJob(st, st', job);
      forall i | i in st.jobs && i != j ensures JobOk(st', st.jobs[i]) {
        assert JobOk(st, st.jobs[i]) && Apart(st.jobs[i], job);
        JobKept(st, st', st.jobs[i]);
      }
    }
    assert FilesOk(st') by { assert JobFilesOk(st, job) by { assert JobOk(st, job); } }
  }

  lemma PopBatchInv(st: State, j: nat)
    requires Core(st) && JobIn(st, j, Rewriting) && st.jobs[j].batches != []
    requires Dead(st, st.jobs[j].batches[0].from, |st.log|)
    ensures Core(PopBatch(st, j))
  {
    var job := st.jobs[j];
    assert JobOk(st, job);
    var job' := job.(batches := job.batches[1..]);
    forall x | InBatches(job, x) ensures x == job.batches[0].from || InBatches(job', x) {
      var i :| 0 <= i < |job.batches| && job.batches[i].from == x;
      if i > 0 { assert job'.batches[i - 1].from == x; }
    }
    forall i | 0 <= i < |job'.batches| ensures BatchOk(st, job', job'.batches[i]) {
      assert BatchOk(st, job, job.batches[i + 1]);
    }
    JobReplaced(st, j, job');
  }

  /** The write callback lets a re-point through only where it changes nothing for the user. */
  lemma RepointIsGoodWrite(st: State, j: nat)
    requires Core(st) && JobIn(st, j, Rewriting) && st.jobs[j].batches != []
    requires PointsAt(st, st.jobs[j].batches[0].key, st.jobs[j].batches[0].from)
    ensures GoodWrite(st, Moved(st.jobs[j].batches[0].key), st.jobs[j].batches[0].entry)
  {
    var job := st.jobs[j];
    var b := job.batches[0];
    assert JobOk(st, job) && BatchOk(st, job, b);
    var n := |st.log|;
    var q := Newest(st.lsm, b.key, n).value;
    assert Viewed(st, n) && ViewOk(st, b.key, n) && ValueOk(st, Version(b.key, q));
    UserValueExtends(st.log, [Moved(b.key)], b.key, n);
    assert (st.log + [Moved(b.key)])[n] == Moved(b.key);
    assert forall i | i in st.jobs && i != j :: Apart(st.jobs[i], job);
  }

  lemma GcRewriteInv(st: State, j: nat)
    requires Core(st) && JobIn(st, j, Rewriting) && st.jobs[j].batches != []
    ensures Core(RewriteNext(st, j))
  {
    var b := st.jobs[j].batches[0];
    assert b.from in st.contents && st.contents[b.from].key == b.key by {
      assert JobOk(st, st.jobs[j]) && BatchOk(st, st.jobs[j], b);
    }
    if PointsAt(st, b.key, b.from) {
      RepointIsGoodWrite(st, j);
      AppendInv(st, Moved(b.key), b.entry);
      var mid := Append(st, Moved(b.key), b.entry);
      assert Dead(mid, b.from, |mid.log|) by { RepointKills(st, j); }
      PopBatchInv(mid, j);
    } else {
      var mid := st.(announced := Announce(st, b.entry, st.jobs[j].useBitmap));
      MarksAside(st, mid);
      NotPointedDead(mid, b.from);
      PopBatchInv(mid, j);
    }
  }

  lemma RepointKills(st: State, j: nat)
    requires Core(st) && JobIn(st, j, Rewriting) && st.jobs[j].batches != []
    ensures var b := st.jobs[j].batches[0];
            Dead(Append(st, Moved(b.key), b.entry), b.from, |st.log| + 1)
  {
    var b := st.jobs[j].batches[0];
    var n := |st.log|;
    var mid := Append(st, Moved(b.key), b.entry);
    assert JobOk(st, st.jobs[j]) && BatchOk(st, st.jobs[j], b);
    forall v | v in mid.lsm && mid.lsm[v] == Blob(b.from) ensures Superseded(mid, v, n + 1) {
      assert v in st.lsm && RefOk(st, v);
      assert Version(v.key, n + 1) in mid.lsm;
    }
  }

  lemma GcSyncInv(st: State, j: nat)
    requires Core(st) && JobIn(st, j, Rewriting) && st.jobs[j].batches == []
    ensures Core(st.(durable := |st.log|, jobs := st.jobs[j := st.jobs[j].(phase := Deleting)]))
  {
    var mid := st.(durable := |st.log|);
    SyncInv(st, |st.log|);
    var job' := st.jobs[j].(phase := Deleting);
    assert JobOk(mid, mid.jobs[j]);
    forall r | InputRec(mid, job', r) ensures Dead(mid, r, mid.durable) {
      assert !InBatches(mid.jobs[j], r);
    }
    JobReplaced(mid, j, job');
  }

  lemma GcAbortInv(st: State, j: nat)
    requires Core(st) && j in st.jobs
    ensures Core(st.(jobs := st.jobs - {j}))
  {
    var st' := st.(jobs := st.jobs - {j});
    SameTree(st, st');
    assert forall j | j in st.jobs :: JobFilesOk(st', st.jobs[j]) by {
      assert forall j | j in st.jobs :: JobFilesOk(st, st.jobs[j]) by {
        assert forall j | j in st.jobs :: JobOk(st, st.jobs[j]);
      }
    }
    JobsKept(st, st');
  }

  /** Marking the inputs obsolete: what they hold is hidden by durable versions at most this old. */
  lemma GcDeleteInputsTree(st: State, job: Job, st': State)
    requires TreeOk(st) && JobOk(st, job) && job.phase.Deleting?
    requires st' == st.(live := st.live - job.inputs, obsolete := st.obsolete + (map f | f in job.inputs :: |st.log|),
                        loggedNext := st'.loggedNext, jobs := st'.jobs)
    requires st.loggedNext <= st'.loggedNext && st.live !! st.obsolete.Keys
    ensures TreeOk(st')
  {
    forall v | v in st'.lsm ensures RefOk(st', v) {
      assert RefOk(st, v);
      if st.lsm[v].Blob? && st.lsm[v].rec.file !in st'.live {
        var r := st.lsm[v].rec;
        if r.file in job.inputs {
          assert InputRec(st, job, r) && Dead(st, r, st.durable) && Superseded(st, v, st.durable);
          var q :| v.seqno < q <= st.durable && Version(v.key, q) in st.lsm;
          assert ShadowedBy(st', v, r.file, q);
        } else {
          var q :| ShadowedBy(st, v, r.file, q);
          assert ShadowedBy(st', v, r.file, q);
        }
      }
    }
    forall v | v in st'.lsm ensures ValueOk(st', v) { assert ValueOk(st, v); }
    forall k: Key, s: SeqNo | s <= |st'.log| && Viewed(st', s) ensures ViewOk(st', k, s) {
      assert Viewed(st, s) && ViewOk(st, k, s);
    }
  }

  lemma GcDeleteInputsInv(st: State, j: nat)
    requires Core(st) && JobIn(st, j, Deleting)
    ensures Core(DeleteInputs(st, j))
  {
    var st' := DeleteInputs(st, j);
    var job := st.jobs[j];
    assert JobOk(st, job);
    assert job.inputs * st.live == job.inputs;
    GcDeleteInputsTree(st, job, st');
    assert forall i | i in st'.jobs :: JobFilesOk(st', st.jobs[i]) by {
      forall i | i in st'.jobs ensures JobFilesOk(st', st.jobs[i]) {
        assert JobOk(st, st.jobs[i]) && Apart(st.jobs[i], job);
      }
    }
    JobsKept(st, st');
  }

  // ---------------------------------------------------------------- crashes

  lemma CrashInv(st: State, n: SeqNo)
    requires Core(st) && st.durable <= n <= |st.log|
    ensures Core(Restart(st, n))
  {
    var st' := Restart(st, n);
    assert st.log == st.log[..n] + st.log[n..];
    forall v | v in st'.lsm ensures RefOk(st', v) {
      assert RefOk(st, v);
      if st.lsm[v].Blob? && st.lsm[v].rec.file !in st.live {
        var q :| ShadowedBy(st, v, st.lsm[v].rec.file, q);
        assert ShadowedBy(st', v, st.lsm[v].rec.file, q);
      }
    }
    forall v | v in st'.lsm ensures ValueOk(st', v) {
      assert ValueOk(st, v);
      UserValueExtends(st.log[..n], st.log[n..], v.key, v.seqno);
    }
    forall k: Key, s: SeqNo | s <= |st'.log| && Viewed(st', s) ensures ViewOk(st', k, s) {
      assert Viewed(st, n) && ViewOk(st, k, n);
      NewestAgrees(st.lsm, st'.lsm, k, n);
      UserValueExtends(st.log[..n], st.log[n..], k, n);
      var q := Newest(st.lsm, k, n);
      if q.Some? { UserValueExtends(st.log[..n], st.log[n..], k, q.value); }
    }
  }

  // ---------------------------------------------------------------- every run

  predicate IsGcStep(step: Step) {
    || step.GcBegin? || step.GcScan? || step.GcInstall? || step.GcRewrite? || step.GcSync?
    || step.GcDeleteInputs? || step.GcAbort?
  }

  predicate IsLsmStep(step: Step) {
    || step.BuildBegin? || step.BuildFinish? || step.Relocate? || step.BuildDone?
    || step.DropShadowed? || step.DropTombstone? || step.Callback?
  }

  lemma UserWriteInv(st: State, op: Op, e: Entry)
    requires Core(st)
    requires (op.Put? && e == Inline(op.value)) || (op.Delete? && e == Tombstone)
    ensures Core(Append(st, op, e))
  {
    assert (st.log + [op])[|st.log|] == op;
    AppendInv(st, op, e);
  }

  lemma ClientStepInv(st: State, step: Step)
    requires Core(st) && Enabled(st, step) && !IsGcStep(step) && !IsLsmStep(step)
    ensures Core(Apply(st, step))
  {
    match step
    case UserPut(k, v) => UserWriteInv(st, Put(k, v), Inline(v));
    case UserDelete(k) => UserWriteInv(st, Delete(k), Tombstone);
    case SyncLog(n) => SyncInv(st, n);
    case TakeSnapshot => TakeSnapshotInv(st);
    case ReleaseSnapshot(i) => ReleaseSnapshotInv(st, i);
    case Purge => PurgeInv(st);
    case Crash(n) => CrashInv(st, n);
  }

  lemma LsmStepInv(st: State, step: Step)
    requires Core(st) && Enabled(st, step) && IsLsmStep(step)
    ensures Core(Apply(st, step))
  {
    match step
    case BuildBegin => BuildBeginInv(st);
    case BuildFinish(f, records) => BuildFinishInv(st, f, records);
    case Relocate(v, e, reported) => RelocateInv(st, v, e, reported);
    case BuildDone(f) => BuildDoneInv(st, f);
    case DropShadowed(v, newer, reported) => DropShadowedInv(st, v, newer, reported);
    case DropTombstone(v) => DropTombstoneInv(st, v);
    case Callback(dropped) => MarksAside(st, SetBits(st, dropped));
  }

  lemma GcStepInv(st: State, step: Step)
    requires Core(st) && Enabled(st, step) && IsGcStep(step)
    requires step.GcScan? ==> forall r | r in st.jobs[step.job].bits :: Unreferenced(st, r)
    ensures Core(Apply(st, step))
  {
    match step
    case GcBegin(j, inputs, todo, fallback, useBitmap) => GcBeginInv(st, j, inputs, todo, fallback, useBitmap);
    case GcScan(j, rotate, offset) => GcScanInv(st, j, rotate, offset);
    case GcInstall(j) => GcInstallInv(st, j);
    case GcRewrite(j) => GcRewriteInv(st, j);
    case GcSync(j) => GcSyncInv(st, j);
    case GcDeleteInputs(j) => GcDeleteInputsInv(st, j);
    case GcAbort(j) => GcAbortInv(st, j);
  }

  /** Every enabled step keeps the core, given that the bits a scan goes by are right. */
  lemma CoreStep(st: State, step: Step)
    requires Core(st) && Enabled(st, step)
    requires step.GcScan? ==> forall r | r in st.jobs[step.job].bits :: Unreferenced(st, r)
    ensures Core(Apply(st, step))
  {
    if IsGcStep(step) {
      GcStepInv(st, step);
    } else if IsLsmStep(step) {
      LsmStepInv(st, step);
    } else {
      ClientStepInv(st, step);
    }
  }
}
