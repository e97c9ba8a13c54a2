/**
 Garbage collection of blob files as a step system.

 One column family: an LSM tree (a versioned map with an append-only history of sequence
 numbers), the blob files it points into, live snapshots, and any number of concurrent GC jobs
 on the software path.  User writes, flushes, compactions, snapshots, purges and crashes
 interleave with every step of every job.
 */
module GcProtocol {
  import opened Wrappers

  type Key = string
  type Value = string
  type File = nat
  type SeqNo = nat

  /** What `BlobIndex`'s operator== looks at: the file and the place in it. */
  datatype Rec = Rec(file: File, offset: nat)

  datatype Record = Record(key: Key, value: Value)

  datatype Entry = Tombstone | Inline(value: Value) | Blob(rec: Rec)

  datatype Version = Version(key: Key, seqno: SeqNo)

  /** The operation that took a sequence number.  `Moved` is a GC re-point: no user effect. */
  datatype Op = Put(key: Key, value: Value) | Delete(key: Key) | Moved(key: Key)

  datatype Phase = Scanning | Rewriting | Deleting

  /** One element of `rewrite_batches_`: re-point `key` from `from` to `entry`. */
  datatype Rewrite = Rewrite(key: Key, from: Rec, entry: Entry)

  datatype Job = Job(
    inputs: set<File>,
    outputs: set<File>,
    current: Option<File>,
    todo: seq<Rec>,
    lastKey: Option<Key>,
    lastFresh: bool,
    batches: seq<Rewrite>,
    phase: Phase,
    fallback: bool,
    useBitmap: bool,
    bits: set<Rec>)               // the bitmaps of the inputs, as copied when the job starts

  datatype State = State(
    log: seq<Op>,                 // operation i took sequence number i + 1
    durable: SeqNo,               // a crash keeps at least this prefix of the log
    lsm: map<Version, Entry>,
    contents: map<Rec, Record>,   // what was written at each place of each blob file
    live: set<File>,              // in the Titan manifest: added and not deleted
    obsolete: map<File, SeqNo>,   // deleted in the manifest, still readable
    pendingLsm: set<File>,        // flush or compaction outputs still receiving references
    reserved: set<File>,          // numbers handed to flushes and compactions that still build
    nextFile: nat,
    loggedNext: nat,              // the next file number a restart recovers
    snapshots: seq<SeqNo>,        // oldest first, as in the base DB's snapshot list
    unplaced: set<Rec>,           // records of flush and compaction outputs that no entry got yet
    announced: set<Rec>,          // dropped by a compaction or a GC job that has not reported it
    bits: set<Rec>,               // the invalid-entry bits that are set; not persistent
    jobs: map<nat, Job>)

  // ---------------------------------------------------------------- reads

  /** The newest sequence number at most `s` at which the tree holds a version of `k`. */
  function Newest(lsm: map<Version, Entry>, k: Key, s: SeqNo): (r: Option<SeqNo>)
    ensures r.Some? ==> r.value <= s && Version(k, r.value) in lsm
    ensures r.Some? ==> forall q :: r.value < q <= s ==> Version(k, q) !in lsm
    ensures r.None? ==> forall q :: 0 <= q <= s ==> Version(k, q) !in lsm
  {
    if Version(k, s) in lsm then Some(s)
    else if s == 0 then None
    else Newest(lsm, k, s - 1)
  }

  /** The specification: a plain versioned map, read off the history of user operations. */
  function UserValue(log: seq<Op>, k: Key, s: SeqNo): Option<Value>
    requires s <= |log|
  {
    if s == 0 then None
    else match log[s - 1]
      case Put(k', v) => if k' == k then Some(v) else UserValue(log, k, s - 1)
      case Delete(k') => if k' == k then None else UserValue(log, k, s - 1)
      case Moved(_) => UserValue(log, k, s - 1)
  }

  datatype ReadResult = Found(value: Value) | NotFound | MissingBlobFile(file: File)

  predicate Readable(st: State, f: File) {
    f in st.live || f in st.obsolete
  }

  /** `GetImpl`: find the entry visible at `s`, then follow its blob index if it has one. */
  function Get(st: State, k: Key, s: SeqNo): ReadResult {
    match Newest(st.lsm, k, s)
    case None => NotFound
    case Some(q) =>
      match st.lsm[Version(k, q)]
      case Tombstone => NotFound
      case Inline(v) => Found(v)
      case Blob(rec) =>
        if Readable(st, rec.file) && rec in st.contents then Found(st.contents[rec].value)
        else MissingBlobFile(rec.file)
  }

  function AsRead(v: Option<Value>): ReadResult {
    match v case None => NotFound case Some(x) => Found(x)
  }

  // ---------------------------------------------------------------- steps

  datatype Step =
    | UserPut(key: Key, value: Value)
    | UserDelete(key: Key)
    | SyncLog(upTo: SeqNo)
    | TakeSnapshot
    | ReleaseSnapshot(index: nat)
    | BuildBegin
    | BuildFinish(file: File, records: map<nat, Record>)
    | Relocate(version: Version, entry: Entry, reported: bool)
    | BuildDone(file: File)
    | DropShadowed(version: Version, newer: SeqNo, reported: bool)
    | DropTombstone(version: Version)
    | Callback(dropped: set<Rec>)
    | Purge
    | GcBegin(job: nat, inputs: set<File>, todo: seq<Rec>, fallback: bool, useBitmap: bool)
    | GcScan(job: nat, rotate: bool, offset: nat)
    | GcInstall(job: nat)
    | GcRewrite(job: nat)
    | GcSync(job: nat)
    | GcDeleteInputs(job: nat)
    | GcAbort(job: nat)
    | Crash(keep: SeqNo)

  function Append(st: State, op: Op, entry: Entry): State {
    st.(log := st.log + [op], lsm := st.lsm[Version(op.key, |st.log| + 1) := entry])
  }

  /** What a version means to the user. */
  function Meaning(contents: map<Rec, Record>, e: Entry): Option<Value>
    requires e.Blob? ==> e.rec in contents
  {
    match e
    case Tombstone => None
    case Inline(v) => Some(v)
    case Blob(rec) => Some(contents[rec].value)
  }

  /**
   A flush or compaction may rewrite a version it holds on disk as any entry with the same meaning:
   inline, or a record of a blob file it has just built.  A record is written for one entry.
   */
  predicate CanRelocate(st: State, v: Version, e: Entry) {
    && v in st.lsm && v.seqno <= st.durable
    && (st.lsm[v].Blob? ==> st.lsm[v].rec in st.contents)
    && (e.Blob? ==> e.rec in st.contents && st.contents[e.rec].key == v.key && e.rec.file in st.pendingLsm)
    && (e.Blob? ==> e.rec in st.unplaced)
    && Meaning(st.contents, st.lsm[v]) == Meaning(st.contents, e)
  }

  /** Compaction drops a version that a newer one on disk hides from the head and every snapshot. */
  predicate CanDropShadowed(st: State, v: Version, newer: SeqNo) {
    && v in st.lsm && Version(v.key, newer) in st.lsm && v.seqno < newer <= st.durable
    && forall i | 0 <= i < |st.snapshots| :: !(v.seqno <= st.snapshots[i] < newer)
  }

  /** Compaction drops a tombstone that is the oldest version of its key. */
  ghost predicate CanDropTombstone(st: State, v: Version) {
    && v in st.lsm && st.lsm[v].Tombstone? && v.seqno <= st.durable
    && forall q | 0 <= q < v.seqno :: Version(v.key, q) !in st.lsm
  }

  predicate Unreferenced(st: State, r: Rec) {
    forall v | v in st.lsm :: st.lsm[v] != Blob(r)
  }

  predicate CanDelete(st: State, f: File) {
    f in st.obsolete && (st.snapshots == [] || st.snapshots[0] > st.obsolete[f])
  }

  /** The current entry of a key, as the GC write callback and `DiscardEntry` see it. */
  predicate PointsAt(st: State, k: Key, r: Rec) {
    var q := Newest(st.lsm, k, |st.log|);
    q.Some? && st.lsm[Version(k, q.value)] == Blob(r)
  }

  predicate JobIn(st: State, j: nat, phase: Phase) {
    j in st.jobs && st.jobs[j].phase == phase
  }

  /** No running job reads from or writes to a file of `fs`. */
  predicate Idle(st: State, fs: set<File>) {
    forall j | j in st.jobs :: fs !! st.jobs[j].inputs && fs !! st.jobs[j].outputs
  }

  /** The picker takes only files in `kNormal`; the merged input lists all their records. */
  ghost predicate CanBegin(st: State, j: nat, inputs: set<File>, todo: seq<Rec>) {
    && j !in st.jobs
    && inputs <= st.live && inputs !! st.pendingLsm && Idle(st, inputs)
    && forall r :: r in todo <==> r in st.contents && r.file in inputs
  }

  /** An output record lands on a free place. */
  predicate CanScan(st: State, j: nat, rotate: bool, offset: nat) {
    && JobIn(st, j, Scanning) && st.jobs[j].todo != []
    && st.jobs[j].todo[0] in st.contents
    && (!rotate && st.jobs[j].current.Some? ==> Rec(st.jobs[j].current.value, offset) !in st.contents)
  }

  ghost predicate Enabled(st: State, step: Step) {
    match step
    case UserPut(_, _) => true
    case UserDelete(_) => true
    case SyncLog(n) => st.durable <= n <= |st.log|
    case TakeSnapshot => true
    case ReleaseSnapshot(i) => i < |st.snapshots|
    case BuildBegin => true
    case BuildFinish(f, _) => f in st.reserved
    case Relocate(v, e, _) => CanRelocate(st, v, e)
    case BuildDone(f) => f in st.pendingLsm
    case DropShadowed(v, newer, _) => CanDropShadowed(st, v, newer)
    case DropTombstone(v) => CanDropTombstone(st, v)
    case Callback(dropped) => dropped <= st.announced
    case Purge => true
    case GcBegin(j, inputs, todo, _, _) => CanBegin(st, j, inputs, todo)
    case GcScan(j, rotate, offset) => CanScan(st, j, rotate, offset)
    case GcInstall(j) => JobIn(st, j, Scanning) && st.jobs[j].todo == []
    case GcRewrite(j) => JobIn(st, j, Rewriting) && st.jobs[j].batches != []
    case GcSync(j) => JobIn(st, j, Rewriting) && st.jobs[j].batches == []
    case GcDeleteInputs(j) => JobIn(st, j, Deleting)
    case GcAbort(j) => j in st.jobs
    case Crash(n) => st.durable <= n <= |st.log|
  }

  /** A newer record of the same key is already being rewritten; the test never holds for the empty key. */
  predicate OlderVersion(job: Job, k: Key) { k != "" && job.lastKey == Some(k) && job.lastFresh }

  /** `DoRunGC` on the next record of the merged input. */
  function Scan(st: State, j: nat, rotate: bool, offset: nat): State
    requires CanScan(st, j, rotate, offset)
  {
    var job := st.jobs[j];
    var r := job.todo[0];
    var record := st.contents[r];
    var rest := job.(todo := job.todo[1..]);
    if OlderVersion(job, record.key) then
      st.(jobs := st.jobs[j := rest])
    else
      var seen := rest.(lastKey := Some(record.key), lastFresh := false);
      var discard := if job.useBitmap then r in job.bits else !PointsAt(st, record.key, r);
      if discard then st.(jobs := st.jobs[j := seen])
      else
        var kept := seen.(lastFresh := !job.useBitmap);
        if job.fallback then
          st.(jobs := st.jobs[j := kept.(batches := kept.batches + [Rewrite(record.key, r, Inline(record.value))])])
        else
          var newFile := job.current.None? || rotate;
          var f := if newFile then st.nextFile else job.current.value;
          var out := Rec(f, offset);
          st.(contents := st.contents[out := record],
              nextFile := if newFile then st.nextFile + 1 else st.nextFile,
              jobs := st.jobs[j := kept.(current := Some(f), outputs := kept.outputs + {f},
                                         batches := kept.batches + [Rewrite(record.key, r, Blob(out))])])
  }

  /** The records of one finished file, keyed by their place. */
  function FileRecords(f: File, records: map<nat, Record>): map<Rec, Record> {
    map r | r in (set o | o in records :: Rec(f, o)) :: records[r.offset]
  }

  function PopBatch(st: State, j: nat): State
    requires j in st.jobs && st.jobs[j].batches != []
  {
    st.(jobs := st.jobs[j := st.jobs[j].(batches := st.jobs[j].batches[1..])])
  }

  /** `BatchFinishFiles`: the file is synced, logged and findable before any SST refers to it. */
  function FinishBuild(st: State, f: File, records: map<nat, Record>): State {
    st.(contents := st.contents + FileRecords(f, records),
        live := st.live + {f}, pendingLsm := st.pendingLsm + {f}, reserved := st.reserved - {f},
        loggedNext := st.nextFile, unplaced := st.unplaced + FileRecords(f, records).Keys)
  }

  function DoneBuilding(st: State, f: File): State {
    st.(pendingLsm := st.pendingLsm - {f}, unplaced := set r | r in st.unplaced && r.file != f)
  }

  function Referred(e: Entry): set<Rec> { if e.Blob? then {e.rec} else {} }

  /** What a compaction will report once the reference `e` is gone; a flush reports nothing. */
  function Announce(st: State, e: Entry, reported: bool): set<Rec> {
    st.announced + if reported then Referred(e) else {}
  }

  function RelocateEntry(st: State, v: Version, e: Entry, reported: bool): State
    requires v in st.lsm
  {
    st.(lsm := st.lsm[v := e], unplaced := st.unplaced - Referred(e),
        announced := Announce(st, st.lsm[v], reported && e != st.lsm[v]))
  }

  function DropVersion(st: State, v: Version, reported: bool): State
    requires v in st.lsm
  {
    st.(lsm := st.lsm - {v}, announced := Announce(st, st.lsm[v], reported))
  }

  /** `OnCompactionCompleted` and the end of a rewrite: bits are set for files that are still in use. */
  function SetBits(st: State, dropped: set<Rec>): State {
    st.(announced := st.announced - dropped, bits := st.bits + (set r | r in dropped && r.file in st.live))
  }

  /** `GetObsoleteFiles` with the oldest snapshot, as one step. */
  function PurgeFiles(st: State): State {
    st.(obsolete := map f | f in st.obsolete && !CanDelete(st, f) :: st.obsolete[f])
  }

  function BeginJob(st: State, j: nat, inputs: set<File>, todo: seq<Rec>, fallback: bool, useBitmap: bool): State {
    st.(jobs := st.jobs[j := Job(inputs, {}, None, todo, None, false, [], Scanning, fallback, useBitmap,
                                   set r | r in st.bits && r.file in inputs)])
  }

  /** `InstallOutputBlobFiles`: all outputs go into the manifest before any key is re-pointed. */
  function InstallOutputs(st: State, j: nat): State
    requires j in st.jobs
  {
    st.(live := st.live + st.jobs[j].outputs, loggedNext := st.nextFile,
        jobs := st.jobs[j := st.jobs[j].(phase := Rewriting)])
  }

  /** One `WriteWithCallback`: check and write are one atomic step; what is not written is dropped. */
  function RewriteNext(st: State, j: nat): State
    requires j in st.jobs && st.jobs[j].batches != []
  {
    var b := st.jobs[j].batches[0];
    if PointsAt(st, b.key, b.from) then PopBatch(Append(st, Moved(b.key), b.entry), j)
    else PopBatch(st.(announced := Announce(st, b.entry, st.jobs[j].useBitmap)), j)
  }

  /** `DeleteInputBlobFiles` and the release of the job, in one critical section. */
  function DeleteInputs(st: State, j: nat): State
    requires j in st.jobs
  {
    var gone := st.jobs[j].inputs * st.live;
    st.(live := st.live - gone, obsolete := st.obsolete + (map f | f in gone :: |st.log|),
        loggedNext := st.nextFile, jobs := st.jobs - {j})
  }

  /** The file set and sequence state that a restart finds. */
  function Restart(st: State, n: SeqNo): State
    requires n <= |st.log|
  {
    State(st.log[..n], n,
          map v | v in st.lsm && v.seqno <= n :: st.lsm[v],
          map r | r in st.contents && r.file < st.loggedNext :: st.contents[r],
          st.live, map[], {}, {}, st.loggedNext + 1, st.loggedNext + 1, [], {}, {}, {}, map[])
  }

  function Apply(st: State, step: Step): State
    requires Enabled(st, step)
  {
    match step
    case UserPut(k, v) => Append(st, Put(k, v), Inline(v))
    case UserDelete(k) => Append(st, Delete(k), Tombstone)
    case SyncLog(n) => st.(durable := n)
    case TakeSnapshot => st.(snapshots := st.snapshots + [|st.log|])
    case ReleaseSnapshot(i) => st.(snapshots := st.snapshots[..i] + st.snapshots[i + 1..])
    case BuildBegin => st.(reserved := st.reserved + {st.nextFile}, nextFile := st.nextFile + 1)
    case BuildFinish(f, records) => FinishBuild(st, f, records)
    case Relocate(v, e, reported) => RelocateEntry(st, v, e, reported)
    case BuildDone(f) => DoneBuilding(st, f)
    case DropShadowed(v, _, reported) => DropVersion(st, v, reported)
    case DropTombstone(v) => DropVersion(st, v, false)
    case Callback(dropped) => SetBits(st, dropped)
    case Purge => PurgeFiles(st)
    case GcBegin(j, inputs, todo, fallback, useBitmap) => BeginJob(st, j, inputs, todo, fallback, useBitmap)
    case GcScan(j, rotate, offset) => Scan(st, j, rotate, offset)
    case GcInstall(j) => InstallOutputs(st, j)
    case GcRewrite(j) => RewriteNext(st, j)
    case GcSync(j) => st.(durable := |st.log|, jobs := st.jobs[j := st.jobs[j].(phase := Deleting)])
    case GcDeleteInputs(j) => DeleteInputs(st, j)
    case GcAbort(j) => st.(jobs := st.jobs - {j})
    case Crash(n) => Restart(st, n)
  }
}
