/**
 The Titan manifest: version edits, the collector that batches them, and the file set that logs
 and applies one edit at a time and replays the whole log on restart.
 */
module Manifest {
  import opened Wrappers
  import opened BlobFileMeta

  type CfId = nat
  type Store = map<FileNumber, FileMeta>

  /** `VersionEdit`.  `next` is the optional next file number. */
  datatype Edit = Edit(
    cf: CfId,
    added: seq<FileMeta>,
    deleted: seq<(FileNumber, SeqNo)>,
    next: Option<nat>)
  {
    /** What decoding the logged record gives back: obsolete sequences and volatile fields are lost. */
    function Persisted(): Edit {
      Edit(cf, PersistFiles(added), PersistDeletes(deleted), next)
    }
  }

  function PersistFiles(files: seq<FileMeta>): (r: seq<FileMeta>)
    ensures |r| == |files|
  {
    if files == [] then [] else PersistFiles(files[..|files| - 1]) + [files[|files| - 1].Persisted()]
  }

  function PersistDeletes(files: seq<(FileNumber, SeqNo)>): (r: seq<(FileNumber, SeqNo)>)
    ensures |r| == |files|
  {
    if files == [] then [] else PersistDeletes(files[..|files| - 1]) + [(files[|files| - 1].0, 0)]
  }

  /** `CFEditCollector`. */
  datatype CfEdits = CfEdits(added: map<FileNumber, FileMeta>, deleted: map<FileNumber, SeqNo>)

  /** `EditCollector` before sealing. */
  datatype Collected = Collected(cfs: map<CfId, CfEdits>, next: Option<nat>)

  const NO_EDITS := CfEdits(map[], map[])
  const EMPTY := Collected(map[], None)

  function EditsOf(c: Collected, cf: CfId): CfEdits {
    if cf in c.cfs then c.cfs[cf] else NO_EDITS
  }

  // ---------------------------------------------------------------- collecting

  /** `AddFile` for each file in turn; None is the corruption "has been added twice". */
  function AddFiles(c: CfEdits, files: seq<FileMeta>): Option<CfEdits> {
    if files == [] then Some(c)
    else
      var n := |files| - 1;
      match AddFiles(c, files[..n])
      case None => None
      case Some(d) =>
        if files[n].number in d.added then None
        else Some(d.(added := d.added[files[n].number := files[n]]))
  }

  /** `DeleteFile` for each pair in turn; None is the corruption "has been deleted twice". */
  function DeleteFiles(c: CfEdits, files: seq<(FileNumber, SeqNo)>): Option<CfEdits> {
    if files == [] then Some(c)
    else
      var n := |files| - 1;
      match DeleteFiles(c, files[..n])
      case None => None
      case Some(d) =>
        if files[n].0 in d.deleted then None
        else Some(d.(deleted := d.deleted[files[n].0 := files[n].1]))
  }

  /** A next file number may not go backwards; an edit without one leaves it alone. */
  function NextAfter(had: Option<nat>, e: Option<nat>): Option<Option<nat>> {
    if e.None? then Some(had)
    else if had.Some? && e.value < had.value then None
    else Some(e)
  }

  function AddEdit(c: Collected, e: Edit): Option<Collected> {
    match AddFiles(EditsOf(c, e.cf), e.added)
    case None => None
    case Some(d) =>
      match DeleteFiles(d, e.deleted)
      case None => None
      case Some(d') =>
        match NextAfter(c.next, e.next)
        case None => None
        case Some(next) => Some(Collected(c.cfs[e.cf := d'], next))
  }

  function AddEdits(c: Collected, log: seq<Edit>): Option<Collected> {
    if log == [] then Some(c)
    else
      match AddEdits(c, log[..|log| - 1])
      case None => None
      case Some(d) => AddEdit(d, log[|log| - 1])
  }

  // ---------------------------------------------------------------- sealing and applying

  predicate SealStore(store: Store, e: CfEdits) {
    && (forall n | n in e.added :: n !in store)
    && (forall n | n in e.deleted :: n in e.added || (n in store && !store[n].IsObsolete()))
  }

  /** Column families that are not open are skipped. */
  predicate SealAll(stores: map<CfId, Store>, c: Collected) {
    forall cf | cf in c.cfs && cf in stores :: SealStore(stores[cf], c.cfs[cf])
  }

  function ApplyStore(store: Store, e: CfEdits): Store {
    map n | n in store.Keys + (e.added.Keys - e.deleted.Keys) ::
      if n in e.added && n !in e.deleted then e.added[n]
      else if n in e.deleted && n !in e.added then store[n].(state := Obsolete)
      else store[n]
  }

  function ApplyAll(stores: map<CfId, Store>, c: Collected): map<CfId, Store> {
    map cf | cf in stores :: ApplyStore(stores[cf], EditsOf(c, cf))
  }

  // ---------------------------------------------------------------- the file set

  /** `BlobFileSet`, with the manifest log as the restart will decode it. */
  datatype FileSet = FileSet(
    stores: map<CfId, Store>,
    log: seq<Edit>,
    next: nat,
    pending: set<FileNumber>)      // numbers handed out and not logged yet

  /** `LogAndApply`: collect this one edit, seal, log, apply. */
  function LogAndApply(fs: FileSet, e: Edit): Option<FileSet> {
    var edit := e.(next := Some(fs.next));
    match AddEdit(EMPTY, edit)
    case None => None
    case Some(c) =>
      if !SealAll(fs.stores, c) then None
      else Some(fs.(stores := ApplyAll(fs.stores, c), log := fs.log + [edit.Persisted()],
                    pending := fs.pending - NumbersOf(e.added)))
  }

  function NumbersOf(files: seq<FileMeta>): set<FileNumber> {
    if files == [] then {} else NumbersOf(files[..|files| - 1]) + {files[|files| - 1].number}
  }

  /** `Recover`'s replay: one collector for the whole log, applied to empty storages. */
  function Replay(log: seq<Edit>, cfs: set<CfId>): Option<(map<CfId, Store>, nat)> {
    match AddEdits(EMPTY, log)
    case None => None
    case Some(c) =>
      var empty: map<CfId, Store> := map cf | cf in cfs :: map[];
      if !SealAll(empty, c) || c.next.None? then None
      else Some((ApplyAll(empty, c), c.next.value))
  }

  /** The files of a store that a manifest snapshot would list, as a restart would see them. */
  function LiveFiles(store: Store): Store {
    map n | n in store && !store[n].IsObsolete() :: store[n].Persisted()
  }

  // ---------------------------------------------------------------- the invariant

  /** The files that replaying a log leaves in one column family. */
  function Remaining(e: CfEdits): Store {
    map n | n in e.added && n !in e.deleted :: e.added[n]
  }

  ghost predicate CfSound(fs: FileSet, e: CfEdits) {
    && e.deleted.Keys <= e.added.Keys
    && (forall n | n in e.added :: n < fs.next && n !in fs.pending && e.added[n] == e.added[n].Persisted())
  }

  ghost predicate StoreSound(store: Store, e: CfEdits) {
    && store.Keys <= e.added.Keys
    && LiveFiles(store) == Remaining(e)
  }

  /** The log replays, and to what the open storages hold. */
  ghost predicate Sound(fs: FileSet) {
    && AddEdits(EMPTY, fs.log).Some?
    && var c := AddEdits(EMPTY, fs.log).value;
    && c.next.Some? && c.next.value <= fs.next
    && (forall n | n in fs.pending :: n < fs.next)
    && (forall cf | cf in c.cfs :: CfSound(fs, c.cfs[cf]))
    && (forall cf | cf in c.cfs, n | n in c.cfs[cf].added :: n < c.next.value)
    && (forall cf | cf in fs.stores :: StoreSound(fs.stores[cf], EditsOf(c, cf)))
  }

  // ---------------------------------------------------------------- closed form of collecting

  predicate DistinctFiles(files: seq<FileMeta>) {
    files == [] ||
    var n := |files| - 1;
    DistinctFiles(files[..n]) && files[n].number !in NumbersOf(files[..n])
  }

  function FileMap(files: seq<FileMeta>): (m: map<FileNumber, FileMeta>)
    ensures m.Keys == NumbersOf(files)
  {
    if files == [] then map[]
    else
      var n := |files| - 1;
      FileMap(files[..n])[files[n].number := files[n]]
  }

  function DeletedNumbers(files: seq<(FileNumber, SeqNo)>): set<FileNumber> {
    if files == [] then {} else DeletedNumbers(files[..|files| - 1]) + {files[|files| - 1].0}
  }

  predicate DistinctDeletes(files: seq<(FileNumber, SeqNo)>) {
    files == [] ||
    var n := |files| - 1;
    DistinctDeletes(files[..n]) && files[n].0 !in DeletedNumbers(files[..n])
  }

  function DeleteMap(files: seq<(FileNumber, SeqNo)>): (m: map<FileNumber, SeqNo>)
    ensures m.Keys == DeletedNumbers(files)
  {
    if files == [] then map[]
    else
      var n := |files| - 1;
      DeleteMap(files[..n])[files[n].0 := files[n].1]
  }

  /** Collecting succeeds exactly when no number repeats, and then it is a map union. */
  lemma {:induction false} AddFilesClosed(c: CfEdits, files: seq<FileMeta>)
    ensures AddFiles(c, files).Some? <==> DistinctFiles(files) && NumbersOf(files) !! c.added.Keys
    ensures AddFiles(c, files).Some? ==> AddFiles(c, files).value == c.(added := c.added + FileMap(files))
  {
    if files != [] {
      var n := |files| - 1;
      AddFilesClosed(c, files[..n]);
      if AddFiles(c, files).Some? {
        assert c.added + FileMap(files) == (c.added + FileMap(files[..n]))[files[n].number := files[n]];
      }
    } else {
      assert c.added + FileMap(files) == c.added;
    }
  }

  lemma {:induction false} DeleteFilesClosed(c: CfEdits, files: seq<(FileNumber, SeqNo)>)
    ensures DeleteFiles(c, files).Some? <==> DistinctDeletes(files) && DeletedNumbers(files) !! c.deleted.Keys
    ensures DeleteFiles(c, files).Some? ==>
              DeleteFiles(c, files).value == c.(deleted := c.deleted + DeleteMap(files))
  {
    if files != [] {
      var n := |files| - 1;
      DeleteFilesClosed(c, files[..n]);
      if DeleteFiles(c, files).Some? {
        assert c.deleted + DeleteMap(files) == (c.deleted + DeleteMap(files[..n]))[files[n].0 := files[n].1];
      }
    } else {
      assert c.deleted + DeleteMap(files) == c.deleted;
    }
  }
}
