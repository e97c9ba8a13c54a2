/**
 Batched replay equals the incremental history: whatever a disciplined run of the file set logged,
 a restart accepts, and rebuilds the live files and a fresh file counter from it.
 */
module ManifestProofs {
  import opened Wrappers
  import opened BlobFileMeta
  import opened Manifest

  // ---------------------------------------------------------------- what logging forgets

  function PersistMap(m: Store): Store {
    map n | n in m :: m[n].Persisted()
  }

  lemma {:induction false} PersistFilesClosed(files: seq<FileMeta>)
    ensures NumbersOf(PersistFiles(files)) == NumbersOf(files)
    ensures DistinctFiles(PersistFiles(files)) == DistinctFiles(files)
    ensures FileMap(PersistFiles(files)) == PersistMap(FileMap(files))
  {
    if files != [] {
      var n := |files| - 1;
      PersistFilesClosed(files[..n]);
      assert PersistFiles(files)[..n] == PersistFiles(files[..n]);
    }
  }

  lemma {:induction false} PersistDeletesClosed(files: seq<(FileNumber, SeqNo)>)
    ensures DeletedNumbers(PersistDeletes(files)) == DeletedNumbers(files)
    ensures DistinctDeletes(PersistDeletes(files)) == DistinctDeletes(files)
  {
    if files != [] {
      var n := |files| - 1;
      PersistDeletesClosed(files[..n]);
      assert PersistDeletes(files)[..n] == PersistDeletes(files[..n]);
    }
  }

  lemma AddEditsAppend(c: Collected, log: seq<Edit>, e: Edit)
    requires AddEdits(c, log).Some?
    ensures AddEdits(c, log + [e]) == AddEdit(AddEdits(c, log).value, e)
  {
    assert (log + [e])[..|log|] == log;
  }

  // ---------------------------------------------------------------- one edit

  /** Added files carry numbers that were handed out and not yet logged. */
  ghost predicate FreshNumbers(fs: FileSet, e: Edit) {
    && NumbersOf(e.added) <= fs.pending
    && (forall n | n in FileMap(e.added) :: !FileMap(e.added)[n].IsObsolete())
  }

  /** What the log says so far about one column family. */
  ghost function Logged(fs: FileSet, cf: CfId): CfEdits {
    match AddEdits(EMPTY, fs.log) case None => NO_EDITS case Some(c) => EditsOf(c, cf)
  }

  /** The edit deletes files that the log has added, or that it adds itself, and has not yet deleted. */
  ghost predicate DeletesKnown(fs: FileSet, e: Edit) {
    && DeletedNumbers(e.deleted) !! Logged(fs, e.cf).deleted.Keys
    && DeletedNumbers(e.deleted) <= Logged(fs, e.cf).added.Keys + NumbersOf(e.added)
  }

  /**
   What the callers of `LogAndApply` obey: numbers are fresh, and for a column family that is not
   open, where nothing is checked, the edit deletes only files that are there to delete.
   */
  ghost predicate Disciplined(fs: FileSet, e: Edit) {
    FreshNumbers(fs, e) && (e.cf !in fs.stores ==> DeletesKnown(fs, e))
  }

  lemma ApplyNothing(store: Store)
    ensures ApplyStore(store, NO_EDITS) == store
  {}

  /** One accepted edit, seen by the collector that LogAndApply builds for it. */
  lemma SingleEdit(e: Edit)
    requires AddEdit(EMPTY, e).Some? && e.next.Some?
    ensures DistinctFiles(e.added) && DistinctDeletes(e.deleted)
    ensures AddEdit(EMPTY, e).value ==
            Collected(map[e.cf := CfEdits(FileMap(e.added), DeleteMap(e.deleted))], e.next)
  {
    AddFilesClosed(NO_EDITS, e.added);
    var d := AddFiles(NO_EDITS, e.added).value;
    assert map[] + FileMap(e.added) == FileMap(e.added);
    DeleteFilesClosed(d, e.deleted);
    assert map[] + DeleteMap(e.deleted) == DeleteMap(e.deleted);
  }

  /** The batch collector takes the logged edit on top of the edits before it. */
  lemma BatchTakesEdit(c: Collected, e: Edit)
    requires e.next.Some? && (c.next.Some? ==> c.next.value <= e.next.value)
    requires DistinctFiles(e.added) && DistinctDeletes(e.deleted)
    requires NumbersOf(e.added) !! EditsOf(c, e.cf).added.Keys
    requires DeletedNumbers(e.deleted) !! EditsOf(c, e.cf).deleted.Keys
    ensures AddEdit(c, e.Persisted()) ==
            Some(Collected(c.cfs[e.cf := CfEdits(EditsOf(c, e.cf).added + PersistMap(FileMap(e.added)),
                                                 EditsOf(c, e.cf).deleted + DeleteMap(PersistDeletes(e.deleted)))],
                           e.next))
  {
    var p := e.Persisted();
    var had := EditsOf(c, e.cf);
    PersistFilesClosed(e.added);
    PersistDeletesClosed(e.deleted);
    AddFilesClosed(had, p.added);
    var d := AddFiles(had, p.added).value;
    assert d == CfEdits(had.added + PersistMap(FileMap(e.added)), had.deleted);
    DeleteFilesClosed(d, p.deleted);
    assert DeleteFiles(d, p.deleted) == Some(CfEdits(d.added, had.deleted + DeleteMap(p.deleted)));
    assert NextAfter(c.next, p.next) == Some(e.next);
  }

  /** Applying one edit to a store keeps it in step with the collected edits of its family. */
  lemma StoreStep(store: Store, had: CfEdits, a: Store, d: map<FileNumber, SeqNo>, d': map<FileNumber, SeqNo>)
    requires StoreSound(store, had) && had.deleted.Keys <= had.added.Keys
    requires a.Keys !! had.added.Keys && d.Keys == d'.Keys
    requires SealStore(store, CfEdits(a, d))
    requires forall n | n in a :: !a[n].IsObsolete()
    ensures StoreSound(ApplyStore(store, CfEdits(a, d)), CfEdits(had.added + PersistMap(a), had.deleted + d'))
  {
    var e := CfEdits(had.added + PersistMap(a), had.deleted + d');
    var store' := ApplyStore(store, CfEdits(a, d));
    forall n ensures n in LiveFiles(store') <==> n in Remaining(e) {
      if n in a {
      } else if n in store {
        assert n in LiveFiles(store) <==> n in Remaining(had);
      } else {
        assert n !in LiveFiles(store);
        assert n !in Remaining(had);
      }
    }
    forall n | n in LiveFiles(store') ensures LiveFiles(store')[n] == Remaining(e)[n] {
      if n !in a { assert LiveFiles(store)[n] == Remaining(had)[n]; }
    }
  }

  /** Sealing against the open storage rules out deleting a number twice, over the whole log. */
  lemma SealedDeletesAreFresh(store: Store, had: CfEdits, e: CfEdits)
    requires StoreSound(store, had) && had.deleted.Keys <= had.added.Keys
    requires e.added.Keys !! had.added.Keys && SealStore(store, e)
    ensures e.deleted.Keys !! had.deleted.Keys
    ensures e.deleted.Keys <= had.added.Keys + e.added.Keys
  {
    forall n | n in e.deleted ensures n !in had.deleted && n in had.added.Keys + e.added.Keys {
      if n !in e.added {
        assert n in LiveFiles(store);
        assert n in Remaining(had);
      }
    }
  }

  /** The collected edits after one more accepted edit. */
  ghost function Extended(c: Collected, e: Edit): Collected {
    var had := EditsOf(c, e.cf);
    Collected(c.cfs[e.cf := CfEdits(had.added + PersistMap(FileMap(e.added)),
                                    had.deleted + DeleteMap(PersistDeletes(e.deleted)))],
              e.next)
  }

  lemma AcceptedEditExtends(fs: FileSet, e: Edit)
    requires Sound(fs) && Disciplined(fs, e) && LogAndApply(fs, e).Some?
    ensures var c := AddEdits(EMPTY, fs.log).value;
            var edit := e.(next := Some(fs.next));
            && AddEdits(EMPTY, LogAndApply(fs, e).value.log) == Some(Extended(c, edit))
            && NumbersOf(e.added) !! EditsOf(c, e.cf).added.Keys
            && DeletedNumbers(e.deleted) !! EditsOf(c, e.cf).deleted.Keys
            && DeletedNumbers(e.deleted) <= EditsOf(c, e.cf).added.Keys + NumbersOf(e.added)
  {
    var c := AddEdits(EMPTY, fs.log).value;
    var edit := e.(next := Some(fs.next));
    var had := EditsOf(c, e.cf);
    SingleEdit(edit);
    assert NumbersOf(e.added) !! had.added.Keys by {
      if e.cf in c.cfs { assert CfSound(fs, c.cfs[e.cf]); }
    }
    if e.cf in fs.stores {
      assert StoreSound(fs.stores[e.cf], had);
      assert SealStore(fs.stores[e.cf], AddEdit(EMPTY, edit).value.cfs[e.cf]);
      assert had.deleted.Keys <= had.added.Keys by { if e.cf in c.cfs { assert CfSound(fs, c.cfs[e.cf]); } }
      SealedDeletesAreFresh(fs.stores[e.cf], had, CfEdits(FileMap(e.added), DeleteMap(e.deleted)));
    }
    BatchTakesEdit(c, edit);
    AddEditsAppend(EMPTY, fs.log, edit.Persisted());
  }

  lemma ExtendedCfsSound(fs: FileSet, fs': FileSet, c: Collected, e: Edit)
    requires forall cf | cf in c.cfs :: CfSound(fs, c.cfs[cf])
    requires fs'.next == fs.next && fs'.pending == fs.pending - NumbersOf(e.added)
    requires NumbersOf(e.added) <= fs.pending && forall n | n in fs.pending :: n < fs.next
    requires DeletedNumbers(e.deleted) <= EditsOf(c, e.cf).added.Keys + NumbersOf(e.added)
    ensures forall cf | cf in Extended(c, e).cfs :: CfSound(fs', Extended(c, e).cfs[cf])
  {
    PersistDeletesClosed(e.deleted);
    forall cf | cf in Extended(c, e).cfs ensures CfSound(fs', Extended(c, e).cfs[cf]) {
      assert cf in c.cfs ==> CfSound(fs, c.cfs[cf]);
    }
  }

  lemma ExtendedStoresSound(fs: FileSet, c: Collected, e: Edit)
    requires forall cf | cf in fs.stores :: StoreSound(fs.stores[cf], EditsOf(c, cf))
    requires forall cf | cf in c.cfs :: CfSound(fs, c.cfs[cf])
    requires NumbersOf(e.added) !! EditsOf(c, e.cf).added.Keys && Disciplined(fs, e)
    requires var k := Collected(map[e.cf := CfEdits(FileMap(e.added), DeleteMap(e.deleted))], e.next);
             SealAll(fs.stores, k)
    ensures var k := Collected(map[e.cf := CfEdits(FileMap(e.added), DeleteMap(e.deleted))], e.next);
            var stores' := ApplyAll(fs.stores, k);
            forall cf | cf in stores' :: StoreSound(stores'[cf], EditsOf(Extended(c, e), cf))
  {
    var k := Collected(map[e.cf := CfEdits(FileMap(e.added), DeleteMap(e.deleted))], e.next);
    forall cf | cf in fs.stores
      ensures StoreSound(ApplyStore(fs.stores[cf], EditsOf(k, cf)), EditsOf(Extended(c, e), cf))
    {
      assert StoreSound(fs.stores[cf], EditsOf(c, cf));
      if cf == e.cf {
        assert SealStore(fs.stores[cf], k.cfs[cf]);
        assert cf in c.cfs ==> CfSound(fs, c.cfs[cf]);
        PersistDeletesClosed(e.deleted);
        StoreStep(fs.stores[cf], EditsOf(c, cf), FileMap(e.added), DeleteMap(e.deleted),
                  DeleteMap(PersistDeletes(e.deleted)));
      } else {
        ApplyNothing(fs.stores[cf]);
      }
    }
  }

  /** `LogAndApply` accepts an edit exactly if it repeats no number and, for an open family, fits the storage. */
  lemma AcceptedIff(fs: FileSet, e: Edit)
    ensures LogAndApply(fs, e).Some? <==>
              && DistinctFiles(e.added) && DistinctDeletes(e.deleted)
              && (e.cf in fs.stores ==>
                    var store := fs.stores[e.cf];
                    && (forall n | n in NumbersOf(e.added) :: n !in store)
                    && (forall n | n in DeletedNumbers(e.deleted) ::
                          n in NumbersOf(e.added) || (n in store && !store[n].IsObsolete())))
  {
    var edit := e.(next := Some(fs.next));
    AddFilesClosed(NO_EDITS, e.added);
    if DistinctFiles(e.added) {
      DeleteFilesClosed(AddFiles(NO_EDITS, e.added).value, e.deleted);
      if DistinctDeletes(e.deleted) {
        SingleEdit(edit);
      }
    }
  }

  /**
   After an accepted edit with fresh numbers a restart succeeds if and only if the edit deletes nothing
   twice and, where the restart opens its family, nothing that was never added.
   */
  lemma ReplaysIff(fs: FileSet, e: Edit, cfs: set<CfId>)
    requires Sound(fs) && FreshNumbers(fs, e) && LogAndApply(fs, e).Some?
    ensures Replay(LogAndApply(fs, e).value.log, cfs).Some? <==>
              && DeletedNumbers(e.deleted) !! Logged(fs, e.cf).deleted.Keys
              && (e.cf in cfs ==> DeletedNumbers(e.deleted) <= Logged(fs, e.cf).added.Keys + NumbersOf(e.added))
  {
    var edit := e.(next := Some(fs.next));
    var c := AddEdits(EMPTY, fs.log).value;
    var had := EditsOf(c, e.cf);
    AcceptedIff(fs, e);
    AddEditsAppend(EMPTY, fs.log, edit.Persisted());
    if DeletesKnown(fs, e) {
      LogAndApplySound(fs, e);
      ReplaySound(LogAndApply(fs, e).value, cfs);
    } else if DeletedNumbers(e.deleted) !! had.deleted.Keys {
      if e.cf in cfs { ForgottenDeletes(fs, e, cfs); } else { UnopenedReplays(fs, e, cfs); }
    } else {
      PersistDeletesClosed(e.deleted);
      AddFilesClosed(had, edit.Persisted().added);
      if AddFiles(had, edit.Persisted().added).Some? {
        DeleteFilesClosed(AddFiles(had, edit.Persisted().added).value, edit.Persisted().deleted);
      }
    }
  }

  lemma FreshEditExtends(fs: FileSet, e: Edit)
    requires Sound(fs) && FreshNumbers(fs, e) && LogAndApply(fs, e).Some?
    requires DeletedNumbers(e.deleted) !! Logged(fs, e.cf).deleted.Keys
    ensures AddEdits(EMPTY, LogAndApply(fs, e).value.log) ==
            Some(Extended(AddEdits(EMPTY, fs.log).value, e.(next := Some(fs.next))))
  {
    var edit := e.(next := Some(fs.next));
    var c := AddEdits(EMPTY, fs.log).value;
    AcceptedIff(fs, e);
    assert NumbersOf(e.added) !! EditsOf(c, e.cf).added.Keys by {
      if e.cf in c.cfs { assert CfSound(fs, c.cfs[e.cf]); }
    }
    BatchTakesEdit(c, edit);
    AddEditsAppend(EMPTY, fs.log, edit.Persisted());
  }

  /** A restart that does not open the family takes no notice of what it deletes. */
  lemma UnopenedReplays(fs: FileSet, e: Edit, cfs: set<CfId>)
    requires Sound(fs) && FreshNumbers(fs, e) && LogAndApply(fs, e).Some? && e.cf !in cfs
    requires DeletedNumbers(e.deleted) !! Logged(fs, e.cf).deleted.Keys
    ensures Replay(LogAndApply(fs, e).value.log, cfs).Some?
  {
    var c := AddEdits(EMPTY, fs.log).value;
    FreshEditExtends(fs, e);
    var c' := Extended(c, e.(next := Some(fs.next)));
    forall cf | cf in c'.cfs && cf in cfs
      ensures SealStore(map[], c'.cfs[cf])
    {
      assert CfSound(fs, c.cfs[cf]);
    }
  }

  /** A logged delete of a file that was never added makes the replay of its family fail. */
  lemma ForgottenDeletes(fs: FileSet, e: Edit, cfs: set<CfId>)
    requires Sound(fs) && FreshNumbers(fs, e) && LogAndApply(fs, e).Some? && e.cf in cfs
    requires DeletedNumbers(e.deleted) !! Logged(fs, e.cf).deleted.Keys
    requires !(DeletedNumbers(e.deleted) <= Logged(fs, e.cf).added.Keys + NumbersOf(e.added))
    ensures Replay(LogAndApply(fs, e).value.log, cfs).None?
  {
    var edit := e.(next := Some(fs.next));
    var c := AddEdits(EMPTY, fs.log).value;
    FreshEditExtends(fs, e);
    PersistDeletesClosed(e.deleted);
    var n :| n in DeletedNumbers(e.deleted) && n !in Logged(fs, e.cf).added.Keys + NumbersOf(e.added);
    var c' := Extended(c, edit);
    assert n in c'.cfs[e.cf].deleted && n !in c'.cfs[e.cf].added;
    MissingAddFails(LogAndApply(fs, e).value.log, c', e.cf, n, cfs);
  }

  lemma MissingAddFails(log: seq<Edit>, c: Collected, cf: CfId, n: FileNumber, cfs: set<CfId>)
    requires AddEdits(EMPTY, log) == Some(c) && cf in c.cfs && cf in cfs
    requires n in c.cfs[cf].deleted && n !in c.cfs[cf].added
    ensures Replay(log, cfs).None?
  {
    var empty: map<CfId, Store> := map cf | cf in cfs :: map[];
    assert !SealStore(empty[cf], c.cfs[cf]);
  }

  /** Every accepted edit keeps the log replayable and in step with the storages. */
  lemma LogAndApplySound(fs: FileSet, e: Edit)
    requires Sound(fs) && Disciplined(fs, e) && LogAndApply(fs, e).Some?
    ensures Sound(LogAndApply(fs, e).value)
  {
    var fs' := LogAndApply(fs, e).value;
    var c := AddEdits(EMPTY, fs.log).value;
    var edit := e.(next := Some(fs.next));
    AcceptedEditExtends(fs, e);
    SingleEdit(edit);
    ExtendedCfsSound(fs, fs', c, edit);
    ExtendedStoresSound(fs, c, edit);
    forall cf | cf in Extended(c, edit).cfs, n | n in Extended(c, edit).cfs[cf].added ensures n < fs.next {
      assert CfSound(fs', Extended(c, edit).cfs[cf]);
    }
  }

  // ---------------------------------------------------------------- snapshots and restarts

  /** The per-family records of a manifest snapshot, in any order. */
  ghost predicate SnapshotBody(log: seq<Edit>, stores: map<CfId, Store>)
    decreases |log|
  {
    if log == [] then stores == map[]
    else
      var n := |log| - 1;
      var e := log[n];
      && e.cf in stores && e.deleted == [] && e.next == None
      && DistinctFiles(e.added) && FileMap(e.added) == LiveFiles(stores[e.cf])
      && SnapshotBody(log[..n], stores - {e.cf})
  }

  /** `WriteSnapshot`: the counter first, then one record for each open column family. */
  ghost predicate IsSnapshot(log: seq<Edit>, stores: map<CfId, Store>, next: nat) {
    && log != [] && log[0] == Edit(0, [], [], Some(next))
    && SnapshotBody(log[1..], stores)
  }

  ghost predicate CollectsSnapshot(c: Collected, stores: map<CfId, Store>, next: nat) {
    && c.next == Some(next)
    && (forall cf | cf in stores :: EditsOf(c, cf) == CfEdits(LiveFiles(stores[cf]), map[]))
    && (forall cf | cf !in stores :: EditsOf(c, cf) == NO_EDITS)
  }

  lemma SnapshotStep(c: Collected, e: Edit, stores: map<CfId, Store>, next: nat)
    requires e.cf in stores && e.deleted == [] && e.next == None
    requires DistinctFiles(e.added) && FileMap(e.added) == LiveFiles(stores[e.cf])
    requires CollectsSnapshot(c, stores - {e.cf}, next)
    ensures AddEdit(c, e).Some? && CollectsSnapshot(AddEdit(c, e).value, stores, next)
  {
    assert EditsOf(c, e.cf) == NO_EDITS;
    AddFilesClosed(NO_EDITS, e.added);
    assert map[] + FileMap(e.added) == FileMap(e.added);
    var c' := AddEdit(c, e).value;
    forall cf | cf in stores ensures EditsOf(c', cf) == CfEdits(LiveFiles(stores[cf]), map[]) {
      if cf != e.cf {
        assert cf in stores - {e.cf};
        assert EditsOf(c', cf) == EditsOf(c, cf);
      }
    }
    forall cf | cf !in stores ensures EditsOf(c', cf) == NO_EDITS {
      assert cf !in stores - {e.cf};
    }
  }

  lemma {:induction false} SnapshotCollects(log: seq<Edit>, stores: map<CfId, Store>, next: nat)
    requires IsSnapshot(log, stores, next)
    ensures AddEdits(EMPTY, log).Some? && CollectsSnapshot(AddEdits(EMPTY, log).value, stores, next)
    decreases |log|
  {
    var n := |log| - 1;
    if n == 0 {
      assert log == [] + [log[0]];
      AddEditsAppend(EMPTY, [], log[0]);
    } else {
      var e, init := log[n], log[..n];
      assert log[1..][n - 1] == e && log[1..][..n - 1] == init[1..];
      SnapshotCollects(init, stores - {e.cf}, next);
      assert log == init + [e];
      AddEditsAppend(EMPTY, init, e);
      SnapshotStep(AddEdits(EMPTY, init).value, e, stores, next);
    }
  }

  /** Replaying a sound log: accepted, the live files come back, nothing is left obsolete. */
  lemma ApplyToEmpty(e: CfEdits)
    requires e.deleted.Keys <= e.added.Keys
    ensures SealStore(map[], e) && ApplyStore(map[], e) == Remaining(e)
  {}

  lemma ReplaySound(fs: FileSet, cfs: set<CfId>)
    requires Sound(fs)
    ensures Replay(fs.log, cfs).Some?
    ensures var (stores, next) := Replay(fs.log, cfs).value;
            && stores.Keys == cfs
            && (forall cf | cf in cfs :: stores[cf] == Remaining(Logged(fs, cf)))
            && (forall cf | cf in cfs && cf in fs.stores :: stores[cf] == LiveFiles(fs.stores[cf]))
            && (forall cf | cf in cfs, n | n in stores[cf] ::
                  n < next && !stores[cf][n].IsObsolete() && stores[cf][n] == stores[cf][n].Persisted())
            && next <= fs.next
  {
    var c := AddEdits(EMPTY, fs.log).value;
    var empty: map<CfId, Store> := map cf | cf in cfs :: map[];
    forall cf | cf in cfs
      ensures SealStore(empty[cf], EditsOf(c, cf)) && ApplyStore(empty[cf], EditsOf(c, cf)) == Remaining(EditsOf(c, cf))
    {
      assert cf in c.cfs ==> CfSound(fs, c.cfs[cf]);
      ApplyToEmpty(EditsOf(c, cf));
    }
    assert SealAll(empty, c) by {
      forall cf | cf in c.cfs && cf in empty ensures SealStore(empty[cf], c.cfs[cf]) {
        assert EditsOf(c, cf) == c.cfs[cf];
      }
    }
    var (stores, next) := Replay(fs.log, cfs).value;
    assert forall cf | cf in cfs :: stores[cf] == Remaining(EditsOf(c, cf));
    forall cf | cf in cfs && cf in fs.stores ensures stores[cf] == LiveFiles(fs.stores[cf]) {
      assert StoreSound(fs.stores[cf], EditsOf(c, cf));
    }
    forall cf | cf in cfs, n | n in stores[cf]
      ensures n < next && !stores[cf][n].IsObsolete() && stores[cf][n] == stores[cf][n].Persisted()
    {
      assert cf in c.cfs && CfSound(fs, c.cfs[cf]);
    }
  }

  // ---------------------------------------------------------------- every run of the file set

  datatype Step =
    | NewFileNumber
    | LogEdit(edit: Edit)
    | Touch(cf: CfId, number: FileNumber, meta: FileMeta)
    | PurgeFiles(cf: CfId, gone: set<FileNumber>)
    | AddCf(cf: CfId)
    | RemoveCf(cf: CfId)
    | Restart(cfs: set<CfId>, snapshot: seq<Edit>)

  function WithFile(store: Store, n: FileNumber, m: FileMeta): Store { store[n := m] }

  /** Column family ids are never reused while a log mentions their files. */
  ghost predicate NeverUsed(fs: FileSet, cf: CfId) {
    cf !in fs.stores && forall i | 0 <= i < |fs.log| && fs.log[i].cf == cf ::
      fs.log[i].added == [] && fs.log[i].deleted == []
  }

  ghost predicate Enabled(fs: FileSet, step: Step) {
    match step
    case NewFileNumber => true
    case LogEdit(e) => Disciplined(fs, e)
    case Touch(cf, n, m) =>
      && cf in fs.stores && n in fs.stores[cf]
      && m.Persisted() == fs.stores[cf][n].Persisted() && m.IsObsolete() == fs.stores[cf][n].IsObsolete()
    case PurgeFiles(cf, gone) =>
      cf in fs.stores && forall n | n in gone :: n in fs.stores[cf] && fs.stores[cf][n].IsObsolete()
    case AddCf(cf) => NeverUsed(fs, cf)
    case RemoveCf(cf) => true
    case Restart(cfs, snapshot) =>
      Replay(fs.log, cfs).Some? ==>
        var (stores, next) := Replay(fs.log, cfs).value;
        IsSnapshot(snapshot, stores, next + 1)
  }

  /** A rejected edit changes nothing; a failed replay leaves the database closed. */
  ghost function Apply(fs: FileSet, step: Step): Option<FileSet>
    requires Enabled(fs, step)
  {
    match step
    case NewFileNumber => Some(fs.(next := fs.next + 1, pending := fs.pending + {fs.next}))
    case LogEdit(e) => Some(if LogAndApply(fs, e).Some? then LogAndApply(fs, e).value else fs)
    case Touch(cf, n, m) => Some(fs.(stores := fs.stores[cf := WithFile(fs.stores[cf], n, m)]))
    case PurgeFiles(cf, gone) => Some(fs.(stores := fs.stores[cf := fs.stores[cf] - gone]))
    case AddCf(cf) => Some(fs.(stores := fs.stores[cf := map[]]))
    case RemoveCf(cf) => Some(fs.(stores := fs.stores - {cf}))
    case Restart(cfs, snapshot) =>
      match Replay(fs.log, cfs)
      case None => None
      case Some((stores, next)) => Some(FileSet(stores, snapshot, next + 1, {}))
  }

  lemma TouchSound(fs: FileSet, cf: CfId, n: FileNumber, m: FileMeta)
    requires Sound(fs) && Enabled(fs, Touch(cf, n, m))
    ensures Sound(fs.(stores := fs.stores[cf := WithFile(fs.stores[cf], n, m)]))
  {
    var store := WithFile(fs.stores[cf], n, m);
    assert LiveFiles(store) == LiveFiles(fs.stores[cf]);
    SameLiveSound(fs, cf, store);
  }

  lemma PurgeSound(fs: FileSet, cf: CfId, gone: set<FileNumber>)
    requires Sound(fs) && Enabled(fs, PurgeFiles(cf, gone))
    ensures Sound(fs.(stores := fs.stores[cf := fs.stores[cf] - gone]))
  {
    assert LiveFiles(fs.stores[cf] - gone) == LiveFiles(fs.stores[cf]);
    SameLiveSound(fs, cf, fs.stores[cf] - gone);
  }

  /** Changes that leave the live files of a family alone leave the log in step with it. */
  lemma SameLiveSound(fs: FileSet, cf: CfId, store: Store)
    requires Sound(fs) && cf in fs.stores
    requires store.Keys <= fs.stores[cf].Keys && LiveFiles(store) == LiveFiles(fs.stores[cf])
    ensures Sound(fs.(stores := fs.stores[cf := store]))
  {
    var fs' := fs.(stores := fs.stores[cf := store]);
    var c := AddEdits(EMPTY, fs.log).value;
    forall x | x in fs'.stores ensures StoreSound(fs'.stores[x], EditsOf(c, x)) {
      assert StoreSound(fs.stores[x], EditsOf(c, x));
    }
    forall x | x in c.cfs ensures CfSound(fs', c.cfs[x]) { assert CfSound(fs, c.cfs[x]); }
  }

  lemma {:induction false} NeverUsedCollectsNothing(log: seq<Edit>, cf: CfId)
    requires AddEdits(EMPTY, log).Some?
    requires forall i | 0 <= i < |log| :: log[i].cf == cf ==> log[i].added == [] && log[i].deleted == []
    ensures EditsOf(AddEdits(EMPTY, log).value, cf) == NO_EDITS
  {
    if log != [] {
      NeverUsedCollectsNothing(log[..|log| - 1], cf);
    }
  }

  lemma AddCfSound(fs: FileSet, cf: CfId)
    requires Sound(fs) && NeverUsed(fs, cf)
    ensures Sound(fs.(stores := fs.stores[cf := map[]]))
  {
    var fs' := fs.(stores := fs.stores[cf := map[]]);
    var c := AddEdits(EMPTY, fs.log).value;
    NeverUsedCollectsNothing(fs.log, cf);
    forall x | x in fs'.stores ensures StoreSound(fs'.stores[x], EditsOf(c, x)) {
      if x != cf { assert StoreSound(fs.stores[x], EditsOf(c, x)); }
    }
    forall x | x in c.cfs ensures CfSound(fs', c.cfs[x]) { assert CfSound(fs, c.cfs[x]); }
  }

  lemma SnapshotSound(stores: map<CfId, Store>, log: seq<Edit>, next: nat)
    requires IsSnapshot(log, stores, next)
    requires forall cf | cf in stores, n | n in stores[cf] ::
               n < next && !stores[cf][n].IsObsolete() && stores[cf][n] == stores[cf][n].Persisted()
    ensures Sound(FileSet(stores, log, next, {}))
  {
    var fs := FileSet(stores, log, next, {});
    SnapshotCollects(log, stores, next);
    var c := AddEdits(EMPTY, log).value;
    forall cf | cf in c.cfs ensures CfSound(fs, c.cfs[cf]) {
      assert c.cfs[cf] == EditsOf(c, cf);
    }
    forall cf | cf in c.cfs, n | n in c.cfs[cf].added ensures n < next {
      assert c.cfs[cf] == EditsOf(c, cf);
    }
  }

  lemma NewFileNumberSound(fs: FileSet)
    requires Sound(fs)
    ensures Sound(fs.(next := fs.next + 1, pending := fs.pending + {fs.next}))
  {
    var fs' := fs.(next := fs.next + 1, pending := fs.pending + {fs.next});
    var c := AddEdits(EMPTY, fs.log).value;
    forall x | x in c.cfs ensures CfSound(fs', c.cfs[x]) { assert CfSound(fs, c.cfs[x]); }
  }

  lemma RemoveCfSound(fs: FileSet, cf: CfId)
    requires Sound(fs)
    ensures Sound(fs.(stores := fs.stores - {cf}))
  {
    var fs' := fs.(stores := fs.stores - {cf});
    var c := AddEdits(EMPTY, fs.log).value;
    forall x | x in c.cfs ensures CfSound(fs', c.cfs[x]) { assert CfSound(fs, c.cfs[x]); }
  }

  /** Every step keeps the log replayable; in particular a restart never fails. */
  lemma StepSound(fs: FileSet, step: Step)
    requires Sound(fs) && Enabled(fs, step)
    ensures Apply(fs, step).Some? && Sound(Apply(fs, step).value)
  {
    match step
    case NewFileNumber => NewFileNumberSound(fs);
    case LogEdit(e) => if LogAndApply(fs, e).Some? { LogAndApplySound(fs, e); }
    case Touch(cf, n, m) => TouchSound(fs, cf, n, m);
    case PurgeFiles(cf, gone) => PurgeSound(fs, cf, gone);
    case AddCf(cf) => AddCfSound(fs, cf);
    case RemoveCf(cf) => RemoveCfSound(fs, cf);
    case Restart(cfs, snapshot) => RestartSound(fs, cfs, snapshot);
  }

  lemma RestartSound(fs: FileSet, cfs: set<CfId>, snapshot: seq<Edit>)
    requires Sound(fs)
    requires Replay(fs.log, cfs).Some? ==>
               var (stores, next) := Replay(fs.log, cfs).value; IsSnapshot(snapshot, stores, next + 1)
    ensures Replay(fs.log, cfs).Some?
    ensures var (stores, next) := Replay(fs.log, cfs).value; Sound(FileSet(stores, snapshot, next + 1, {}))
  {
    ReplaySound(fs, cfs);
    var (stores, next) := Replay(fs.log, cfs).value;
    SnapshotSound(stores, snapshot, next + 1);
  }

  ghost predicate Runs(fs: FileSet, steps: seq<Step>)
    decreases |steps|
  {
    steps == [] ||
    (Enabled(fs, steps[0]) && (Apply(fs, steps[0]).Some? ==> Runs(Apply(fs, steps[0]).value, steps[1..])))
  }

  ghost function Exec(fs: FileSet, steps: seq<Step>): Option<FileSet>
    requires Runs(fs, steps)
    decreases |steps|
  {
    if steps == [] then Some(fs)
    else
      match Apply(fs, steps[0])
      case None => None
      case Some(fs') => Exec(fs', steps[1..])
  }

  /** A new database: the first manifest is number 1 and holds only the counter. */
  const FRESH := FileSet(map[], [Edit(0, [], [], Some(2))], 2, {})

  lemma {:induction false} RunSound(fs: FileSet, steps: seq<Step>)
    requires Sound(fs) && Runs(fs, steps)
    ensures Exec(fs, steps).Some? && Sound(Exec(fs, steps).value)
    decreases |steps|
  {
    if steps != [] {
      StepSound(fs, steps[0]);
      RunSound(Apply(fs, steps[0]).value, steps[1..]);
    }
  }

  lemma FreshSound()
    ensures Sound(FRESH)
  {
    assert SnapshotBody(FRESH.log[1..], map[]);
    SnapshotSound(map[], FRESH.log, 2);
  }

  /**
   The manifest theorem.  After any run from a new database, with any number of restarts in it, the
   next restart accepts the log, brings back exactly the files that were added and not deleted, with
   none left obsolete, and resumes the file counter above every number that any logged edit carries.
   */
  lemma RestartRebuilds(steps: seq<Step>, cfs: set<CfId>)
    requires Runs(FRESH, steps)
    ensures Exec(FRESH, steps).Some?
    ensures var fs := Exec(FRESH, steps).value;
            && Replay(fs.log, cfs).Some?
            && var (stores, next) := Replay(fs.log, cfs).value;
            && stores.Keys == cfs
            && (forall cf | cf in cfs :: stores[cf] == Remaining(Logged(fs, cf)))
            && (forall cf | cf in cfs && cf in fs.stores :: stores[cf] == LiveFiles(fs.stores[cf]))
            && (forall cf | cf in cfs, n | n in stores[cf] :: !stores[cf][n].IsObsolete() && n < next)
            && (forall i, n | 0 <= i < |fs.log| && n in NumbersOf(fs.log[i].added) :: n < next)
  {
    FreshSound();
    RunSound(FRESH, steps);
    var fs := Exec(FRESH, steps).value;
    ReplaySound(fs, cfs);
    var c := AddEdits(EMPTY, fs.log).value;
    forall i, n | 0 <= i < |fs.log| && n in NumbersOf(fs.log[i].added) ensures n < c.next.value {
      LoggedIsCollected(fs.log, i, n);
    }
  }

  /** A number that some edit added is among the collected files of its column family. */
  lemma {:induction false} LoggedIsCollected(log: seq<Edit>, i: nat, n: FileNumber)
    requires AddEdits(EMPTY, log).Some? && i < |log| && n in NumbersOf(log[i].added)
    ensures var c := AddEdits(EMPTY, log).value;
            log[i].cf in c.cfs && n in c.cfs[log[i].cf].added
  {
    var last := |log| - 1;
    var c := AddEdits(EMPTY, log[..last]).value;
    var had := EditsOf(c, log[last].cf);
    AddFilesClosed(had, log[last].added);
    DeleteFilesClosed(AddFiles(had, log[last].added).value, log[last].deleted);
    if i < last { LoggedIsCollected(log[..last], i, n); }
  }

  /** Over every run, the number that is handed out next is in no storage and in no logged edit. */
  lemma NumbersStayFresh(steps: seq<Step>)
    requires Runs(FRESH, steps)
    ensures Exec(FRESH, steps).Some?
    ensures var fs := Exec(FRESH, steps).value;
            && (forall cf | cf in fs.stores :: fs.next !in fs.stores[cf])
            && (forall i | 0 <= i < |fs.log| :: fs.next !in NumbersOf(fs.log[i].added))
            && fs.next !in fs.pending
  {
    FreshSound();
    RunSound(FRESH, steps);
    var fs := Exec(FRESH, steps).value;
    var c := AddEdits(EMPTY, fs.log).value;
    forall cf | cf in fs.stores ensures fs.next !in fs.stores[cf] {
      assert StoreSound(fs.stores[cf], EditsOf(c, cf));
      assert cf in c.cfs ==> CfSound(fs, c.cfs[cf]);
    }
    forall i, n | 0 <= i < |fs.log| && n in NumbersOf(fs.log[i].added) ensures n < fs.next {
      LoggedIsCollected(fs.log, i, n);
    }
  }

  /** `Seal` skips families that are not open, so there a second delete is logged, and no restart succeeds. */
  lemma SecondDeleteUnseen(fs: FileSet, cf: CfId, n: FileNumber, q: SeqNo, cfs: set<CfId>)
    requires Sound(fs) && cf !in fs.stores && n in Logged(fs, cf).deleted
    ensures var e := Edit(cf, [], [(n, q)], None);
            LogAndApply(fs, e).Some? && Replay(LogAndApply(fs, e).value.log, cfs).None?
  {
    var e := Edit(cf, [], [(n, q)], None);
    OneDelete(n, q);
    AcceptedIff(fs, e);
    ReplaysIff(fs, e, cfs);
  }

  lemma OneDelete(n: FileNumber, q: SeqNo)
    ensures DeletedNumbers([(n, q)]) == {n} && DistinctDeletes([(n, q)]) && DeleteMap([(n, q)]) == map[n := q]
  {
    assert [(n, q)][..0] == [];
    assert DeletedNumbers([]) == {} && DeleteMap([]) == map[];
  }

  lemma OneFile(m: FileMeta)
    ensures NumbersOf([m]) == {m.number} && DistinctFiles([m]) && FileMap([m]) == map[m.number := m]
  {
    assert [m][..0] == [];
    assert NumbersOf([]) == {} && FileMap([]) == map[];
  }

  /** What an accepted edit does to the storage of its family. */
  lemma AcceptedStore(fs: FileSet, e: Edit)
    requires LogAndApply(fs, e).Some? && e.cf in fs.stores
    ensures var fs' := LogAndApply(fs, e).value;
            && fs'.stores.Keys == fs.stores.Keys
            && fs'.stores[e.cf] == ApplyStore(fs.stores[e.cf], CfEdits(FileMap(e.added), DeleteMap(e.deleted)))
  {
    SingleEdit(e.(next := Some(fs.next)));
  }

  lemma AddOneAccepted(fs: FileSet, cf: CfId, m: FileMeta)
    requires cf in fs.stores && fs.stores[cf] == map[] && m.number in fs.pending && !m.IsObsolete()
    ensures var e := Edit(cf, [m], [], None);
            && Disciplined(fs, e) && LogAndApply(fs, e).Some?
            && cf in LogAndApply(fs, e).value.stores && LogAndApply(fs, e).value.stores[cf] == map[m.number := m]
  {
    var e := Edit(cf, [m], [], None);
    OneFile(m);
    AcceptedIff(fs, e);
    AcceptedStore(fs, e);
    assert DeleteMap([]) == map[];
    assert ApplyStore(map[], CfEdits(map[m.number := m], map[])) == map[m.number := m];
  }

  lemma DeleteOneAccepted(fs: FileSet, cf: CfId, m: FileMeta, q: SeqNo)
    requires Sound(fs) && cf in fs.stores && fs.stores[cf] == map[m.number := m] && !m.IsObsolete()
    ensures var e := Edit(cf, [], [(m.number, q)], None);
            && Disciplined(fs, e) && LogAndApply(fs, e).Some?
            && m.number in Logged(LogAndApply(fs, e).value, cf).deleted
  {
    var e := Edit(cf, [], [(m.number, q)], None);
    OneDelete(m.number, q);
    AcceptedIff(fs, e);
    AcceptedEditExtends(fs, e);
    PersistDeletesClosed(e.deleted);
  }

  lemma FirstStep(fs: FileSet, step: Step, fs': FileSet, rest: seq<Step>)
    requires Enabled(fs, step) && Apply(fs, step) == Some(fs') && Runs(fs', rest)
    ensures Runs(fs, [step] + rest) && Exec(fs, [step] + rest) == Exec(fs', rest)
  {
    assert ([step] + rest)[1..] == rest;
  }

  /** The family is closed and the log says that the file was deleted. */
  ghost predicate ClosedAfterDelete(fs: FileSet, cf: CfId, n: FileNumber) {
    Sound(fs) && cf !in fs.stores && n in Logged(fs, cf).deleted
  }

  lemma CloseFamily(fs: FileSet, cf: CfId, n: FileNumber)
    requires Sound(fs) && n in Logged(fs, cf).deleted
    ensures var steps := [RemoveCf(cf)] + [];
            Runs(fs, steps) && Exec(fs, steps).Some? && ClosedAfterDelete(Exec(fs, steps).value, cf, n)
  {
    var fs' := fs.(stores := fs.stores - {cf});
    RemoveCfSound(fs, cf);
    assert Runs(fs', []) && Exec(fs', []) == Some(fs');
    FirstStep(fs, RemoveCf(cf), fs', []);
  }

  lemma DeleteThenClose(fs: FileSet, cf: CfId, m: FileMeta) returns (steps: seq<Step>)
    requires Sound(fs) && cf in fs.stores && fs.stores[cf] == map[m.number := m] && !m.IsObsolete()
    ensures Runs(fs, steps) && Exec(fs, steps).Some? && ClosedAfterDelete(Exec(fs, steps).value, cf, m.number)
  {
    var e := Edit(cf, [], [(m.number, 5)], None);
    DeleteOneAccepted(fs, cf, m, 5);
    LogAndApplySound(fs, e);
    var fs' := LogAndApply(fs, e).value;
    CloseFamily(fs', cf, m.number);
    steps := [LogEdit(e)] + ([RemoveCf(cf)] + []);
    FirstStep(fs, LogEdit(e), fs', [RemoveCf(cf)] + []);
  }

  lemma AddThenDelete(fs: FileSet, cf: CfId, m: FileMeta) returns (steps: seq<Step>)
    requires Sound(fs) && cf in fs.stores && fs.stores[cf] == map[] && m.number in fs.pending && !m.IsObsolete()
    ensures Runs(fs, steps) && Exec(fs, steps).Some? && ClosedAfterDelete(Exec(fs, steps).value, cf, m.number)
  {
    var e := Edit(cf, [m], [], None);
    AddOneAccepted(fs, cf, m);
    LogAndApplySound(fs, e);
    var fs' := LogAndApply(fs, e).value;
    var rest := DeleteThenClose(fs', cf, m);
    steps := [LogEdit(e)] + rest;
    FirstStep(fs, LogEdit(e), fs', rest);
  }

  /** From a new database: open a family, add a file, delete it, close the family. */
  lemma OpenAddDeleteClose() returns (steps: seq<Step>)
    ensures Runs(FRESH, steps) && Exec(FRESH, steps).Some? && ClosedAfterDelete(Exec(FRESH, steps).value, 1, 2)
  {
    FreshSound();
    var s1 := FRESH.(stores := map[1 := map[]]);
    AddCfSound(FRESH, 1);
    var s2 := s1.(next := s1.next + 1, pending := s1.pending + {s1.next});
    NewFileNumberSound(s1);
    var rest := AddThenDelete(s2, 1, FileMeta(2, 100, 1, 0, 1, 2, 0, Normal));
    FirstStep(s1, NewFileNumber, s2, rest);
    FirstStep(FRESH, AddCf(1), s1, [NewFileNumber] + rest);
    steps := [AddCf(1)] + ([NewFileNumber] + rest);
  }

  /** A run of the database after which such an edit is accepted and every restart fails. */
  lemma UnopenedDeleteBreaksRestart() returns (steps: seq<Step>)
    ensures Runs(FRESH, steps) && Exec(FRESH, steps).Some?
    ensures var fs := Exec(FRESH, steps).value;
            var e := Edit(1, [], [(2, 7)], None);
            LogAndApply(fs, e).Some? && forall cfs :: Replay(LogAndApply(fs, e).value.log, cfs).None?
  {
    steps := OpenAddDeleteClose();
    var fs := Exec(FRESH, steps).value;
    SecondDeleteUnseen(fs, 1, 2, 7, {});
    forall cfs ensures Replay(LogAndApply(fs, Edit(1, [], [(2, 7)], None)).value.log, cfs).None? {
      SecondDeleteUnseen(fs, 1, 2, 7, cfs);
    }
  }

  /**
   The edit that the level-merge branches of `OnCompactionCompleted` and `DeleteFilesInRanges` build
   never has its column family set, so it goes to family 0.  It is accepted exactly when its files are
   live files of family 0; a dead blob file of any other family is not deleted.
   */
  lemma LevelMergeEditGoesToDefaultCf(fs: FileSet, dead: seq<(FileNumber, SeqNo)>)
    requires 0 in fs.stores && DistinctDeletes(dead)
    ensures LogAndApply(fs, Edit(0, [], dead, None)).Some? <==>
              forall n | n in DeletedNumbers(dead) :: n in fs.stores[0] && !fs.stores[0][n].IsObsolete()
    ensures LogAndApply(fs, Edit(0, [], dead, None)).Some? ==>
              forall cf | cf in fs.stores && cf != 0 ::
                LogAndApply(fs, Edit(0, [], dead, None)).value.stores[cf] == fs.stores[cf]
  {
    var edit := Edit(0, [], dead, Some(fs.next));
    DeleteFilesClosed(NO_EDITS, dead);
    SingleEdit(edit);
    var c := AddEdit(EMPTY, edit).value;
    assert SealAll(fs.stores, c) <==> SealStore(fs.stores[0], c.cfs[0]);
    forall cf | cf in fs.stores && cf != 0 ensures ApplyAll(fs.stores, c)[cf] == fs.stores[cf] {
      ApplyNothing(fs.stores[cf]);
    }
  }

  /** A dead file of family 1: the edit meant to delete it is refused, and the file stays live. */
  lemma DeadFileOfOtherFamilyStays(fs: FileSet, q: SeqNo)
    requires fs.stores == map[0 := map[], 1 := map[7 := FileMeta(7, 100, 1, 0, 5, 9, 0, Normal)]]
    ensures LogAndApply(fs, Edit(0, [], [(7, q)], None)).None? && LogAndApply(fs, Edit(1, [], [(7, q)], None)).Some?
    ensures 7 in LiveFiles(fs.stores[1])
  {
    var m := FileMeta(7, 100, 1, 0, 5, 9, 0, Normal);
    OneDelete(7, q);
    LevelMergeEditGoesToDefaultCf(fs, [(7, q)]);
    AcceptedIff(fs, Edit(1, [], [(7, q)], None));
    assert fs.stores[1] == map[7 := m] && !m.IsObsolete();
  }
}
