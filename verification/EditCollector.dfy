/**
 The manifest code as it runs: `EditCollector` gathers edits in place, `BlobFileSet` logs and applies
 them to the column families' storages, and `Recover` replays a log with one collector.
 */
module EditCollection {
  import opened Wrappers
  import opened BlobFileMeta
  import opened Manifest
  import opened ManifestProofs
  import opened Storage

  // ---------------------------------------------------------------- failing prefixes

  lemma {:induction false} AddFilesFailsLate(c: CfEdits, files: seq<FileMeta>, n: nat)
    requires n <= |files| && AddFiles(c, files[..n]).None?
    ensures AddFiles(c, files).None?
  {
    if n < |files| {
      assert files[..|files| - 1][..n] == files[..n];
      AddFilesFailsLate(c, files[..|files| - 1], n);
    } else {
      assert files[..n] == files;
    }
  }

  lemma {:induction false} DeleteFilesFailsLate(c: CfEdits, files: seq<(FileNumber, SeqNo)>, n: nat)
    requires n <= |files| && DeleteFiles(c, files[..n]).None?
    ensures DeleteFiles(c, files).None?
  {
    if n < |files| {
      assert files[..|files| - 1][..n] == files[..n];
      DeleteFilesFailsLate(c, files[..|files| - 1], n);
    } else {
      assert files[..n] == files;
    }
  }

  lemma {:induction false} AddEditsFailsLate(c: Collected, log: seq<Edit>, n: nat)
    requires n <= |log| && AddEdits(c, log[..n]).None?
    ensures AddEdits(c, log).None?
  {
    if n < |log| {
      assert log[..|log| - 1][..n] == log[..n];
      AddEditsFailsLate(c, log[..|log| - 1], n);
    } else {
      assert log[..n] == log;
    }
  }

  /** Collected files sit under their own number and fit the storage they go to. */
  ghost predicate Fits(e: CfEdits, levels: nat) {
    forall n | n in e.added :: e.added[n].number == n && MetaOk(e.added[n], levels) && !e.added[n].IsObsolete()
  }

  class EditCollector {
    var ok: bool
    var isSealed: bool
    var cfs: map<CfId, CfEdits>
    var next: Option<nat>

    ghost function View(): Collected
      reads this
    {
      Collected(cfs, next)
    }

    constructor ()
      ensures ok && !isSealed && View() == EMPTY
    {
      ok, isSealed, cfs, next := true, false, map[], None;
    }

    /** `AddEdit`: added files, then deleted files, then the counter; the first corruption stops it. */
    method AddEdit(e: Edit) returns (r: bool)
      requires ok
      modifies this
      ensures isSealed == old(isSealed)
      ensures old(isSealed) ==> !r && ok && View() == old(View())
      ensures !old(isSealed) ==> r == ok == Manifest.AddEdit(old(View()), e).Some?
      ensures r ==> View() == Manifest.AddEdit(old(View()), e).value
    {
      if isSealed { return false; }
      ghost var first := EditsOf(View(), e.cf);
      var c := if e.cf in cfs then cfs[e.cf] else NO_EDITS;
      for i := 0 to |e.added|
        invariant AddFiles(first, e.added[..i]) == Some(c)
        invariant View() == old(View()) && !isSealed && ok
      {
        assert e.added[..i + 1][..i] == e.added[..i];
        if e.added[i].number in c.added {
          AddFilesFailsLate(first, e.added, i + 1);
          ok := false;
          return false;
        }
        c := c.(added := c.added[e.added[i].number := e.added[i]]);
      }
      assert e.added[..|e.added|] == e.added;
      ghost var second := c;
      for i := 0 to |e.deleted|
        invariant DeleteFiles(second, e.deleted[..i]) == Some(c)
        invariant View() == old(View()) && !isSealed && ok
      {
        assert e.deleted[..i + 1][..i] == e.deleted[..i];
        if e.deleted[i].0 in c.deleted {
          DeleteFilesFailsLate(second, e.deleted, i + 1);
          ok := false;
          return false;
        }
        c := c.(deleted := c.deleted[e.deleted[i].0 := e.deleted[i].1]);
      }
      assert e.deleted[..|e.deleted|] == e.deleted;
      if e.next.Some? {
        if next.Some? && e.next.value < next.value {
          ok := false;
          return false;
        }
        next := e.next;
      }
      cfs := cfs[e.cf := c];
      return true;
    }
  }

  /** `CFEditCollector::Seal`: look for an added file that exists or a deleted file that does not. */
  method SealFamily(e: CfEdits, files: Store) returns (r: bool)
    ensures r == SealStore(files, e)
  {
    var todo := e.added.Keys;
    while todo != {}
      invariant todo <= e.added.Keys
      invariant forall n | n in e.added && n !in todo :: n !in files
    {
      var n :| n in todo;
      if n in files { return false; }
      todo := todo - {n};
    }
    todo := e.deleted.Keys;
    while todo != {}
      invariant todo <= e.deleted.Keys
      invariant forall n | n in e.deleted && n !in todo :: n in e.added || (n in files && !files[n].IsObsolete())
    {
      var n :| n in todo;
      if n !in e.added {
        if n !in files { return false; }
        if files[n].IsObsolete() { return false; }
      }
      todo := todo - {n};
    }
    return true;
  }

  /** The files of a family after the additions outside `todo`. */
  ghost function AddedSoFar(files: Store, e: CfEdits, todo: set<FileNumber>): Store {
    files + (map n | n in e.added && n !in e.deleted && n !in todo :: e.added[n])
  }

  /** The files of a family after the deletions outside `todo`. */
  ghost function DeletedSoFar(files: Store, e: CfEdits, todo: set<FileNumber>): Store {
    map n | n in files ::
      if n in e.deleted && n !in e.added && n !in todo then files[n].(state := Obsolete) else files[n]
  }

  lemma AddedStep(files: Store, e: CfEdits, todo: set<FileNumber>, n: FileNumber)
    requires n in todo && n in e.added && SealStore(files, e)
    ensures n !in AddedSoFar(files, e, todo)
    ensures AddedSoFar(files, e, todo - {n}) ==
            if n in e.deleted then AddedSoFar(files, e, todo) else AddedSoFar(files, e, todo)[n := e.added[n]]
  {}

  lemma AddedEnds(files: Store, e: CfEdits)
    ensures AddedSoFar(files, e, e.added.Keys) == files
  {}

  lemma DeletedStep(files: Store, e: CfEdits, todo: set<FileNumber>, n: FileNumber)
    requires n in todo && n in e.deleted && (n in e.added || (n in files && !files[n].IsObsolete()))
    ensures n !in e.added ==> n in DeletedSoFar(files, e, todo) && DeletedSoFar(files, e, todo)[n] == files[n]
    ensures DeletedSoFar(files, e, todo - {n}) ==
            if n in e.added then DeletedSoFar(files, e, todo)
            else DeletedSoFar(files, e, todo)[n := files[n].(state := Obsolete)]
  {}

  lemma DeletedEnds(files: Store, e: CfEdits)
    ensures DeletedSoFar(files, e, e.deleted.Keys) == files
  {}

  /** Additions then deletions, with paired ones skipped on both sides, are the batch. */
  lemma BatchIsBoth(files: Store, e: CfEdits)
    requires SealStore(files, e)
    ensures DeletedSoFar(AddedSoFar(files, e, {}), e, {}) == ApplyStore(files, e)
    ensures forall n | n in e.deleted ::
              n in e.added || (n in AddedSoFar(files, e, {}) && !AddedSoFar(files, e, {})[n].IsObsolete())
  {}

  /** The list keeps its entries, and the deletions outside `todo` are in it with the sequence of the edit. */
  ghost predicate DatedAs(e: CfEdits, todo: set<FileNumber>, was: seq<(FileNumber, SeqNo)>,
                          list: seq<(FileNumber, SeqNo)>) {
    was <= list && forall n | n in e.deleted && n !in e.added && n !in todo :: (n, e.deleted[n]) in list
  }

  lemma DatedMore(e: CfEdits, todo: set<FileNumber>, was: seq<(FileNumber, SeqNo)>, list: seq<(FileNumber, SeqNo)>,
                  n: FileNumber)
    requires DatedAs(e, todo, was, list) && n in e.deleted
    ensures DatedAs(e, todo - {n}, was, list + [(n, e.deleted[n])])
  {}

  method ApplyAdded(e: CfEdits, s: BlobStorage)
    requires s.Core() && SealStore(s.files, e) && Fits(e, |s.levelCounts|)
    modifies s
    ensures s.Core() && |s.levelCounts| == old(|s.levelCounts|) && s.obsolete == old(s.obsolete)
    ensures s.files == AddedSoFar(old(s.files), e, {})
  {
    var todo := e.added.Keys;
    AddedEnds(s.files, e);
    while todo != {}
      invariant todo <= e.added.Keys
      invariant s.Core() && |s.levelCounts| == old(|s.levelCounts|) && s.obsolete == old(s.obsolete)
      invariant s.files == AddedSoFar(old(s.files), e, todo)
    {
      var n :| n in todo;
      AddedStep(old(s.files), e, todo, n);
      if n !in e.deleted {
        s.AddBlobFile(e.added[n]);
      }
      todo := todo - {n};
    }
  }

  method ApplyDeleted(e: CfEdits, s: BlobStorage) returns (r: bool)
    requires s.Core()
    requires forall n | n in e.deleted :: n in e.added || (n in s.files && !s.files[n].IsObsolete())
    modifies s
    ensures r && s.Core() && |s.levelCounts| == old(|s.levelCounts|)
    ensures s.files == DeletedSoFar(old(s.files), e, {})
    ensures DatedAs(e, {}, old(s.obsolete), s.obsolete)
  {
    var todo := e.deleted.Keys;
    DeletedEnds(s.files, e);
    while todo != {}
      invariant todo <= e.deleted.Keys
      invariant s.Core() && |s.levelCounts| == old(|s.levelCounts|)
      invariant s.files == DeletedSoFar(old(s.files), e, todo)
      invariant DatedAs(e, todo, old(s.obsolete), s.obsolete)
    {
      var n :| n in todo;
      DeletedStep(old(s.files), e, todo, n);
      if n !in e.added {
        ghost var was := s.obsolete;
        var found := s.MarkFileObsolete(n, e.deleted[n]);
        DatedMore(e, todo, old(s.obsolete), was, n);
      }
      todo := todo - {n};
    }
    return true;
  }

  /**
   * `CFEditCollector::Apply`: the storage ends as the batch says, with all its views in agreement, and
   * each file it deletes is obsolete as of the sequence that the edit gives.
   */
  method ApplyFamily(e: CfEdits, s: BlobStorage)
    requires s.Valid() && SealStore(s.files, e) && Fits(e, |s.levelCounts|)
    modifies s
    ensures s.Valid() && |s.levelCounts| == old(|s.levelCounts|)
    ensures s.files == ApplyStore(old(s.files), e)
    ensures old(s.obsolete) <= s.obsolete
    ensures forall n | n in e.deleted && n !in e.added :: (n, e.deleted[n]) in s.obsolete
  {
    BatchIsBoth(s.files, e);
    ApplyAdded(e, s);
    var found := ApplyDeleted(e, s);
    s.ComputeGCScore();
  }

  /** Files sit under their own number. */
  ghost predicate Numbered(store: Store) {
    forall n | n in store :: store[n].number == n
  }

  lemma {:induction false} FileMapNumbered(files: seq<FileMeta>)
    ensures Numbered(FileMap(files))
  {
    if files != [] { FileMapNumbered(files[..|files| - 1]); }
  }

  lemma {:induction false} CollectedNumbered(log: seq<Edit>)
    requires AddEdits(EMPTY, log).Some?
    ensures forall cf | cf in AddEdits(EMPTY, log).value.cfs :: Numbered(AddEdits(EMPTY, log).value.cfs[cf].added)
  {
    if log != [] {
      var init, e := log[..|log| - 1], log[|log| - 1];
      CollectedNumbered(init);
      var had := EditsOf(AddEdits(EMPTY, init).value, e.cf);
      AddFilesClosed(had, e.added);
      FileMapNumbered(e.added);
      DeleteFilesClosed(AddFiles(had, e.added).value, e.deleted);
    }
  }

  /** The stores after the families outside `todo` took their part of the batch. */
  ghost function AppliedSoFar(stores: map<CfId, Store>, c: Collected, todo: set<CfId>): map<CfId, Store> {
    map cf | cf in stores :: if cf in c.cfs && cf !in todo then ApplyStore(stores[cf], c.cfs[cf]) else stores[cf]
  }

  lemma AppliedNothing(stores: map<CfId, Store>, c: Collected)
    ensures AppliedSoFar(stores, c, c.cfs.Keys) == stores
  {}

  lemma AppliedStep(stores: map<CfId, Store>, c: Collected, todo: set<CfId>, cf: CfId)
    requires cf in todo && cf in c.cfs
    ensures AppliedSoFar(stores, c, todo - {cf}) ==
            if cf in stores then AppliedSoFar(stores, c, todo)[cf := ApplyStore(stores[cf], c.cfs[cf])]
            else AppliedSoFar(stores, c, todo)
  {}

  lemma AppliedAll(stores: map<CfId, Store>, c: Collected)
    ensures AppliedSoFar(stores, c, {}) == ApplyAll(stores, c)
  {
    forall cf | cf in stores ensures AppliedSoFar(stores, c, {})[cf] == ApplyAll(stores, c)[cf] {
      ApplyNothing(stores[cf]);
    }
  }

  /** The loop of `Recover` over the decoded manifest records. */
  method CollectLog(log: seq<Edit>) returns (r: bool, batch: Collected)
    ensures r == AddEdits(EMPTY, log).Some?
    ensures r ==> batch == AddEdits(EMPTY, log).value
  {
    var c := new EditCollector();
    batch := EMPTY;
    for i := 0 to |log|
      invariant c.ok && !c.isSealed && AddEdits(EMPTY, log[..i]) == Some(c.View())
      invariant fresh(c)
    {
      assert log[..i + 1][..i] == log[..i];
      var taken := c.AddEdit(log[i]);
      if !taken {
        AddEditsFailsLate(EMPTY, log, i + 1);
        return false, batch;
      }
    }
    assert log[..|log|] == log;
    return true, Collected(c.cfs, c.next);
  }

  /**
   `BlobFileSet`.  Each column family is represented by the file map of its storage; `ApplyFamily`
   is what happens inside the storage object.
   */
  class BlobFileSet {
    var stores: map<CfId, Store>
    var manifest: seq<Edit>
    var nextNumber: nat
    ghost var pending: set<FileNumber>

    ghost function View(): FileSet
      reads this
    {
      FileSet(stores, manifest, nextNumber, pending)
    }

    constructor (families: set<CfId>)
      ensures stores == (map cf | cf in families :: map[]) && manifest == [] && nextNumber == 1 && pending == {}
    {
      stores, manifest, nextNumber, pending := (map cf | cf in families :: map[]), [], 1, {};
    }

    method NewFileNumber() returns (n: FileNumber)
      modifies this
      ensures n == old(nextNumber) && View() == old(View()).(next := n + 1, pending := old(pending) + {n})
    {
      n := nextNumber;
      nextNumber := nextNumber + 1;
      pending := pending + {n};
    }

    /** `EditCollector::Seal`. */
    method SealBatch(c: Collected) returns (r: bool)
      ensures r == SealAll(stores, c)
    {
      var todo := c.cfs.Keys;
      while todo != {}
        invariant todo <= c.cfs.Keys
        invariant forall cf | cf in c.cfs && cf in stores && cf !in todo :: SealStore(stores[cf], c.cfs[cf])
      {
        var cf :| cf in todo;
        if cf in stores {
          var sound := SealFamily(c.cfs[cf], stores[cf]);
          if !sound { return false; }
        }
        todo := todo - {cf};
      }
      return true;
    }

    /** `EditCollector::Apply`: every open family gets its part of the batch, the others nothing. */
    method ApplyBatch(c: Collected)
      modifies this`stores
      ensures stores == ApplyAll(old(stores), c)
    {
      var todo := c.cfs.Keys;
      AppliedNothing(stores, c);
      while todo != {}
        invariant todo <= c.cfs.Keys
        invariant stores == AppliedSoFar(old(stores), c, todo)
      {
        var cf :| cf in todo;
        AppliedStep(old(stores), c, todo, cf);
        if cf in stores {
          stores := stores[cf := ApplyStore(stores[cf], c.cfs[cf])];
        }
        todo := todo - {cf};
      }
      AppliedAll(old(stores), c);
    }

    /** `LogAndApply`: nothing changes unless the edit seals; then log first, apply second. */
    method LogAndApply(e: Edit) returns (r: bool)
      modifies this
      ensures r == Manifest.LogAndApply(old(View()), e).Some?
      ensures View() == if r then Manifest.LogAndApply(old(View()), e).value else old(View())
    {
      var edit := e.(next := Some(nextNumber));
      var c := new EditCollector();
      var taken := c.AddEdit(edit);
      if !taken { return false; }
      var batch := Collected(c.cfs, c.next);
      r := SealBatch(batch);
      if !r { return; }
      manifest := manifest + [edit.Persisted()];
      ApplyBatch(batch);
      pending := pending - NumbersOf(e.added);
    }

    /** `WriteSnapshot`: the counter, then the files of each family that are not obsolete. */
    method WriteSnapshot() returns (log: seq<Edit>)
      requires forall cf | cf in stores :: Numbered(stores[cf])
      ensures IsSnapshot(log, stores, nextNumber)
    {
      log := [Edit(0, [], [], Some(nextNumber))];
      var todo := stores.Keys;
      assert stores - todo == map[];
      while todo != {}
        invariant todo <= stores.Keys
        invariant log != [] && log[0] == Edit(0, [], [], Some(nextNumber))
        invariant SnapshotBody(log[1..], stores - todo)
      {
        var cf :| cf in todo;
        var files := ListLive(stores[cf]);
        var e := Edit(cf, files, [], None);
        assert (log + [e])[1..] == log[1..] + [e] && (log[1..] + [e])[..|log[1..]|] == log[1..];
        assert (stores - (todo - {cf})) - {cf} == stores - todo;
        log := log + [e];
        todo := todo - {cf};
      }
      assert stores - todo == stores;
    }

    /** The replay half of `Recover`: one collector over the whole log, sealed and applied. */
    method ReplayLog(log: seq<Edit>) returns (r: bool)
      requires forall cf | cf in stores :: stores[cf] == map[]
      modifies this`stores, this`nextNumber
      ensures r == Replay(log, old(stores.Keys)).Some? && stores.Keys == old(stores.Keys)
      ensures r ==> var (s, next) := Replay(log, old(stores.Keys)).value;
                    stores == s && nextNumber == next + 1 && forall cf | cf in stores :: Numbered(stores[cf])
    {
      var taken, batch := CollectLog(log);
      if !taken { return false; }
      assert stores == map cf | cf in stores.Keys :: map[];
      r := SealBatch(batch);
      if !r { return; }
      ApplyBatch(batch);
      if batch.next.None? { return false; }
      nextNumber := batch.next.value + 1;
      assert forall cf | cf in stores :: Numbered(stores[cf]) by { CollectedNumbered(log); }
    }

    /** `Recover`: the log is replayed and a fresh manifest is written, with no number handed out. */
    method Recover(log: seq<Edit>) returns (r: bool)
      requires forall cf | cf in stores :: stores[cf] == map[]
      modifies this
      ensures r == Replay(log, old(stores.Keys)).Some? && stores.Keys == old(stores.Keys)
      ensures r ==> var (s, next) := Replay(log, old(stores.Keys)).value;
                    View() == FileSet(s, manifest, next + 1, {}) && IsSnapshot(manifest, s, next + 1)
    {
      r := ReplayLog(log);
      if r {
        manifest := WriteSnapshot();
        pending := {};
      }
    }
  }

  /** The files of a family that are not obsolete, as the manifest records them, in any order. */
  method ListLive(store: Store) returns (files: seq<FileMeta>)
    requires Numbered(store)
    ensures DistinctFiles(files) && FileMap(files) == LiveFiles(store)
  {
    files := [];
    var todo := store.Keys;
    while todo != {}
      invariant todo <= store.Keys
      invariant DistinctFiles(files) && FileMap(files) == LiveFiles(store - todo)
    {
      var n :| n in todo;
      ghost var rest := todo - {n};
      if !store[n].IsObsolete() {
        var more := files + [store[n].Persisted()];
        assert more[..|files|] == files;
        assert LiveFiles(store - rest) == LiveFiles(store - todo)[n := store[n].Persisted()];
        files := more;
      } else {
        assert LiveFiles(store - rest) == LiveFiles(store - todo);
      }
      todo := todo - {n};
    }
    assert store - todo == store;
  }
}
