/**
 The manifest over whole runs, against a book that is kept from the steps alone: which files each column
 family should have, open or not, which families are open, and where the file counter stands.
 */
module ManifestHistory {
  import opened Wrappers
  import opened BlobFileMeta
  import opened Manifest
  import opened ManifestProofs

  /** `logged` is the counter that the last logged edit carries. */
  datatype Book = Book(files: map<CfId, Store>, open: set<CfId>, next: nat, logged: nat)

  const NEW := Book(map[], {}, 2, 2)

  function FilesOf(b: Book, cf: CfId): Store { if cf in b.files then b.files[cf] else map[] }

  /** `accepted` says whether the edit of the step went through. */
  function Note(b: Book, step: Step, accepted: bool): Book {
    match step
    case NewFileNumber => b.(next := b.next + 1)
    case LogEdit(e) =>
      if !accepted then b
      else b.(files := b.files[e.cf := FilesOf(b, e.cf) + PersistMap(FileMap(e.added)) - DeletedNumbers(e.deleted)],
              logged := b.next)
    case AddCf(cf) => b.(open := b.open + {cf})
    case RemoveCf(cf) => b.(open := b.open - {cf})
    case Restart(cfs, _) => Book(map cf | cf in cfs :: FilesOf(b, cf), cfs, b.logged + 1, b.logged + 1)
    case _ => b
  }

  ghost predicate Accepted(fs: FileSet, step: Step) { step.LogEdit? && LogAndApply(fs, step.edit).Some? }

  ghost function NoteAll(fs: FileSet, b: Book, steps: seq<Step>): Book
    requires Runs(fs, steps)
    decreases |steps|
  {
    if steps == [] || Apply(fs, steps[0]).None? then b
    else NoteAll(Apply(fs, steps[0]).value, Note(b, steps[0], Accepted(fs, steps[0])), steps[1..])
  }

  /** What is collected from the log, family by family, is what the book says. */
  ghost predicate Tells(c: Collected, b: Book) {
    c.next == Some(b.logged) && forall cf :: Remaining(EditsOf(c, cf)) == FilesOf(b, cf)
  }

  ghost predicate LogTells(log: seq<Edit>, b: Book) {
    AddEdits(EMPTY, log).Some? && Tells(AddEdits(EMPTY, log).value, b)
  }

  ghost predicate Agrees(fs: FileSet, b: Book) {
    fs.stores.Keys == b.open && fs.next == b.next && LogTells(fs.log, b)
  }

  lemma RemainingExtended(had: CfEdits, a: Store, d: map<FileNumber, SeqNo>)
    requires a.Keys !! had.added.Keys && had.deleted.Keys <= had.added.Keys
    ensures Remaining(CfEdits(had.added + a, had.deleted + d)) == Remaining(had) + a - d.Keys
  {}

  lemma ExtendedTells(c: Collected, b: Book, e: Edit)
    requires Tells(c, b) && e.next == Some(b.next)
    requires NumbersOf(e.added) !! EditsOf(c, e.cf).added.Keys
    requires EditsOf(c, e.cf).deleted.Keys <= EditsOf(c, e.cf).added.Keys
    ensures Tells(Extended(c, e), Note(b, LogEdit(e), true))
  {
    var had := EditsOf(c, e.cf);
    PersistDeletesClosed(e.deleted);
    RemainingExtended(had, PersistMap(FileMap(e.added)), DeleteMap(PersistDeletes(e.deleted)));
    assert Remaining(had) == FilesOf(b, e.cf);
    var (c', b') := (Extended(c, e), Note(b, LogEdit(e), true));
    forall cf ensures Remaining(EditsOf(c', cf)) == FilesOf(b', cf) {
      assert Remaining(EditsOf(c, cf)) == FilesOf(b, cf);
    }
  }

  lemma AcceptedAgrees(fs: FileSet, b: Book, e: Edit)
    requires Sound(fs) && Agrees(fs, b) && Disciplined(fs, e) && LogAndApply(fs, e).Some?
    ensures Agrees(LogAndApply(fs, e).value, Note(b, LogEdit(e), true))
  {
    var c := AddEdits(EMPTY, fs.log).value;
    AcceptedEditExtends(fs, e);
    assert e.cf in c.cfs ==> CfSound(fs, c.cfs[e.cf]);
    ExtendedTells(c, b, e.(next := Some(fs.next)));
  }

  lemma SnapshotTells(c: Collected, stores: map<CfId, Store>, next: nat, b: Book)
    requires CollectsSnapshot(c, stores, next) && b.logged == next
    requires forall cf | cf in stores, n | n in stores[cf] ::
               !stores[cf][n].IsObsolete() && stores[cf][n] == stores[cf][n].Persisted()
    requires forall cf :: FilesOf(b, cf) == if cf in stores then stores[cf] else map[]
    ensures Tells(c, b)
  {
    forall cf ensures Remaining(EditsOf(c, cf)) == FilesOf(b, cf) {
      if cf in stores { LiveAsStored(stores[cf]); }
    }
  }

  lemma RestartAgrees(fs: FileSet, b: Book, cfs: set<CfId>, snapshot: seq<Edit>)
    requires Sound(fs) && Agrees(fs, b) && Enabled(fs, Restart(cfs, snapshot))
    ensures Apply(fs, Restart(cfs, snapshot)).Some?
    ensures Agrees(Apply(fs, Restart(cfs, snapshot)).value, Note(b, Restart(cfs, snapshot), false))
  {
    BookReplays(fs, b, cfs);
    ReplaySound(fs, cfs);
    var (stores, next) := Replay(fs.log, cfs).value;
    SnapshotCollects(snapshot, stores, next + 1);
    SnapshotTells(AddEdits(EMPTY, snapshot).value, stores, next + 1, Note(b, Restart(cfs, snapshot), false));
  }

  lemma LiveAsStored(store: Store)
    requires forall n | n in store :: !store[n].IsObsolete() && store[n] == store[n].Persisted()
    ensures Remaining(CfEdits(LiveFiles(store), map[])) == store
  {}

  lemma StepAgrees(fs: FileSet, b: Book, step: Step)
    requires Sound(fs) && Agrees(fs, b) && Enabled(fs, step)
    ensures Apply(fs, step).Some? && Agrees(Apply(fs, step).value, Note(b, step, Accepted(fs, step)))
  {
    match step
    case LogEdit(e) => if LogAndApply(fs, e).Some? { AcceptedAgrees(fs, b, e); }
    case Restart(cfs, snapshot) => RestartAgrees(fs, b, cfs, snapshot);
    case _ =>
  }

  lemma {:induction false} RunAgrees(fs: FileSet, b: Book, steps: seq<Step>)
    requires Sound(fs) && Agrees(fs, b) && Runs(fs, steps)
    ensures Exec(fs, steps).Some?
    ensures var fs' := Exec(fs, steps).value; Sound(fs') && Agrees(fs', NoteAll(fs, b, steps))
    decreases |steps|
  {
    if steps != [] {
      StepSound(fs, steps[0]);
      StepAgrees(fs, b, steps[0]);
      RunAgrees(Apply(fs, steps[0]).value, Note(b, steps[0], Accepted(fs, steps[0])), steps[1..]);
    }
  }

  lemma FreshAgrees()
    ensures Sound(FRESH) && Agrees(FRESH, NEW)
  {
    FreshSound();
    SnapshotCollects(FRESH.log, map[], 2);
  }

  /**
   Over every run with any restarts: the families and the counter are what the steps say, each open
   family has exactly the files that the accepted edits added and did not delete, and the next restart
   brings back exactly those for every family it opens, closed before or not.
   */
  lemma ManifestIsTheBook(steps: seq<Step>, cfs: set<CfId>)
    requires Runs(FRESH, steps)
    ensures Exec(FRESH, steps).Some?
    ensures var (fs, b) := (Exec(FRESH, steps).value, NoteAll(FRESH, NEW, steps));
            && fs.stores.Keys == b.open && fs.next == b.next
            && (forall cf | cf in fs.stores :: LiveFiles(fs.stores[cf]) == FilesOf(b, cf))
            && Replay(fs.log, cfs) == Some((map cf | cf in cfs :: FilesOf(b, cf), b.logged))
  {
    FreshAgrees();
    RunAgrees(FRESH, NEW, steps);
    BookReplays(Exec(FRESH, steps).value, NoteAll(FRESH, NEW, steps), cfs);
  }

  lemma BookReplays(fs: FileSet, b: Book, cfs: set<CfId>)
    requires Sound(fs) && Agrees(fs, b)
    ensures forall cf | cf in fs.stores :: LiveFiles(fs.stores[cf]) == FilesOf(b, cf)
    ensures Replay(fs.log, cfs) == Some((map cf | cf in cfs :: FilesOf(b, cf), b.logged))
  {
    ReplaySound(fs, cfs);
    forall cf | cf in fs.stores ensures LiveFiles(fs.stores[cf]) == FilesOf(b, cf) {
      assert StoreSound(fs.stores[cf], Logged(fs, cf));
      assert Remaining(Logged(fs, cf)) == FilesOf(b, cf);
    }
    var (stores, next) := Replay(fs.log, cfs).value;
    forall cf | cf in cfs ensures stores[cf] == FilesOf(b, cf) {
      assert Remaining(Logged(fs, cf)) == FilesOf(b, cf);
    }
    assert stores == map cf | cf in cfs :: FilesOf(b, cf);
  }
}
