/** `DeleteBlobFilesInRanges`: the edit that deletes what the range query lists. */
module RangeDeletes {
  import opened Wrappers
  import opened BlobFileMeta
  import opened Manifest
  import opened ManifestProofs
  import opened Storage
  import opened EditCollection

  function DeletesOf(ns: seq<FileNumber>, q: SeqNo): seq<(FileNumber, SeqNo)> {
    if ns == [] then [] else DeletesOf(ns[..|ns| - 1], q) + [(ns[|ns| - 1], q)]
  }

  lemma {:induction false} DeletedAre(ns: seq<FileNumber>, q: SeqNo)
    ensures DeletedNumbers(DeletesOf(ns, q)) == (set n | n in ns)
  {
    if ns != [] {
      var k := |ns| - 1;
      var ds := DeletesOf(ns, q);
      DeletedAre(ns[..k], q);
      assert ds[..|ds| - 1] == DeletesOf(ns[..k], q);
      assert forall n :: n in ns <==> n in ns[..k] || n == ns[k];
    }
  }

  lemma NoDupSnoc(ns: seq<FileNumber>)
    requires ns != []
    ensures var k := |ns| - 1; NoDup(ns) <==> NoDup(ns[..k]) && ns[k] !in ns[..k]
  {
    var k := |ns| - 1;
    assert ns == ns[..k] + [ns[k]];
    NoDupConcat(ns[..k], [ns[k]]);
  }

  lemma {:induction false} DeletesAre(ns: seq<FileNumber>, q: SeqNo)
    ensures DeletedNumbers(DeletesOf(ns, q)) == (set n | n in ns)
    ensures DistinctDeletes(DeletesOf(ns, q)) <==> NoDup(ns)
  {
    DeletedAre(ns, q);
    if ns != [] {
      var k := |ns| - 1;
      var ds := DeletesOf(ns, q);
      DeletesAre(ns[..k], q);
      NoDupSnoc(ns);
      assert ds[..|ds| - 1] == DeletesOf(ns[..k], q);
    }
  }

  /** The edit of a range delete on column family `cf`. */
  ghost function RangeEdit(
    cf: CfId, store: Store, listing: seq<FileNumber>, rs: seq<Range>, includeEnd: bool, q: SeqNo): Edit
    requires forall n | n in listing :: n in store
  {
    Edit(cf, [], DeletesOf(AllHits(store, listing, rs, includeEnd), q), None)
  }

  /** The walk over each of the ranges is defined; see `WalkableIff`. */
  ghost predicate AllWalkable(store: Store, rs: seq<Range>) { forall r | r in rs :: Walkable(store, r) }

  ghost predicate InAny(m: FileMeta, rs: seq<Range>, includeEnd: bool) {
    exists i | 0 <= i < |rs| :: InRange(m, rs[i], includeEnd)
  }

  lemma EditDeletes(cf: CfId, store: Store, listing: seq<FileNumber>, rs: seq<Range>, includeEnd: bool, q: SeqNo)
    requires RangesOk(store, listing)
    ensures var ds := RangeEdit(cf, store, listing, rs, includeEnd, q).deleted;
            && DeletedNumbers(ds) == (set n | n in store && InAny(store[n], rs, includeEnd))
            && (DistinctDeletes(ds) <==> RangesApart(store, listing, rs, includeEnd))
  {
    var hits := AllHits(store, listing, rs, includeEnd);
    DeletesAre(hits, q);
    ListedOnceIff(store, listing, rs, includeEnd);
    forall n
      ensures n in hits <==> n in store && InAny(store[n], rs, includeEnd)
    {
      AllHitsMembers(store, listing, rs, includeEnd, n);
    }
  }

  lemma {:induction false} DeletesDated(ns: seq<FileNumber>, q: SeqNo)
    ensures forall n | n in DeleteMap(DeletesOf(ns, q)) :: DeleteMap(DeletesOf(ns, q))[n] == q
  {
    if ns != [] {
      var ds := DeletesOf(ns, q);
      DeletesDated(ns[..|ns| - 1], q);
      assert ds[..|ds| - 1] == DeletesOf(ns[..|ns| - 1], q);
    }
  }

  /** Every file in the ranges is deleted as of `q`. */
  lemma EditDates(cf: CfId, store: Store, listing: seq<FileNumber>, rs: seq<Range>, includeEnd: bool, q: SeqNo)
    requires RangesOk(store, listing)
    ensures var ds := DeleteMap(RangeEdit(cf, store, listing, rs, includeEnd, q).deleted);
            forall n | n in store && InAny(store[n], rs, includeEnd) :: n in ds && ds[n] == q
  {
    EditDeletes(cf, store, listing, rs, includeEnd, q);
    DeletesDated(AllHits(store, listing, rs, includeEnd), q);
  }

  lemma InAnyIsLive(m: FileMeta, rs: seq<Range>, includeEnd: bool)
    requires InAny(m, rs, includeEnd)
    ensures !m.IsObsolete()
  {}

  /** A range delete whose walks are defined goes through if and only if no live file lies in two of the ranges. */
  lemma RangeDeleteIff(fs: FileSet, cf: CfId, listing: seq<FileNumber>, rs: seq<Range>, includeEnd: bool, q: SeqNo)
    requires cf in fs.stores && RangesOk(fs.stores[cf], listing) && AllWalkable(fs.stores[cf], rs)
    ensures LogAndApply(fs, RangeEdit(cf, fs.stores[cf], listing, rs, includeEnd, q)).Some? <==>
              RangesApart(fs.stores[cf], listing, rs, includeEnd)
  {
    var store := fs.stores[cf];
    var e := RangeEdit(cf, store, listing, rs, includeEnd, q);
    EditDeletes(cf, store, listing, rs, includeEnd, q);
    AcceptedIff(fs, e);
    forall n | n in DeleteMap(e.deleted) ensures n in store && !store[n].IsObsolete() {
      InAnyIsLive(store[n], rs, includeEnd);
    }
  }

  /** Exactly the files in the ranges have become obsolete. */
  ghost predicate MarkedIn(store: Store, store': Store, rs: seq<Range>, includeEnd: bool) {
    && store'.Keys == store.Keys
    && forall n | n in store ::
         store'[n] == if InAny(store[n], rs, includeEnd) then store[n].(state := Obsolete) else store[n]
  }

  lemma DeletesMark(store: Store, deletes: map<FileNumber, SeqNo>, rs: seq<Range>, includeEnd: bool)
    requires deletes.Keys == set n | n in store && InAny(store[n], rs, includeEnd)
    ensures MarkedIn(store, ApplyStore(store, CfEdits(map[], deletes)), rs, includeEnd)
  {}

  /** When it goes through, exactly the listed files become obsolete. */
  lemma RangeDeleteMarks(fs: FileSet, cf: CfId, listing: seq<FileNumber>, rs: seq<Range>, includeEnd: bool, q: SeqNo)
    requires cf in fs.stores && RangesOk(fs.stores[cf], listing) && AllWalkable(fs.stores[cf], rs)
    requires RangesApart(fs.stores[cf], listing, rs, includeEnd)
    ensures var store := fs.stores[cf];
            var r := LogAndApply(fs, RangeEdit(cf, store, listing, rs, includeEnd, q));
            r.Some? && cf in r.value.stores && MarkedIn(store, r.value.stores[cf], rs, includeEnd)
  {
    var store := fs.stores[cf];
    var e := RangeEdit(cf, store, listing, rs, includeEnd, q);
    RangeDeleteIff(fs, cf, listing, rs, includeEnd, q);
    AcceptedStore(fs, e);
    EditDeletes(cf, store, listing, rs, includeEnd, q);
    DeletesMark(store, DeleteMap(e.deleted), rs, includeEnd);
  }

  /** What an accepted range delete means for the storage of its family. */
  lemma AcceptedDelete(fs: FileSet, cf: CfId, listing: seq<FileNumber>, rs: seq<Range>, includeEnd: bool, q: SeqNo)
    requires cf in fs.stores && RangesOk(fs.stores[cf], listing) && AllWalkable(fs.stores[cf], rs)
    requires LogAndApply(fs, RangeEdit(cf, fs.stores[cf], listing, rs, includeEnd, q)).Some?
    ensures var store := fs.stores[cf];
            var e := RangeEdit(cf, store, listing, rs, includeEnd, q);
            var c := CfEdits(map[], DeleteMap(e.deleted));
            var store' := ApplyStore(store, c);
            && SealStore(store, c) && MarkedIn(store, store', rs, includeEnd)
            && cf in LogAndApply(fs, e).value.stores && LogAndApply(fs, e).value.stores[cf] == store'
            && forall n | n in store && InAny(store[n], rs, includeEnd) :: n in c.deleted && c.deleted[n] == q
  {
    var e := RangeEdit(cf, fs.stores[cf], listing, rs, includeEnd, q);
    RangeDeleteIff(fs, cf, listing, rs, includeEnd, q);
    AcceptedIff(fs, e);
    AcceptedStore(fs, e);
    RangeDeleteMarks(fs, cf, listing, rs, includeEnd, q);
    EditDates(cf, fs.stores[cf], listing, rs, includeEnd, q);
  }

  /**
   * `BlobFileSet::DeleteBlobFilesInRanges`; `storage` is what the family's id finds, if anything.
   * The query and the edit go through together exactly if the ranges share no live file.
   */
  method DeleteBlobFilesInRanges(
    fs: BlobFileSet, storage: BlobStorage?, cf: CfId, rs: seq<Range>, includeEnd: bool, q: SeqNo) returns (ok: bool)
    requires storage == null <==> cf !in fs.stores
    requires storage != null ==> storage.Valid() && storage.files == fs.stores[cf] && AllWalkable(storage.files, rs)
    modifies fs, storage
    ensures storage == null ==> !ok
    ensures storage != null ==> storage.Valid() && cf in fs.stores && storage.files == fs.stores[cf]
    ensures storage != null ==> ok == RangesApart(old(storage.files), old(storage.ranges), rs, includeEnd)
    ensures !ok ==> fs.View() == old(fs.View())
    ensures ok ==> MarkedIn(old(storage.files), storage.files, rs, includeEnd)
    ensures ok ==>
              && old(storage.obsolete) <= storage.obsolete
              && forall n | n in old(storage.files) && InAny(old(storage.files)[n], rs, includeEnd) ::
                   (n, q) in storage.obsolete
    ensures ok ==>
              var e := RangeEdit(cf, old(storage.files), old(storage.ranges), rs, includeEnd, q);
              LogAndApply(old(fs.View()), e) == Some(fs.View())
  {
    if storage == null { return false; }
    var files := storage.GetBlobFilesInRanges(rs, includeEnd);
    var e := DeleteListed(cf, files, q);
    RangeDeleteIff(fs.View(), cf, storage.ranges, rs, includeEnd, q);
    ok := fs.LogAndApply(e);
    if ok {
      AcceptedDelete(old(fs.View()), cf, storage.ranges, rs, includeEnd, q);
      ApplyFamily(CfEdits(map[], DeleteMap(e.deleted)), storage);
    }
  }

  /** The loop that turns the listing into an edit. */
  method DeleteListed(cf: CfId, files: seq<FileNumber>, q: SeqNo) returns (e: Edit)
    ensures e == Edit(cf, [], DeletesOf(files, q), None)
  {
    e := Edit(cf, [], [], None);
    for i := 0 to |files|
      invariant e == Edit(cf, [], DeletesOf(files[..i], q), None)
    {
      assert files[..i + 1][..i] == files[..i];
      e := e.(deleted := e.deleted + [(files[i], q)]);
    }
    assert files[..|files|] == files;
  }

  /** One file in two overlapping ranges: the delete is refused and the file stays. */
  lemma OverlappingRangesRefused(fs: FileSet, q: SeqNo)
    requires 0 in fs.stores && fs.stores[0] == map[2 := FileMeta(2, 100, 1, 0, 5, 9, 0, Normal)]
    ensures var rs := [Range(Some(1), Some(10)), Range(Some(2), Some(20))];
            RangesOk(fs.stores[0], [2]) && LogAndApply(fs, RangeEdit(0, fs.stores[0], [2], rs, false, q)).None?
  {
    var rs := [Range(Some(1), Some(10)), Range(Some(2), Some(20))];
    var store := fs.stores[0];
    assert InRange(store[2], rs[0], false) && InRange(store[2], rs[1], false) && 2 in [2];
    assert !RangesApart(store, [2], rs, false);
    RangeDeleteIff(fs, 0, [2], rs, false, q);
  }

  /** One file that starts at 5 and the range from 10 to 1: the walk begins past the end and never meets its bound. */
  lemma ReversedRangeRunsOff(store: Store)
    requires store == map[2 := FileMeta(2, 100, 1, 0, 5, 9, 0, Normal)]
    ensures var rs := [Range(Some(10), Some(1))];
            && RangesOk(store, [2]) && RangesApart(store, [2], rs, false) && !AllWalkable(store, rs)
            && store[2].smallest < rs[0].begin.value && rs[0].end.value < store[2].smallest
  {
    var r := Range(Some(10), Some(1));
    assert r.end.value < store[2].smallest < r.begin.value;
    assert r in [r] && !Walkable(store, r);
  }
}
