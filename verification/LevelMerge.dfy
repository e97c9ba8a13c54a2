/** The level-merge branches of the callbacks, and when their merge event fails its assertion. */
module LevelMerge {
  import opened Wrappers
  import opened BlobFileMeta
  import opened Manifest
  import opened ManifestProofs
  import opened LiveData
  import opened SortedRuns
  import opened RangeDeletes
  import opened Coding

  /** What a callback is told: size differences, which files have much to discard, and the limits. */
  datatype Report = Report(diff: map<nat, int>, heavy: nat -> bool, countRuns: bool, maxRuns: nat)

  // ---------------------------------------------------------------- compaction

  /** The files after the accounting loop of `OnCompactionCompleted`. */
  function AfterLoop(files: Store, r: Report): Store {
    map n | n in files ::
      if n in r.diff then AfterCompaction(files[n], r.diff[n], true, r.heavy(n)).meta else files[n]
  }

  /** The loop puts the file into the edit: it has no live data left. */
  predicate Emptied(files: Store, r: Report, n: nat) {
    n in files && n in r.diff && AfterCompaction(files[n], r.diff[n], true, r.heavy(n)).noLiveData
  }

  /** A file that just settled, dead or not, or a live one that is not marked already. */
  predicate Joins(f: FileMeta, delta: int, heavy: bool, countRuns: bool) {
    || (f.state == PendingLSM && delta > 0)
    || ((f.state == Normal || f.state == ToMerge) && !heavy && countRuns &&
        AfterCompaction(f, delta, true, heavy).meta.live != 0)
  }

  predicate Candidate(files: Store, r: Report, n: nat) {
    n in files && n in r.diff && Joins(files[n], r.diff[n], r.heavy(n), r.countRuns)
  }

  /** The loop's lists, in the order it goes through the files. */
  ghost predicate Lists(files: Store, r: Report, candidates: seq<nat>, emptied: seq<nat>) {
    && (forall n :: n in candidates <==> Candidate(files, r, n))
    && (forall n :: n in emptied <==> Emptied(files, r, n))
    && Storage.NoDup(candidates) && Storage.NoDup(emptied)
  }

  function Ranges(files: Store, candidates: seq<nat>): seq<Range>
    requires forall n | n in candidates :: n in files
  {
    seq(|candidates|,
        i requires 0 <= i < |candidates| => Range(files[candidates[i]].smallest, files[candidates[i]].largest))
  }

  /** The edit as the callback builds it: its column family is never set. */
  function EmptiedEdit(emptied: seq<nat>, q: SeqNo): Edit { Edit(0, [], DeletesOf(emptied, q), None) }

  /** The file set when the sweep starts: accounting done, and the edit logged if it was accepted. */
  function AtSweep(fs: FileSet, cf: CfId, r: Report, emptied: seq<nat>, q: SeqNo): FileSet
    requires cf in fs.stores
  {
    var mid := fs.(stores := fs.stores[cf := AfterLoop(fs.stores[cf], r)]);
    match LogAndApply(mid, EmptiedEdit(emptied, q)) case None => mid case Some(after) => after
  }

  ghost predicate EditAccepted(fs: FileSet, cf: CfId, r: Report, emptied: seq<nat>, q: SeqNo)
    requires cf in fs.stores
  {
    LogAndApply(fs.(stores := fs.stores[cf := AfterLoop(fs.stores[cf], r)]), EmptiedEdit(emptied, q)).Some?
  }

  /** The branches of the loop for one file: has it no live data, and is it a candidate for merge. */
  method LookAt(f: FileMeta, delta: int, heavy: bool, countRuns: bool) returns (none: bool, candidate: bool)
    ensures none == AfterCompaction(f, delta, true, heavy).noLiveData
    ensures candidate == Joins(f, delta, heavy, countRuns)
  {
    none, candidate := false, false;
    if f.IsObsolete() { return; }
    if f.state == PendingLSM {
      if delta <= 0 { return; }
      var size := delta - f.live;
      none, candidate := (if size < 0 then size % U64 else size) == 0, true;
    } else if f.state == Normal || f.state == ToMerge {
      var live := if f.live + delta < 0 then 0 else f.live + delta;
      if live == 0 {
        none := true;
      } else if !heavy && countRuns {
        candidate := true;
      }
    }
  }

  /** The loop over the reported files that fills both lists. */
  method CollectLists(files: Store, r: Report, order: seq<nat>) returns (candidates: seq<nat>, emptied: seq<nat>)
    requires Storage.NoDup(order) && forall n: nat :: n in r.diff <==> n in order
    ensures Lists(files, r, candidates, emptied)
    ensures forall n | n in files && n in r.diff ::
              var (f, delta) := (files[n], r.diff[n]);
              && (n in candidates <==>
                    || (f.state == PendingLSM && delta > 0)
                    || ((f.state == Normal || f.state == ToMerge) && f.live + delta > 0 && !r.heavy(n) && r.countRuns))
              && (n in emptied <==>
                    || (f.state == PendingLSM && delta > 0 &&
                        (delta == f.live || (delta < f.live && (delta - f.live) % U64 == 0)))
                    || ((f.state == Normal || f.state == ToMerge) && f.live + delta <= 0))
  {
    candidates, emptied := [], [];
    var i := 0;
    while i < |order|
      invariant i <= |order| && Storage.NoDup(candidates) && Storage.NoDup(emptied)
      invariant forall n :: n in candidates <==> n in order[..i] && Candidate(files, r, n)
      invariant forall n :: n in emptied <==> n in order[..i] && Emptied(files, r, n)
    {
      var n := order[i];
      assert n !in order[..i] && order[..i + 1] == order[..i] + [n];
      if n in files {
        var none, candidate := LookAt(files[n], r.diff[n], r.heavy(n), r.countRuns);
        if none { emptied := emptied + [n]; }
        if candidate { candidates := candidates + [n]; }
      }
      i := i + 1;
    }
    assert order[..i] == order;
  }

  /** Candidates are normal, or marked, when the loop is done. */
  lemma CandidatesReady(files: Store, r: Report, n: nat)
    requires Candidate(files, r, n)
    ensures var s := AfterLoop(files, r)[n].state; s == Normal || s == ToMerge
  {}

  /** In the default family the edit is always accepted: what it deletes is there and not obsolete. */
  lemma DefaultFamilyAccepts(fs: FileSet, r: Report, candidates: seq<nat>, emptied: seq<nat>, q: SeqNo)
    requires 0 in fs.stores && Lists(fs.stores[0], r, candidates, emptied)
    ensures EditAccepted(fs, 0, r, emptied, q)
  {
    var files := fs.stores[0];
    var mid := fs.(stores := fs.stores[0 := AfterLoop(files, r)]);
    DeletesAre(emptied, q);
    AcceptedIff(mid, EmptiedEdit(emptied, q));
    forall n | n in emptied ensures n in mid.stores[0] && !mid.stores[0][n].IsObsolete() {
      EmptiedStays(files, r, n);
    }
  }

  lemma EmptiedStays(files: Store, r: Report, n: nat)
    requires Emptied(files, r, n)
    ensures n in AfterLoop(files, r) && !AfterLoop(files, r)[n].IsObsolete()
  {}

  /** At the sweep a file is obsolete exactly if it was or the edit deleted it. */
  lemma SweepState(fs: FileSet, cf: CfId, r: Report, emptied: seq<nat>, q: SeqNo, n: nat)
    requires 0 in fs.stores && cf in fs.stores && n in fs.stores[cf]
    ensures var at := AtSweep(fs, cf, r, emptied, q).stores;
            && cf in at && n in at[cf]
            && at[cf][n].state ==
               if EditAccepted(fs, cf, r, emptied, q) && cf == 0 && n in emptied then Obsolete
               else AfterLoop(fs.stores[cf], r)[n].state
  {
    var mid := fs.(stores := fs.stores[cf := AfterLoop(fs.stores[cf], r)]);
    var e := EmptiedEdit(emptied, q);
    DeletesAre(emptied, q);
    if EditAccepted(fs, cf, r, emptied, q) {
      AcceptedIff(mid, e);
      AcceptedStore(mid, e);
      if cf != 0 { LevelMergeEditGoesToDefaultCf(mid, e.deleted); }
    }
  }

  /** Some file that the sweep marks refuses the merge event. */
  ghost predicate MergeFails(fs: FileSet, cf: CfId, r: Report, candidates: seq<nat>, emptied: seq<nat>, q: SeqNo,
                             marked: set<nat>)
    requires cf in fs.stores
  {
    exists i :: RefusedAt(fs, cf, r, candidates, emptied, q, marked, i)
  }

  ghost predicate RefusedAt(fs: FileSet, cf: CfId, r: Report, candidates: seq<nat>, emptied: seq<nat>, q: SeqNo,
                            marked: set<nat>, i: nat)
    requires cf in fs.stores
  {
    && i in marked && i < |candidates|
    && var at := AtSweep(fs, cf, r, emptied, q).stores;
       cf in at && candidates[i] in at[cf] && !Allowed(at[cf][candidates[i]].state, NeedMerge)
  }

  /** A candidate that the loop emptied covers a key with too many candidates. */
  ghost predicate EmptiedInCrowd(files: Store, r: Report, candidates: seq<nat>, emptied: seq<nat>, i: nat, p: Key)
    requires forall n | n in candidates :: n in files
  {
    i < |candidates| && candidates[i] in emptied && Crowded(Ranges(files, candidates), r.maxRuns, i, p)
  }

  lemma RefusedIff(fs: FileSet, cf: CfId, r: Report, candidates: seq<nat>, emptied: seq<nat>, q: SeqNo,
                   marked: set<nat>, i: nat)
    requires 0 in fs.stores && cf in fs.stores && Lists(fs.stores[cf], r, candidates, emptied)
    requires i < |candidates|
    ensures RefusedAt(fs, cf, r, candidates, emptied, q, marked, i) <==>
              i in marked && EditAccepted(fs, cf, r, emptied, q) && cf == 0 && candidates[i] in emptied
  {
    var n := candidates[i];
    assert n in candidates;
    CandidatesReady(fs.stores[cf], r, n);
    SweepState(fs, cf, r, emptied, q, n);
  }

  /**
   * The whole callback with level merge on: the merge event fails its assertion for some file if and
   * only if the family is the default one and a file that the edit deleted, which can only be one
   * that settled without live data, is among too many candidates at some key.  In any other family
   * the edit goes astray and nothing fails.
   */
  lemma MergeFailsIff(fs: FileSet, cf: CfId, r: Report, candidates: seq<nat>, emptied: seq<nat>, q: SeqNo,
                      marked: set<nat>)
    requires 0 in fs.stores && cf in fs.stores && Lists(fs.stores[cf], r, candidates, emptied)
    requires ExactlyCrowded(Ranges(fs.stores[cf], candidates), r.maxRuns, marked)
    ensures MergeFails(fs, cf, r, candidates, emptied, q, marked) <==>
              cf == 0 && exists i, p :: EmptiedInCrowd(fs.stores[cf], r, candidates, emptied, i, p)
  {
    var files := fs.stores[cf];
    if MergeFails(fs, cf, r, candidates, emptied, q, marked) {
      var i :| RefusedAt(fs, cf, r, candidates, emptied, q, marked, i);
      RefusedIff(fs, cf, r, candidates, emptied, q, marked, i);
      var p :| Crowded(Ranges(files, candidates), r.maxRuns, i, p);
      assert EmptiedInCrowd(files, r, candidates, emptied, i, p);
    }
    if cf == 0 {
      DefaultFamilyAccepts(fs, r, candidates, emptied, q);
      if i, p :| EmptiedInCrowd(files, r, candidates, emptied, i, p) {
        RefusedIff(fs, cf, r, candidates, emptied, q, marked, i);
        assert RefusedAt(fs, cf, r, candidates, emptied, q, marked, i);
      }
    }
  }

  /** An emptied candidate is a file that had waited for its creation event and settled at zero. */
  lemma EmptiedCandidateSettled(files: Store, r: Report, n: nat)
    requires Candidate(files, r, n) && Emptied(files, r, n)
    ensures files[n].state == PendingLSM && r.diff[n] > 0 && AfterLoop(files, r)[n].live == 0
  {}

  // ---------------------------------------------------------------- range deletes of tables

  /** `DeleteFilesInRanges` for one file it reports: the size is updated in whatever state the file is. */
  predicate FiresMerge(f: FileMeta, delta: int, heavy: bool) {
    f.state != Obsolete && UpdateLive(f, delta).0.live != 0 && heavy
  }

  /** Some file of the report refuses the merge event. */
  ghost predicate RangeDeleteFails(files: Store, r: Report) {
    exists n ::
      n in files && n in r.diff && FiresMerge(files[n], r.diff[n], r.heavy(n)) && !Allowed(files[n].state, NeedMerge)
  }

  /** Exactly if a reported file with live data and much to discard is pending or in a GC job. */
  lemma RangeDeleteFailsIff(files: Store, r: Report)
    requires forall n | n in files :: files[n].state != Init
    ensures RangeDeleteFails(files, r) <==>
              exists n :: && n in files && n in r.diff && files[n].live + r.diff[n] > 0 && r.heavy(n)
                          && (files[n].state == PendingLSM || files[n].state == BeingGC || files[n].state == PendingGC)
  {
    if RangeDeleteFails(files, r) {
      var n :|
        n in files && n in r.diff && FiresMerge(files[n], r.diff[n], r.heavy(n)) && !Allowed(files[n].state, NeedMerge);
      assert files[n].live + r.diff[n] > 0;
    }
    if n :| && n in files && n in r.diff && files[n].live + r.diff[n] > 0 && r.heavy(n)
            && (files[n].state == PendingLSM || files[n].state == BeingGC || files[n].state == PendingGC)
    {
      assert FiresMerge(files[n], r.diff[n], r.heavy(n));
    }
  }

  // ---------------------------------------------------------------- inputs that fail

  /** File 2 settles at zero beside file 3, with one sorted run allowed. */
  lemma CompactionInputThatFails(q: SeqNo)
    ensures var f := FileMeta(2, 100, 1, 0, 1, 5, 10, PendingLSM);
            var g := FileMeta(3, 100, 1, 0, 1, 9, 0, PendingLSM);
            var fs := FRESH.(stores := map[0 := map[2 := f, 3 := g]]);
            var r := Report(map[2 := 10, 3 := 20], _ => false, true, 1);
            && Lists(fs.stores[0], r, [2, 3], [2])
            && forall marked :: ExactlyCrowded(Ranges(fs.stores[0], [2, 3]), 1, marked) ==>
                 MergeFails(fs, 0, r, [2, 3], [2], q, marked)
  {
    var f := FileMeta(2, 100, 1, 0, 1, 5, 10, PendingLSM);
    var g := FileMeta(3, 100, 1, 0, 1, 9, 0, PendingLSM);
    var fs := FRESH.(stores := map[0 := map[2 := f, 3 := g]]);
    var r := Report(map[2 := 10, 3 := 20], _ => false, true, 1);
    var files := fs.stores[0];
    assert files == map[2 := f, 3 := g];
    assert Lists(files, r, [2, 3], [2]);
    var ranges := Ranges(files, [2, 3]);
    assert Active(ranges, 1) == {0, 1};
    assert EmptiedInCrowd(files, r, [2, 3], [2], 0, 1);
    forall marked | ExactlyCrowded(ranges, 1, marked) ensures MergeFails(fs, 0, r, [2, 3], [2], q, marked) {
      MergeFailsIff(fs, 0, r, [2, 3], [2], q, marked);
    }
  }

  /** A file in a GC job loses a table and has much to discard. */
  lemma RangeDeleteInputThatFails()
    ensures RangeDeleteFails(map[2 := FileMeta(2, 100, 1, 0, 1, 5, 50, BeingGC)],
                             Report(map[2 := -10], _ => true, false, 1))
  {
    var files: Store := map[2 := FileMeta(2, 100, 1, 0, 1, 5, 50, BeingGC)];
    var r := Report(map[2 := -10], _ => true, false, 1);
    assert 2 in files && 2 in r.diff && FiresMerge(files[2], r.diff[2], r.heavy(2));
  }
}
