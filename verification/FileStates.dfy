/** The states of all blob files and the GC jobs on them, with level merge off. */
module FileStates {
  import opened Wrappers
  import opened BlobFileMeta
  import opened LiveData

  // ---------------------------------------------------------------- the picker

  datatype PickerOptions = PickerOptions(discardableRatio: real, minBatch: nat, maxBatch: nat, smallFile: nat)

  datatype Score = Score(file: nat, score: real)

  datatype Picked = Picked(files: seq<nat>, triggerNext: bool)

  /** The files a GC job may take, in score order: up to the first low score, those in the normal state. */
  function Eligible(o: PickerOptions, scores: seq<Score>, files: Metas): (r: seq<nat>)
    requires forall i | 0 <= i < |scores| :: scores[i].file in files
  {
    if scores == [] || scores[0].score < o.discardableRatio then []
    else if files[scores[0].file].state != Normal then Eligible(o, scores[1..], files)
    else [scores[0].file] + Eligible(o, scores[1..], files)
  }

  lemma {:induction false} EligibleFiles(o: PickerOptions, scores: seq<Score>, files: Metas)
    requires forall i | 0 <= i < |scores| :: scores[i].file in files
    ensures forall n | n in Eligible(o, scores, files) ::
              n in files && files[n].state == Normal && exists i | 0 <= i < |scores| :: scores[i].file == n
    ensures (forall i, j | 0 <= i < j < |scores| :: scores[i].file != scores[j].file) ==>
              Distinct(Eligible(o, scores, files))
  {
    if scores != [] && !(scores[0].score < o.discardableRatio) {
      EligibleFiles(o, scores[1..], files);
      forall n | n in Eligible(o, scores[1..], files)
        ensures exists i | 1 <= i < |scores| :: scores[i].file == n
      {
        var i :| 0 <= i < |scores[1..]| && scores[1..][i].file == n;
        assert scores[i + 1].file == n;
      }
    }
  }

  function SizeOf(files: Metas, n: nat): nat { if n in files then files[n].size else 0 }

  function TotalSize(ns: seq<nat>, files: Metas): nat {
    if ns == [] then 0 else TotalSize(ns[..|ns| - 1], files) + SizeOf(files, ns[|ns| - 1])
  }

  lemma {:induction false} TotalSplit(ns: seq<nat>, k: nat, files: Metas)
    requires k <= |ns|
    ensures TotalSize(ns, files) == TotalSize(ns[..k], files) + TotalSize(ns[k..], files)
    decreases |ns|
  {
    if k == |ns| {
      assert ns[..k] == ns && ns[k..] == [];
    } else {
      var front := ns[..|ns| - 1];
      TotalSplit(front, k, files);
      assert front[..k] == ns[..k] && front[k..] == ns[k..][..|ns[k..]| - 1];
    }
  }

  /**
   * What the loop has picked: the shortest front of the eligible files that fills a batch, or all of
   * them; another job is wanted exactly if the rest is larger than a smallest batch.
   */
  ghost predicate Batch(o: PickerOptions, eligible: seq<nat>, files: Metas, picked: seq<nat>, more: bool) {
    && picked <= eligible
    && (picked < eligible ==> picked != [] && TotalSize(picked, files) >= o.maxBatch)
    && (|picked| > 1 ==> TotalSize(picked[..|picked| - 1], files) < o.maxBatch)
    && (more <==> picked < eligible && TotalSize(eligible[|picked|..], files) > o.minBatch)
  }

  /** The variables of the picking loop: files picked, their size, size of what comes after them. */
  datatype Tally = Tally(picked: seq<nat>, batch: nat, next: nat)

  predicate Full(o: PickerOptions, t: Tally) { t.picked != [] && t.batch >= o.maxBatch }

  function Take(o: PickerOptions, files: Metas, t: Tally, n: nat): Tally {
    if Full(o, t) then t.(next := t.next + SizeOf(files, n))
    else t.(picked := t.picked + [n], batch := t.batch + SizeOf(files, n))
  }

  /** The loop's variables after the first `k` eligible files. */
  function TallyOf(o: PickerOptions, files: Metas, all: seq<nat>, k: nat): Tally
    requires k <= |all|
  {
    if k == 0 then Tally([], 0, 0) else Take(o, files, TallyOf(o, files, all, k - 1), all[k - 1])
  }

  ghost predicate TallyOk(o: PickerOptions, files: Metas, all: seq<nat>, k: nat, t: Tally) {
    && |t.picked| <= k <= |all| && t.picked == all[..|t.picked|] && t.batch == TotalSize(t.picked, files)
    && (|t.picked| > 1 ==> TotalSize(t.picked[..|t.picked| - 1], files) < o.maxBatch)
    && (!Full(o, t) ==> |t.picked| == k) && t.next == TotalSize(all[|t.picked|..k], files)
  }

  lemma PickOne(o: PickerOptions, files: Metas, all: seq<nat>, k: nat, t: Tally)
    requires TallyOk(o, files, all, k, t) && k < |all| && !Full(o, t)
    ensures TallyOk(o, files, all, k + 1, Take(o, files, t, all[k]))
  {
    var picked := t.picked + [all[k]];
    assert picked[..k] == t.picked && picked == all[..k + 1];
    assert all[k + 1..k + 1] == [] && all[k..k] == [];
  }

  lemma CountOne(o: PickerOptions, files: Metas, all: seq<nat>, k: nat, t: Tally)
    requires TallyOk(o, files, all, k, t) && k < |all| && Full(o, t)
    ensures TallyOk(o, files, all, k + 1, Take(o, files, t, all[k]))
  {
    var rest := all[|t.picked|..k + 1];
    assert rest[..|rest| - 1] == all[|t.picked|..k];
  }

  lemma {:induction false} TallyIs(o: PickerOptions, files: Metas, all: seq<nat>, k: nat)
    requires k <= |all|
    ensures TallyOk(o, files, all, k, TallyOf(o, files, all, k))
  {
    if k > 0 {
      TallyIs(o, files, all, k - 1);
      var t := TallyOf(o, files, all, k - 1);
      if Full(o, t) { CountOne(o, files, all, k - 1, t); } else { PickOne(o, files, all, k - 1, t); }
    }
  }

  lemma RestSize(files: Metas, all: seq<nat>, lo: nat, k: nat)
    requires lo <= k <= |all|
    ensures TotalSize(all[lo..k], files) <= TotalSize(all[lo..], files)
    ensures k == |all| ==> all[lo..k] == all[lo..]
  {
    var (rest, m) := (all[lo..], k - lo);
    assert all[lo..k] == rest[..m];
    TotalSplit(rest, m, files);
  }

  /** The batch is settled when all are looked at, or when the rest is already too large. */
  lemma Settled(o: PickerOptions, files: Metas, all: seq<nat>, k: nat)
    requires k <= |all| && (k < |all| ==> TallyOf(o, files, all, k).next > o.minBatch)
    ensures var t := TallyOf(o, files, all, k);
            Batch(o, all, files, t.picked, t.next > o.minBatch) && t.batch == TotalSize(t.picked, files)
  {
    TallyIs(o, files, all, k);
    var t := TallyOf(o, files, all, k);
    RestSize(files, all, |t.picked|, k);
    if |t.picked| == |all| {
      assert all[..|all|] == all && all[|all|..|all|] == [];
    }
  }

  lemma EligibleAt(o: PickerOptions, scores: seq<Score>, files: Metas, i: nat)
    requires (forall i | 0 <= i < |scores| :: scores[i].file in files) && i < |scores|
    ensures Eligible(o, scores[i..], files) ==
            if scores[i].score < o.discardableRatio then []
            else if files[scores[i].file].state != Normal then Eligible(o, scores[i + 1..], files)
            else [scores[i].file] + Eligible(o, scores[i + 1..], files)
  {
    assert scores[i..][1..] == scores[i + 1..];
  }

  lemma TakeFirst(all: seq<nat>, k: nat, n: nat, rest: seq<nat>)
    requires k <= |all| && all[k..] == [n] + rest
    ensures k < |all| && all[k] == n && all[k + 1..] == rest
  {
    assert all[k..][1..] == all[k + 1..];
  }

  /** The picking loop. */
  method PickBatch(o: PickerOptions, scores: seq<Score>, files: Metas)
    returns (picked: seq<nat>, batch: nat, more: bool)
    requires forall i | 0 <= i < |scores| :: scores[i].file in files
    ensures Batch(o, Eligible(o, scores, files), files, picked, more) && batch == TotalSize(picked, files)
  {
    ghost var all := Eligible(o, scores, files);
    picked, batch := [], 0;
    var stop, next: nat := false, 0;
    var i := 0;
    ghost var k: nat := 0;
    assert scores[0..] == scores && all[0..] == all && scores[|scores|..] == [];
    while i < |scores| && next <= o.minBatch
      invariant i <= |scores| && k <= |all| && all[k..] == Eligible(o, scores[i..], files)
      invariant Tally(picked, batch, next) == TallyOf(o, files, all, k) && stop == Full(o, Tally(picked, batch, next))
    {
      EligibleAt(o, scores, files, i);
      if scores[i].score < o.discardableRatio {
        break;
      }
      var n := scores[i].file;
      i := i + 1;
      if files[n].state == Normal {
        TakeFirst(all, k, n, Eligible(o, scores[i..], files));
        if !stop {
          picked := picked + [n];
          batch := batch + files[n].size;
          stop := batch >= o.maxBatch;
        } else {
          next := next + files[n].size;
        }
        k := k + 1;
      }
    }
    more := next > o.minBatch;
    Settled(o, files, all, k);
  }

  lemma FrontSize(ns: seq<nat>, k: nat, files: Metas)
    requires k <= |ns|
    ensures TotalSize(ns[..k], files) <= TotalSize(ns, files)
  {
    TotalSplit(ns, k, files);
  }

  /** The eligible files determine the batch. */
  lemma BatchUnique(o: PickerOptions, all: seq<nat>, files: Metas, p: seq<nat>, q: seq<nat>, more: bool, more': bool)
    requires Batch(o, all, files, p, more) && Batch(o, all, files, q, more') && |p| <= |q|
    ensures p == q && more == more'
  {
    if |p| < |q| {
      var front := q[..|q| - 1];
      assert front[..|p|] == p;
      FrontSize(front, |p|, files);
    }
  }

  /** With the best scores first, a file is eligible exactly if its score is high enough and it is normal. */
  lemma {:induction false} EligibleIff(o: PickerOptions, scores: seq<Score>, files: Metas, n: nat)
    requires forall i | 0 <= i < |scores| :: scores[i].file in files
    requires forall i, j | 0 <= i < j < |scores| :: scores[i].score >= scores[j].score
    ensures n in Eligible(o, scores, files) <==>
              exists i :: 0 <= i < |scores| && scores[i].file == n && scores[i].score >= o.discardableRatio
                          && files[n].state == Normal
  {
    if scores != [] {
      var rest := scores[1..];
      EligibleIff(o, rest, files, n);
      assert forall i | 0 <= i < |rest| :: rest[i] == scores[i + 1];
      if i :| 0 <= i < |scores| && scores[i].file == n && scores[i].score >= o.discardableRatio
              && files[n].state == Normal
      {
        assert scores[0].score >= scores[i].score && (i > 0 ==> rest[i - 1] == scores[i]);
      }
    }
  }

  /**
   * `PickBlobGC`: the batch of the eligible files, unless it is not worth a job: nothing, too little, or
   * one small file with little to discard.
   */
  method PickBlobGC(o: PickerOptions, scores: seq<Score>, files: Metas, ratio: nat -> real) returns (r: Option<Picked>)
    requires forall i | 0 <= i < |scores| :: scores[i].file in files
    requires forall i, j | 0 <= i < j < |scores| :: scores[i].file != scores[j].file
    ensures forall picked, more | Batch(o, Eligible(o, scores, files), files, picked, more) ::
              r == if picked == [] || TotalSize(picked, files) < o.minBatch ||
                      (|picked| == 1 && SizeOf(files, picked[0]) <= o.smallFile &&
                       ratio(picked[0]) < o.discardableRatio)
                   then None else Some(Picked(picked, more))
    ensures r.Some? ==>
              && Distinct(r.value.files) && (forall n | n in r.value.files :: n in files && files[n].state == Normal)
              && Batch(o, Eligible(o, scores, files), files, r.value.files, r.value.triggerNext)
  {
    var picked, batch, more := PickBatch(o, scores, files);
    EligibleFiles(o, scores, files);
    forall p, m | Batch(o, Eligible(o, scores, files), files, p, m)
      ensures p == picked && m == more
    {
      if |p| <= |picked| {
        BatchUnique(o, Eligible(o, scores, files), files, p, picked, m, more);
      } else {
        BatchUnique(o, Eligible(o, scores, files), files, picked, p, more, m);
      }
    }
    if picked == [] || batch < o.minBatch {
      return None;
    }
    var only := picked[0];
    assert only in Eligible(o, scores, files);
    if |picked| == 1 && files[only].size <= o.smallFile && ratio(only) < o.discardableRatio {
      return None;
    }
    return Some(Picked(picked, more));
  }

  // ---------------------------------------------------------------- jobs and their files

  /** The in-memory object of a blob file, of which the jobs hold pointers. */
  class FileObject {
    var meta: FileMeta

    constructor (meta: FileMeta)
      ensures this.meta == meta
    {
      this.meta := meta;
    }

    /** The source's assertions are the precondition. */
    method FileStateTransit(e: FileEvent)
      requires Allowed(meta.state, e)
      modifies this
      ensures meta == old(meta).(state := Transit(old(meta.state), e))
    {
      meta := meta.(state := Transit(meta.state, e));
    }

    method UpdateLiveDataSize(delta: int) returns (ok: bool)
      modifies this
      ensures ok == (old(meta.live) + delta >= 0)
      ensures meta == old(meta).(live := if ok then old(meta.live) + delta else 0)
    {
      ok := meta.live + delta >= 0;
      meta := UpdateLive(meta, delta).0;
    }
  }

  ghost predicate AllDifferent(fs: seq<FileObject>) { forall i, j | 0 <= i < j < |fs| :: fs[i] != fs[j] }

  /** Both loops of `BlobGC`: one event on every file of a list. */
  method TransitAll(fs: seq<FileObject>, e: FileEvent)
    requires AllDifferent(fs) && forall i | 0 <= i < |fs| :: Allowed(fs[i].meta.state, e)
    modifies fs
    ensures forall i | 0 <= i < |fs| :: fs[i].meta == old(fs[i].meta).(state := Transit(old(fs[i].meta.state), e))
  {
    var i := 0;
    while i < |fs|
      invariant i <= |fs|
      invariant forall j | 0 <= j < |fs| ::
                  fs[j].meta ==
                  if j < i then old(fs[j].meta).(state := Transit(old(fs[j].meta.state), e)) else old(fs[j].meta)
    {
      fs[i].FileStateTransit(e);
      i := i + 1;
    }
  }

  class BlobGC {
    var inputs: seq<FileObject>
    var outputs: seq<FileObject>

    /** Inputs are being collected or deleted, outputs wait for the job or are deleted. */
    ghost predicate Running()
      reads this, inputs, outputs
    {
      && AllDifferent(inputs + outputs)
      && (forall i | 0 <= i < |inputs| :: inputs[i].meta.state == BeingGC || inputs[i].meta.state == Obsolete)
      && (forall i | 0 <= i < |outputs| :: outputs[i].meta.state == PendingGC || outputs[i].meta.state == Obsolete)
    }

    /** `MarkFilesBeingGC`: the picker promises different files in the normal state. */
    constructor (files: seq<FileObject>)
      requires AllDifferent(files) && forall i | 0 <= i < |files| :: files[i].meta.state == Normal
      modifies files
      ensures inputs == files && outputs == [] && Running()
      ensures forall i | 0 <= i < |files| :: files[i].meta == old(files[i].meta).(state := BeingGC)
    {
      inputs, outputs := files, [];
      new;
      assert inputs + outputs == inputs;
      TransitAll(inputs, GCBegin);
    }

    /** `ReleaseGcFiles`: every file becomes normal again, unless it was deleted meanwhile. */
    method ReleaseGcFiles()
      requires Running()
      modifies inputs, outputs
      ensures forall f | f in inputs + outputs ::
                f.meta == old(f.meta).(state := if old(f.meta.state) == Obsolete then Obsolete else Normal)
    {
      assert forall i | 0 <= i < |inputs| :: (inputs + outputs)[i] == inputs[i];
      assert forall i | 0 <= i < |outputs| :: (inputs + outputs)[|inputs| + i] == outputs[i];
      TransitAll(inputs, GCCompleted);
      TransitAll(outputs, GCCompleted);
    }
  }
}
