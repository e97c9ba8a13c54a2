/** Counting sorted runs: a sweep over the ends of the files' key ranges. */
module SortedRuns {
  import opened BlobFileMeta

  datatype Range = Range(smallest: Key, largest: Key)

  /** One end of the key range of file `file`. */
  datatype End = End(file: nat, start: bool)

  function EndKey(files: seq<Range>, e: End): Key
    requires e.file < |files|
  {
    if e.start then files[e.file].smallest else files[e.file].largest
  }

  /** The comparison the ends are sorted with: on equal keys largest ends come first. */
  predicate Less(files: seq<Range>, a: End, b: End)
    requires a.file < |files| && b.file < |files|
  {
    var (x, y) := (EndKey(files, a), EndKey(files, b));
    if x == y then !a.start && b.start else x < y
  }

  /** A result the sort may give: both ends of every file once, in order; equal ends in any order. */
  ghost predicate Arrangement(files: seq<Range>, ends: seq<End>) {
    && (forall i | 0 <= i < |ends| :: ends[i].file < |files|)
    && (forall f, b | 0 <= f < |files| :: End(f, b) in ends)
    && (forall i, j | 0 <= i < j < |ends| :: ends[i] != ends[j] && !Less(files, ends[j], ends[i]))
  }

  /** The keys at which the sweep counts a file: a file of one key is never taken out again. */
  predicate Covers(r: Range, p: Key) {
    r.smallest <= p && (r.smallest < r.largest ==> p < r.largest)
  }

  function Active(files: seq<Range>, p: Key): set<nat> {
    set f: nat | f < |files| && Covers(files[f], p)
  }

  // ---------------------------------------------------------------- the set the sweep holds

  predicate Seen(ends: seq<End>, k: nat, e: End)
    requires k <= |ends|
  {
    exists i | 0 <= i < k :: ends[i] == e
  }

  /** Whether file `f` is in the set after the first `k` ends. */
  predicate Live(files: seq<Range>, ends: seq<End>, k: nat, f: nat)
    requires k <= |ends| && f < |files|
  {
    Seen(ends, k, End(f, true)) && (files[f].smallest < files[f].largest ==> !Seen(ends, k, End(f, false)))
  }

  /** The set itself: starts go in, largest ends take out. */
  function LiveAfter(ends: seq<End>, k: nat): set<nat>
    requires k <= |ends|
  {
    if k == 0 then {}
    else if ends[k - 1].start then LiveAfter(ends, k - 1) + {ends[k - 1].file}
    else LiveAfter(ends, k - 1) - {ends[k - 1].file}
  }

  lemma SeenStep(ends: seq<End>, k: nat, e: End)
    requires k < |ends|
    ensures Seen(ends, k + 1, e) <==> Seen(ends, k, e) || ends[k] == e
  {
    if Seen(ends, k, e) {
      var i :| 0 <= i < k && ends[i] == e;
      assert ends[i] == e && i < k + 1;
    }
  }

  /** Every end comes after the ends that are less than it. */
  lemma SeenInOrder(files: seq<Range>, ends: seq<End>, k: nat, e: End)
    requires Arrangement(files, ends) && k < |ends| && e.file < |files|
    ensures Less(files, e, ends[k]) ==> Seen(ends, k, e)
    ensures Less(files, ends[k], e) ==> !Seen(ends, k + 1, e)
  {
    assert e in ends;
    var i :| 0 <= i < |ends| && ends[i] == e;
    if Less(files, e, ends[k]) {
      assert i < k;
    }
  }

  lemma {:induction false} LiveMember(files: seq<Range>, ends: seq<End>, k: nat, f: nat)
    requires Arrangement(files, ends) && k <= |ends|
    ensures f in LiveAfter(ends, k) <==> f < |files| && Live(files, ends, k, f)
  {
    if k > 0 {
      LiveMember(files, ends, k - 1, f);
      SeenStep(ends, k - 1, End(f, true));
      SeenStep(ends, k - 1, End(f, false));
      if f < |files| {
        SeenInOrder(files, ends, k - 1, End(f, true));
        SeenInOrder(files, ends, k - 1, End(f, false));
      }
    }
  }

  /** The files marked at the first `k` ends: all that are in the set while it is too large. */
  function MarkedAfter(ends: seq<End>, maxRuns: nat, k: nat): set<nat>
    requires k <= |ends|
  {
    if k == 0 then {}
    else
      MarkedAfter(ends, maxRuns, k - 1) +
      if ends[k - 1].start && |LiveAfter(ends, k)| > maxRuns then LiveAfter(ends, k) else {}
  }

  ghost predicate MarkedAt(ends: seq<End>, maxRuns: nat, j: nat, f: nat) {
    j < |ends| && ends[j].start && f in LiveAfter(ends, j + 1) && |LiveAfter(ends, j + 1)| > maxRuns
  }

  lemma {:induction false} MarkedMember(ends: seq<End>, maxRuns: nat, k: nat, f: nat)
    requires k <= |ends|
    ensures f in MarkedAfter(ends, maxRuns, k) <==> exists j: nat :: j < k && MarkedAt(ends, maxRuns, j, f)
  {
    if k > 0 {
      MarkedMember(ends, maxRuns, k - 1, f);
      assert f in MarkedAfter(ends, maxRuns, k) <==>
             f in MarkedAfter(ends, maxRuns, k - 1) || MarkedAt(ends, maxRuns, k - 1, f);
      if j: nat :| j < k - 1 && MarkedAt(ends, maxRuns, j, f) {
        assert j < k && MarkedAt(ends, maxRuns, j, f);
      }
      if j: nat :| j < k && MarkedAt(ends, maxRuns, j, f) {
        assert j < k - 1 || j == k - 1;
      }
    }
  }

  // ---------------------------------------------------------------- what it means

  /** The set never holds a file that does not cover the key the sweep is at. */
  lemma LiveIsActive(files: seq<Range>, ends: seq<End>, k: nat)
    requires Arrangement(files, ends) && k < |ends| && ends[k].start
    ensures LiveAfter(ends, k + 1) <= Active(files, files[ends[k].file].smallest)
  {
    var p := files[ends[k].file].smallest;
    forall g | g in LiveAfter(ends, k + 1)
      ensures g in Active(files, p)
    {
      LiveMember(files, ends, k + 1, g);
      SeenStep(ends, k, End(g, true));
      SeenStep(ends, k, End(g, false));
      SeenInOrder(files, ends, k, End(g, true));
      SeenInOrder(files, ends, k, End(g, false));
    }
  }

  /** At the last start end of a key the set is everything that covers the key. */
  lemma LastIsActive(files: seq<Range>, ends: seq<End>, k: nat)
    requires Arrangement(files, ends) && k < |ends| && ends[k].start
    requires forall j | k < j < |ends| && ends[j].start :: EndKey(files, ends[j]) > EndKey(files, ends[k])
    ensures LiveAfter(ends, k + 1) == Active(files, files[ends[k].file].smallest)
  {
    var p := files[ends[k].file].smallest;
    LiveIsActive(files, ends, k);
    forall g | g in Active(files, p)
      ensures g in LiveAfter(ends, k + 1)
    {
      LiveMember(files, ends, k + 1, g);
      assert End(g, true) in ends;
      var i :| 0 <= i < |ends| && ends[i] == End(g, true);
      assert i <= k;
      SeenStep(ends, k, End(g, false));
      SeenInOrder(files, ends, k, End(g, false));
    }
  }

  /** Some start end is the last one with its key. */
  lemma {:induction false} LastWithKey(files: seq<Range>, ends: seq<End>, k: nat) returns (m: nat)
    requires Arrangement(files, ends) && k < |ends| && ends[k].start
    ensures k <= m < |ends| && ends[m].start && EndKey(files, ends[m]) == EndKey(files, ends[k])
    ensures forall j | m < j < |ends| && ends[j].start :: EndKey(files, ends[j]) > EndKey(files, ends[m])
    decreases |ends| - k
  {
    if j :| k < j < |ends| && ends[j].start && EndKey(files, ends[j]) <= EndKey(files, ends[k]) {
      assert !Less(files, ends[j], ends[k]);
      m := LastWithKey(files, ends, j);
    } else {
      m := k;
    }
  }

  /** Among the files that cover a key, one has the largest smallest key. */
  lemma {:induction false} LatestStart(files: seq<Range>, s: set<nat>) returns (g: nat)
    requires s != {} && forall f | f in s :: f < |files|
    ensures g in s && forall f | f in s :: files[f].smallest <= files[g].smallest
    decreases |s|
  {
    g :| g in s;
    if s != {g} {
      var h := LatestStart(files, s - {g});
      if files[h].smallest > files[g].smallest { g := h; }
    }
  }

  lemma SubsetSize(a: set<nat>, b: set<nat>)
    requires a <= b
    ensures |a| <= |b|
  {
    assert b == a + (b - a);
  }

  ghost predicate Crowded(files: seq<Range>, maxRuns: nat, f: nat, p: Key) {
    f in Active(files, p) && |Active(files, p)| > maxRuns
  }

  /** `marked` are the files that cover some key covered by more than `maxRuns` files. */
  ghost predicate ExactlyCrowded(files: seq<Range>, maxRuns: nat, marked: set<nat>) {
    forall f: nat :: f in marked <==> exists p :: Crowded(files, maxRuns, f, p)
  }

  /** A file is marked exactly when it covers some key that too many files cover. */
  lemma MarkedIff(files: seq<Range>, ends: seq<End>, maxRuns: nat, f: nat)
    requires Arrangement(files, ends)
    ensures f in MarkedAfter(ends, maxRuns, |ends|) <==> exists p :: Crowded(files, maxRuns, f, p)
  {
    MarkedMember(ends, maxRuns, |ends|, f);
    if f in MarkedAfter(ends, maxRuns, |ends|) {
      var j: nat :| j < |ends| && MarkedAt(ends, maxRuns, j, f);
      LiveIsActive(files, ends, j);
      var p := files[ends[j].file].smallest;
      SubsetSize(LiveAfter(ends, j + 1), Active(files, p));
      assert Crowded(files, maxRuns, f, p);
    }
    if p :| Crowded(files, maxRuns, f, p) {
      var g := LatestStart(files, Active(files, p));
      var q := files[g].smallest;
      SubsetSize(Active(files, p), Active(files, q));
      assert End(g, true) in ends;
      var k :| 0 <= k < |ends| && ends[k] == End(g, true);
      var m := LastWithKey(files, ends, k);
      LastIsActive(files, ends, m);
      assert MarkedAt(ends, maxRuns, m, f);
    }
  }

  // ---------------------------------------------------------------- the sweep

  /** The loop of the sweep. */
  method RunSweep(ends: seq<End>, maxRuns: nat) returns (marked: set<nat>)
    ensures marked == MarkedAfter(ends, maxRuns, |ends|)
  {
    marked := {};
    var live: set<nat> := {};
    var k := 0;
    while k < |ends|
      invariant k <= |ends| && live == LiveAfter(ends, k) && marked == MarkedAfter(ends, maxRuns, k)
    {
      if ends[k].start {
        live := live + {ends[k].file};
        if |live| > maxRuns {
          marked := marked + live;
        }
      } else {
        live := live - {ends[k].file};
      }
      k := k + 1;
    }
  }

  /** `MarkFileIfNeedMerge` once the ends are sorted; `marked` are the files that get the merge event. */
  method Sweep(files: seq<Range>, ends: seq<End>, maxRuns: nat) returns (marked: set<nat>)
    requires Arrangement(files, ends)
    ensures ExactlyCrowded(files, maxRuns, marked)
  {
    marked := RunSweep(ends, maxRuns);
    MarkedIffAll(files, ends, maxRuns);
  }

  lemma MarkedIffAll(files: seq<Range>, ends: seq<End>, maxRuns: nat)
    requires Arrangement(files, ends)
    ensures ExactlyCrowded(files, maxRuns, MarkedAfter(ends, maxRuns, |ends|))
  {
    forall f: nat
      ensures f in MarkedAfter(ends, maxRuns, |ends|) <==> exists p :: Crowded(files, maxRuns, f, p)
    {
      MarkedIff(files, ends, maxRuns, f);
    }
  }

  // ---------------------------------------------------------------- half-open ranges

  function Overlapping(files: seq<Range>, p: Key): set<nat> {
    set f: nat | f < |files| && files[f].smallest <= p < files[f].largest
  }

  predicate Strict(files: seq<Range>) { forall f | 0 <= f < |files| :: files[f].smallest < files[f].largest }

  ghost predicate TooMany(files: seq<Range>, maxRuns: nat, f: nat, p: Key) {
    f in Overlapping(files, p) && |Overlapping(files, p)| > maxRuns
  }

  /** The sweep marks `f` exactly when half-open counting says so. */
  ghost predicate AgreesOn(files: seq<Range>, maxRuns: nat, f: nat) {
    (exists p :: Crowded(files, maxRuns, f, p)) <==> (exists p :: TooMany(files, maxRuns, f, p))
  }

  /** The sweep counts half-open ranges, whatever the limit, if and only if no file has a single key. */
  lemma CountsHalfOpenIff(files: seq<Range>)
    ensures (forall maxRuns: nat, f: nat :: AgreesOn(files, maxRuns, f)) <==> Strict(files)
  {
    if Strict(files) {
      forall maxRuns: nat, f: nat
        ensures AgreesOn(files, maxRuns, f)
      {
        forall p ensures Crowded(files, maxRuns, f, p) <==> TooMany(files, maxRuns, f, p) {
          assert Active(files, p) == Overlapping(files, p);
        }
      }
    } else {
      var f :| 0 <= f < |files| && files[f].smallest >= files[f].largest;
      assert f in Active(files, files[f].smallest);
      assert Crowded(files, 0, f, files[f].smallest);
      assert !AgreesOn(files, 0, f);
    }
  }

  /** A file of the single key 1 counts against a file far above it, and both are marked. */
  lemma SingleKeyCountsForEver()
    ensures var files := [Range(1, 1), Range(5, 9)];
            && Crowded(files, 1, 0, 5) && Crowded(files, 1, 1, 5)
            && forall p :: |Overlapping(files, p)| <= 1
  {
    var files := [Range(1, 1), Range(5, 9)];
    assert Active(files, 5) == {0, 1};
    forall p ensures |Overlapping(files, p)| <= 1 {
      assert Overlapping(files, p) <= {1};
      SubsetSize(Overlapping(files, p), {1});
    }
  }
}
