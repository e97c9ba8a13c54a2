/** The k-way merge of the blob files of a GC job. */
module Merging {
  import opened Wrappers
  import opened BlobFileMeta

  /** A record as its file's iterator shows it: the key, and which record it is. */
  datatype Rec = Rec(key: Key, blob: nat)

  type Run = seq<Rec>

  predicate SortedRun(r: Run) { forall i, j | 0 <= i < j < |r| :: r[i].key <= r[j].key }

  /** One step of the merge: the file a record came from and its place there. */
  datatype Pick = Pick(file: nat, at: nat)

  predicate InRange(files: seq<Run>, p: Pick) { p.file < |files| && p.at < |files[p.file]| }

  function KeyOf(files: seq<Run>, p: Pick): Key
    requires InRange(files, p)
  {
    files[p.file][p.at].key
  }

  predicate AllInRange(files: seq<Run>, out: seq<Pick>) { forall i | 0 <= i < |out| :: InRange(files, out[i]) }

  predicate SortedPicks(files: seq<Run>, out: seq<Pick>)
    requires AllInRange(files, out)
  {
    forall i, j | 0 <= i < j < |out| :: KeyOf(files, out[i]) <= KeyOf(files, out[j])
  }

  /** The places taken from file `f`, in the order they were taken. */
  function TakenFrom(out: seq<Pick>, f: nat): seq<nat> {
    if out == [] then []
    else
      var p := out[|out| - 1];
      TakenFrom(out[..|out| - 1], f) + if p.file == f then [p.at] else []
  }

  function Upto(n: nat): (r: seq<nat>)
    ensures |r| == n && forall i | 0 <= i < n :: r[i] == i
  {
    seq(n, i => i)
  }

  /** Exactly the first `pos[f]` records of every file have been taken, each once and in order. */
  ghost predicate TookPrefixes(out: seq<Pick>, pos: seq<nat>) {
    forall f | 0 <= f < |pos| :: TakenFrom(out, f) == Upto(pos[f])
  }

  /** Every record of every file has been taken, each once and in file order, and nothing else. */
  ghost predicate TookAll(files: seq<Run>, out: seq<Pick>) {
    AllInRange(files, out) && forall f | 0 <= f < |files| :: TakenFrom(out, f) == Upto(|files[f]|)
  }

  lemma TakeNext(out: seq<Pick>, pos: seq<nat>, c: nat)
    requires TookPrefixes(out, pos) && c < |pos|
    ensures TookPrefixes(out + [Pick(c, pos[c])], pos[c := pos[c] + 1])
  {
    var (next, pos') := (out + [Pick(c, pos[c])], pos[c := pos[c] + 1]);
    assert next[..|out|] == out;
    forall f | 0 <= f < |pos'|
      ensures TakenFrom(next, f) == Upto(pos'[f])
    {
      assert TakenFrom(out, f) == Upto(pos[f]);
      assert Upto(pos[c]) + [pos[c]] == Upto(pos[c] + 1);
    }
  }

  // ---------------------------------------------------------------- work left

  /** How many records of the first `n` files are still to come. */
  function Left(files: seq<Run>, pos: seq<nat>, n: nat): int
    requires n <= |pos| == |files|
  {
    if n == 0 then 0 else Left(files, pos, n - 1) + |files[n - 1]| - pos[n - 1]
  }

  lemma {:induction false} LeftStep(files: seq<Run>, pos: seq<nat>, n: nat, c: nat)
    requires n <= |pos| == |files| && c < |pos|
    ensures Left(files, pos[c := pos[c] + 1], n) == Left(files, pos, n) - if c < n then 1 else 0
  {
    if n > 0 { LeftStep(files, pos, n - 1, c); }
  }

  lemma {:induction false} LeftNonNegative(files: seq<Run>, pos: seq<nat>, n: nat)
    requires n <= |pos| == |files| && forall f | 0 <= f < |pos| :: pos[f] <= |files[f]|
    ensures Left(files, pos, n) >= 0
  {
    if n > 0 { LeftNonNegative(files, pos, n - 1); }
  }

  /** The key a file's iterator stands on. */
  function CurrentKey(files: seq<Run>, pos: seq<nat>, f: nat): Key
    requires f < |files| == |pos| && pos[f] < |files[f]|
  {
    files[f][pos[f]].key
  }

  /** Each of these files has a current record. */
  predicate Standing(files: seq<Run>, pos: seq<nat>, s: set<nat>) {
    |files| == |pos| && forall f | f in s :: f < |files| && pos[f] < |files[f]|
  }

  predicate Smallest(files: seq<Run>, pos: seq<nat>, s: set<nat>, m: nat)
    requires Standing(files, pos, s) && m < |files| == |pos| && pos[m] < |files[m]|
  {
    forall f | f in s :: CurrentKey(files, pos, m) <= CurrentKey(files, pos, f)
  }

  lemma SmallestOfLess(files: seq<Run>, pos: seq<nat>, s: set<nat>, less: set<nat>, m: nat)
    requires Standing(files, pos, s) && m in s && Smallest(files, pos, s, m) && less <= s
    ensures Standing(files, pos, less) && Smallest(files, pos, less, m)
  {}

  /** Among finitely many files one has a smallest current key. */
  lemma {:induction false} SmallestExists(files: seq<Run>, pos: seq<nat>, s: set<nat>) returns (m: nat)
    requires s != {} && Standing(files, pos, s)
    ensures m in s && Smallest(files, pos, s, m)
    decreases |s|
  {
    var first :| first in s;
    m := first;
    var rest := s - {first};
    if rest == {} {
      assert s == {first};
    } else {
      var least := SmallestExists(files, pos, rest);
      if CurrentKey(files, pos, least) < CurrentKey(files, pos, first) { m := least; }
      forall f | f in s ensures CurrentKey(files, pos, m) <= CurrentKey(files, pos, f) {
        assert f == first || f in rest;
      }
    }
  }

  // ---------------------------------------------------------------- the iterator

  ghost predicate PosOk(files: seq<Run>, pos: seq<nat>) {
    |pos| == |files| && forall f | 0 <= f < |pos| :: pos[f] <= |files[f]|
  }

  /** The heap holds every file that has records left, except `apart`. */
  ghost predicate HeapOk(files: seq<Run>, pos: seq<nat>, heap: set<nat>, apart: Option<nat>) {
    && PosOk(files, pos) && Standing(files, pos, heap)
    && (forall f | 0 <= f < |files| && pos[f] < |files[f]| :: f in heap || apart == Some(f))
    && (apart.Some? ==> apart.value < |files| && pos[apart.value] < |files[apart.value]| && apart.value !in heap)
  }

  /** The current file stands on a smallest key; without one nothing is left. */
  ghost predicate GoodAt(files: seq<Run>, pos: seq<nat>, heap: set<nat>, current: Option<nat>) {
    && HeapOk(files, pos, heap, current)
    && if current.Some? then Smallest(files, pos, heap, current.value) else heap == {}
  }

  /** Every record of every file has been passed. */
  ghost predicate Exhausted(files: seq<Run>, pos: seq<nat>) {
    |pos| == |files| && forall f | 0 <= f < |files| :: pos[f] == |files[f]|
  }

  class BlobFileMergeIterator {
    const files: seq<Run>
    var pos: seq<nat>
    var heap: set<nat>
    var current: Option<nat>
    var ok: bool

    ghost predicate Good()
      reads this
    {
      GoodAt(files, pos, heap, current)
    }

    predicate Valid()
      reads this
    {
      current.Some?
    }

    constructor (files: seq<Run>)
      ensures this.files == files && pos == seq(|files|, _ => 0) && heap == {} && current == None && ok
    {
      this.files := files;
      pos, heap, current, ok := seq(|files|, _ => 0), {}, None, true;
    }

    /** `top` and `pop` of the priority queue: some file whose current key is smallest, ties going either way. */
    method PopTop() returns (top: nat)
      requires HeapOk(files, pos, heap, None) && heap != {}
      modifies this`heap
      ensures top in old(heap) && heap == old(heap) - {top} && HeapOk(files, pos, heap, Some(top))
      ensures Smallest(files, pos, heap, top)
    {
      ghost var m := SmallestExists(files, pos, heap);
      top :| top in heap && Smallest(files, pos, heap, top);
      SmallestOfLess(files, pos, heap, heap - {top}, top);
      heap := heap - {top};
    }

    /** Takes the next file from the heap, if there is one. */
    method Advance()
      requires HeapOk(files, pos, heap, None)
      modifies this`heap, this`current
      ensures Good() && (current.None? <==> old(heap) == {})
    {
      if heap != {} {
        var top := PopTop();
        current := Some(top);
      } else {
        current := None;
      }
    }

    method SeekToFirst()
      requires heap == {} && pos == seq(|files|, _ => 0)
      modifies this`heap, this`current, this`ok
      ensures Good() && pos == old(pos) && ok == (old(ok) && current.Some?)
      ensures current.None? <==> Exhausted(files, pos)
    {
      var i := 0;
      while i < |files|
        invariant i <= |files| && ok == old(ok) && heap == set f: nat | f < i && files[f] != []
      {
        if files[i] != [] { heap := heap + {i}; }
        i := i + 1;
      }
      if heap == {} { ok := false; }
      assert forall f | 0 <= f < |files| && files[f] != [] :: f in heap;
      Advance();
    }

    method Next()
      requires Good() && Valid()
      modifies this`pos, this`heap, this`current
      ensures Good()
      ensures pos == old(pos)[old(current.value) := old(pos)[old(current.value)] + 1]
      ensures current.None? <==> Exhausted(files, pos)
    {
      var c := current.value;
      pos := pos[c := pos[c] + 1];
      if pos[c] < |files[c]| { heap := heap + {c}; }
      Advance();
    }
  }

  predicate AllSorted(files: seq<Run>) { forall f | 0 <= f < |files| :: SortedRun(files[f]) }

  /** The output is sorted and no record still to come is below it. */
  ghost predicate Ordered(files: seq<Run>, pos: seq<nat>, out: seq<Pick>) {
    && AllInRange(files, out) && SortedPicks(files, out) && |files| == |pos|
    && forall f | 0 <= f < |files| && pos[f] < |files[f]| && out != [] ::
         KeyOf(files, out[|out| - 1]) <= CurrentKey(files, pos, f)
  }

  /** `c` stands on a smallest key among all the files that have records left. */
  ghost predicate Leads(files: seq<Run>, pos: seq<nat>, c: nat) {
    && |files| == |pos| && c < |files| && pos[c] < |files[c]|
    && forall f | 0 <= f < |files| && pos[f] < |files[f]| :: CurrentKey(files, pos, c) <= CurrentKey(files, pos, f)
  }

  /** Taking a smallest current key keeps the output sorted, as long as every file is. */
  lemma TakeSmallest(files: seq<Run>, pos: seq<nat>, out: seq<Pick>, c: nat)
    requires Ordered(files, pos, out) && AllSorted(files) && Leads(files, pos, c)
    ensures Ordered(files, pos[c := pos[c] + 1], out + [Pick(c, pos[c])])
  {
    var next := out + [Pick(c, pos[c])];
    forall i, j | 0 <= i < j < |next|
      ensures KeyOf(files, next[i]) <= KeyOf(files, next[j])
    {
      if j == |out| {
        assert KeyOf(files, out[|out| - 1]) <= CurrentKey(files, pos, c);
      }
    }
    var pos' := pos[c := pos[c] + 1];
    forall f | 0 <= f < |files| && pos'[f] < |files[f]|
      ensures KeyOf(files, next[|out|]) <= CurrentKey(files, pos', f)
    {
      assert SortedRun(files[c]);
      assert CurrentKey(files, pos, c) <= CurrentKey(files, pos, f);
    }
  }

  /** What the loop below keeps. */
  ghost predicate Drained(files: seq<Run>, pos: seq<nat>, out: seq<Pick>) {
    && AllInRange(files, out) && TookPrefixes(out, pos) && |files| == |pos|
    && (AllSorted(files) ==> Ordered(files, pos, out))
  }

  lemma DrainStep(files: seq<Run>, pos: seq<nat>, heap: set<nat>, out: seq<Pick>, c: nat)
    requires Drained(files, pos, out) && GoodAt(files, pos, heap, Some(c))
    ensures Drained(files, pos[c := pos[c] + 1], out + [Pick(c, pos[c])])
    ensures Left(files, pos, |files|) >= 0
    ensures Left(files, pos[c := pos[c] + 1], |files|) == Left(files, pos, |files|) - 1
  {
    assert Leads(files, pos, c);
    LeftNonNegative(files, pos, |files|);
    TakeNext(out, pos, c);
    LeftStep(files, pos, |files|, c);
    if AllSorted(files) { TakeSmallest(files, pos, out, c); }
  }

  /** The merge is sorted only if every file is. */
  lemma {:induction false} SortedOnlyIf(files: seq<Run>, out: seq<Pick>, f: nat)
    requires AllInRange(files, out) && SortedPicks(files, out) && f < |files|
    ensures forall k | 0 <= k < |TakenFrom(out, f)| :: TakenFrom(out, f)[k] < |files[f]|
    ensures forall k | 0 <= k < |TakenFrom(out, f)| ::
              files[f][TakenFrom(out, f)[k]].key <= KeyOf(files, out[|out| - 1])
    ensures forall k, l | 0 <= k < l < |TakenFrom(out, f)| ::
              files[f][TakenFrom(out, f)[k]].key <= files[f][TakenFrom(out, f)[l]].key
  {
    if out != [] {
      var front := out[..|out| - 1];
      SortedOnlyIf(files, front, f);
      if front != [] {
        assert KeyOf(files, out[|out| - 2]) <= KeyOf(files, out[|out| - 1]);
      }
    }
  }

  lemma SortedOnlyIfAll(files: seq<Run>, out: seq<Pick>)
    requires TookAll(files, out)
    ensures SortedPicks(files, out) ==> AllSorted(files)
  {
    if SortedPicks(files, out) {
      forall f | 0 <= f < |files|
        ensures SortedRun(files[f])
      {
        SortedOnlyIf(files, out, f);
        var taken := TakenFrom(out, f);
        forall i, j | 0 <= i < j < |files[f]|
          ensures files[f][i].key <= files[f][j].key
        {
          assert taken[i] == i && taken[j] == j;
        }
      }
    }
  }

  lemma DrainStart(files: seq<Run>, pos: seq<nat>)
    requires pos == seq(|files|, _ => 0)
    ensures Drained(files, pos, [])
  {}

  lemma DrainDone(files: seq<Run>, pos: seq<nat>, out: seq<Pick>)
    requires Drained(files, pos, out) && Exhausted(files, pos)
    ensures TookAll(files, out)
    ensures AllSorted(files) <==> SortedPicks(files, out)
  {
    SortedOnlyIfAll(files, out);
  }

  /**
   * The loop of a GC job over the merged files: every record of every file is seen exactly once,
   * those of one file in file order, and what the loop sees is sorted exactly if every file is.
   */
  method Drain(it: BlobFileMergeIterator) returns (out: seq<Pick>)
    requires it.heap == {} && it.pos == seq(|it.files|, _ => 0)
    modifies it
    ensures TookAll(it.files, out)
    ensures AllSorted(it.files) <==> SortedPicks(it.files, out)
    ensures !it.Valid()
  {
    out := [];
    it.SeekToFirst();
    DrainStart(it.files, it.pos);
    while it.Valid()
      invariant it.Good() && Drained(it.files, it.pos, out) && (it.Valid() || Exhausted(it.files, it.pos))
      decreases Left(it.files, it.pos, |it.files|)
    {
      out := TakeCurrent(it, out);
    }
    DrainDone(it.files, it.pos, out);
  }

  /** One turn of that loop. */
  method TakeCurrent(it: BlobFileMergeIterator, taken: seq<Pick>) returns (out: seq<Pick>)
    requires it.Good() && it.Valid() && Drained(it.files, it.pos, taken)
    modifies it
    ensures it.Good() && Drained(it.files, it.pos, out) && (it.Valid() || Exhausted(it.files, it.pos))
    ensures 0 <= old(Left(it.files, it.pos, |it.files|))
    ensures Left(it.files, it.pos, |it.files|) < old(Left(it.files, it.pos, |it.files|))
  {
    var c := it.current.value;
    DrainStep(it.files, it.pos, it.heap, taken, c);
    out := taken + [Pick(c, it.pos[c])];
    it.Next();
  }
}
