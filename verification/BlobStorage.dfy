/**
 `BlobStorage`: five views of one column family's blob files that every operation must keep in
 agreement -- the file map, the index by smallest key, the obsolete list, the per-level counts and
 the GC scores.
 */
module Storage {
  import opened Wrappers
  import opened BlobFileMeta
  import Manifest

  type Store = Manifest.Store

  datatype GcScore = GcScore(number: FileNumber, score: real)

  /** A range of keys; None at an end means unbounded. */
  datatype Range = Range(begin: Option<Key>, end: Option<Key>)

  /** What a finished blob file's metadata satisfies; legacy files have no keys. */
  predicate MetaOk(m: FileMeta, levels: nat) {
    && m.level < levels
    && (m.smallest <= m.largest || m.largest == EMPTY_KEY)
    && (m.size == 0 || m.size > FIXED_OVERHEAD)
  }

  function DiscardableRatio(m: FileMeta): real
    requires m.size == 0 || m.size > FIXED_OVERHEAD
  {
    if m.size == 0 then 0.0 else 1.0 - (m.live as real) / ((m.size - FIXED_OVERHEAD) as real)
  }

  /** The full scan that the ordered range query has to agree with. */
  predicate InRange(m: FileMeta, r: Range, includeEnd: bool) {
    && !m.IsObsolete()
    && (r.begin.Some? ==> r.begin.value <= m.smallest)
    && (r.end.Some? ==> m.largest != EMPTY_KEY
                        && (m.largest < r.end.value || (includeEnd && m.largest == r.end.value)))
  }

  /** Of two files of one size the one with less live data has more to discard, from nothing to all of it. */
  lemma RatioOrders(a: FileMeta, b: FileMeta)
    requires a.size == b.size > FIXED_OVERHEAD
    ensures DiscardableRatio(a) > DiscardableRatio(b) <==> a.live < b.live
    ensures a.live == 0 ==> DiscardableRatio(a) == 1.0
    ensures a.live == a.size - FIXED_OVERHEAD ==> DiscardableRatio(a) == 0.0
  {
    QuotientsOrder(a.live as real, b.live as real, (a.size - FIXED_OVERHEAD) as real);
  }

  lemma QuotientsOrder(x: real, y: real, d: real)
    requires d > 0.0
    ensures x / d < y / d <==> x < y
    ensures d / d == 1.0 && 0.0 / d == 0.0
  {
    var (p, q) := (x / d, y / d);
    assert p * d == x && q * d == y;
    assert (q - p) * d == y - x;
  }

  /** Whether a key is in a range. */
  predicate Covers(r: Range, k: Key, includeEnd: bool) {
    && (r.begin.Some? ==> r.begin.value <= k)
    && (r.end.Some? ==> k < r.end.value || (includeEnd && k == r.end.value))
  }

  /** A live file with keys is in a range exactly if all the keys it may hold are. */
  lemma InRangeIff(m: FileMeta, r: Range, includeEnd: bool)
    requires m.smallest <= m.largest && m.largest != EMPTY_KEY && !m.IsObsolete()
    ensures InRange(m, r, includeEnd) <==> forall k: Key | m.smallest <= k <= m.largest :: Covers(r, k, includeEnd)
  {
    assert Covers(r, m.smallest, includeEnd) && Covers(r, m.largest, includeEnd) ==> InRange(m, r, includeEnd);
  }

  function AtLevel(files: Store, l: nat): set<FileNumber> {
    set n | n in files && files[n].level == l && !files[n].IsObsolete()
  }

  ghost predicate NoDup<T>(s: seq<T>) {
    forall i, j | 0 <= i < j < |s| :: s[i] != s[j]
  }

  ghost predicate FilesOk(files: Store, levels: nat) {
    forall n | n in files :: files[n].number == n && MetaOk(files[n], levels)
  }

  /** The multimap from smallest key to file: a sorted listing of all the files. */
  ghost predicate RangesOk(files: Store, ranges: seq<FileNumber>) {
    && NoDup(ranges)
    && (forall n :: n in ranges <==> n in files)
    && (forall i, j | 0 <= i < j < |ranges| :: files[ranges[i]].smallest <= files[ranges[j]].smallest)
  }

  ghost predicate ObsoleteOk(files: Store, obsolete: seq<(FileNumber, SeqNo)>) {
    && (forall i, j | 0 <= i < j < |obsolete| :: obsolete[i].0 != obsolete[j].0)
    && (forall i | 0 <= i < |obsolete| :: obsolete[i].0 in files && files[obsolete[i].0].IsObsolete())
    && (forall n | n in files && files[n].IsObsolete() :: exists i :: 0 <= i < |obsolete| && obsolete[i].0 == n)
  }

  ghost predicate CountsOk(files: Store, counts: seq<int>) {
    forall l | 0 <= l < |counts| :: counts[l] == |AtLevel(files, l)|
  }

  // ---------------------------------------------------------------- single views

  lemma LevelAfterAdd(files: Store, m: FileMeta, l: nat)
    requires m.number !in files && !m.IsObsolete()
    ensures |AtLevel(files[m.number := m], l)| == |AtLevel(files, l)| + (if m.level == l then 1 else 0)
  {
    var files' := files[m.number := m];
    if l == m.level {
      assert AtLevel(files', l) == AtLevel(files, l) + {m.number};
    } else {
      assert AtLevel(files', l) == AtLevel(files, l);
    }
  }

  lemma CountsAfterAdd(files: Store, counts: seq<int>, m: FileMeta)
    requires CountsOk(files, counts) && m.number !in files && !m.IsObsolete() && m.level < |counts|
    ensures CountsOk(files[m.number := m], counts[m.level := counts[m.level] + 1])
  {
    var files' := files[m.number := m];
    var counts' := counts[m.level := counts[m.level] + 1];
    forall l | 0 <= l < |counts'| ensures counts'[l] == |AtLevel(files', l)| {
      LevelAfterAdd(files, m, l);
    }
  }

  lemma CountsAfterObsolete(files: Store, counts: seq<int>, n: FileNumber)
    requires CountsOk(files, counts) && n in files && !files[n].IsObsolete() && files[n].level < |counts|
    ensures var m := files[n];
            CountsOk(files[n := m.(state := Obsolete)], counts[m.level := counts[m.level] - 1])
  {
    var m := files[n];
    var files' := files[n := m.(state := Obsolete)];
    forall l | 0 <= l < |counts|
      ensures counts[m.level := counts[m.level] - 1][l] == |AtLevel(files', l)|
    {
      if l == m.level {
        assert AtLevel(files', l) == AtLevel(files, l) - {n};
      } else {
        assert AtLevel(files', l) == AtLevel(files, l);
      }
    }
  }

  lemma CountsAfterRemove(files: Store, counts: seq<int>, n: FileNumber)
    requires CountsOk(files, counts) && n in files && files[n].IsObsolete()
    ensures CountsOk(files - {n}, counts)
  {
    forall l | 0 <= l < |counts| ensures AtLevel(files - {n}, l) == AtLevel(files, l) {}
  }

  function InsertAt<T>(list: seq<T>, at: nat, x: T): (r: seq<T>)
    requires at <= |list|
    ensures |r| == |list| + 1 && r[at] == x
    ensures forall i | 0 <= i < at :: r[i] == list[i]
    ensures forall i {:trigger r[i]} | at < i < |r| :: r[i] == list[i - 1]
  {
    list[..at] + [x] + list[at..]
  }

  lemma InsertMember<T>(list: seq<T>, at: nat, x: T, y: T)
    requires at <= |list|
    ensures y in InsertAt(list, at, x) <==> y in list || y == x
  {
    assert list == list[..at] + list[at..];
  }

  lemma InsertNoDup<T>(list: seq<T>, at: nat, x: T)
    requires at <= |list| && NoDup(list) && x !in list
    ensures NoDup(InsertAt(list, at, x))
  {}

  lemma RangesAfterInsert(files: Store, ranges: seq<FileNumber>, m: FileMeta, at: nat)
    requires RangesOk(files, ranges) && m.number !in files && at <= |ranges|
    requires forall i | 0 <= i < at :: files[ranges[i]].smallest <= m.smallest
    requires forall i | at <= i < |ranges| :: m.smallest < files[ranges[i]].smallest
    ensures RangesOk(files[m.number := m], InsertAt(ranges, at, m.number))
  {
    var ranges' := InsertAt(ranges, at, m.number);
    forall n ensures n in ranges' <==> n in files[m.number := m] {
      InsertMember(ranges, at, m.number, n);
    }
    assert m.number !in ranges;
    InsertNoDup(ranges, at, m.number);
  }

  lemma RangesAfterErase(files: Store, ranges: seq<FileNumber>, at: nat)
    requires RangesOk(files, ranges) && at < |ranges|
    ensures RangesOk(files - {ranges[at]}, ranges[..at] + ranges[at + 1..])
  {
    var ranges' := ranges[..at] + ranges[at + 1..];
    assert forall i | 0 <= i < |ranges'| :: ranges'[i] == ranges[if i < at then i else i + 1];
    forall n ensures n in ranges' <==> n in files - {ranges[at]} {
      if n in files - {ranges[at]} {
        assert n in ranges;
        var i :| 0 <= i < |ranges| && ranges[i] == n;
        assert ranges'[if i < at then i else i - 1] == n;
      }
    }
  }

  /** The obsolete entries older than `oldest`, which a purge takes, and those it leaves. */
  function Expired(list: seq<(FileNumber, SeqNo)>, oldest: SeqNo): seq<FileNumber> {
    if list == [] then []
    else (if oldest > list[0].1 then [list[0].0] else []) + Expired(list[1..], oldest)
  }

  function Kept(list: seq<(FileNumber, SeqNo)>, oldest: SeqNo): seq<(FileNumber, SeqNo)> {
    if list == [] then []
    else (if oldest > list[0].1 then [] else [list[0]]) + Kept(list[1..], oldest)
  }

  lemma {:induction false} ExpiredMembers(list: seq<(FileNumber, SeqNo)>, oldest: SeqNo, n: FileNumber)
    ensures n in Expired(list, oldest) <==> exists i :: 0 <= i < |list| && list[i].0 == n && list[i].1 < oldest
  {
    if list != [] {
      var rest := list[1..];
      ExpiredMembers(rest, oldest, n);
      assert forall i | 0 <= i < |rest| :: rest[i] == list[i + 1];
      if i :| 0 <= i < |list| && list[i].0 == n && list[i].1 < oldest {
        assert i > 0 ==> rest[i - 1] == list[i];
      }
    }
  }

  /** A file of the list is taken exactly if it became obsolete before `oldest`. */
  lemma ExpiredIff(files: Store, list: seq<(FileNumber, SeqNo)>, oldest: SeqNo)
    requires ObsoleteOk(files, list)
    ensures forall i | 0 <= i < |list| :: list[i].0 in Expired(list, oldest) <==> list[i].1 < oldest
  {
    forall i | 0 <= i < |list| ensures list[i].0 in Expired(list, oldest) <==> list[i].1 < oldest {
      ExpiredMembers(list, oldest, list[i].0);
    }
  }

  lemma ObsoleteAfterErase(files: Store, list: seq<(FileNumber, SeqNo)>, at: nat)
    requires ObsoleteOk(files, list) && at < |list|
    ensures ObsoleteOk(files - {list[at].0}, list[..at] + list[at + 1..])
  {
    var list' := list[..at] + list[at + 1..];
    var files' := files - {list[at].0};
    assert forall i | 0 <= i < |list'| :: list'[i] == list[if i < at then i else i + 1];
    forall n | n in files' && files'[n].IsObsolete() ensures exists i :: 0 <= i < |list'| && list'[i].0 == n {
      var i :| 0 <= i < |list| && list[i].0 == n;
      assert list'[if i < at then i else i - 1].0 == n;
    }
  }

  lemma ObsoleteAfterMark(files: Store, list: seq<(FileNumber, SeqNo)>, n: FileNumber, s: SeqNo)
    requires ObsoleteOk(files, list) && n in files && !files[n].IsObsolete()
    ensures ObsoleteOk(files[n := files[n].(state := Obsolete)], list + [(n, s)])
  {
    var files' := files[n := files[n].(state := Obsolete)];
    var list' := list + [(n, s)];
    forall x | x in files' && files'[x].IsObsolete() ensures exists i :: 0 <= i < |list'| && list'[i].0 == x {
      if x == n {
        assert list'[|list|].0 == n;
      } else {
        var i :| 0 <= i < |list| && list[i].0 == x;
        assert list'[i].0 == x;
      }
    }
  }

  /** The files of `listing` that a full scan puts in the range, in listing order. */
  function Hits(files: Store, listing: seq<FileNumber>, r: Range, includeEnd: bool): seq<FileNumber>
    requires forall n | n in listing :: n in files
  {
    if listing == [] then []
    else
      var n := |listing| - 1;
      Hits(files, listing[..n], r, includeEnd) +
      (if InRange(files[listing[n]], r, includeEnd) then [listing[n]] else [])
  }

  lemma {:induction false} NoHits(files: Store, listing: seq<FileNumber>, r: Range, includeEnd: bool)
    requires forall n | n in listing :: n in files && !InRange(files[n], r, includeEnd)
    ensures Hits(files, listing, r, includeEnd) == []
  {
    if listing != [] { NoHits(files, listing[..|listing| - 1], r, includeEnd); }
  }

  lemma {:induction false} HitsConcat(files: Store, a: seq<FileNumber>, b: seq<FileNumber>, r: Range, includeEnd: bool)
    requires forall n | n in a :: n in files
    requires forall n | n in b :: n in files
    ensures Hits(files, a + b, r, includeEnd) == Hits(files, a, r, includeEnd) + Hits(files, b, r, includeEnd)
  {
    if b == [] {
      assert a + b == a;
    } else {
      var n := |b| - 1;
      HitsConcat(files, a, b[..n], r, includeEnd);
      assert (a + b)[..|a + b| - 1] == a + b[..n];
    }
  }

  lemma {:induction false} HitsMembers(
    files: Store, listing: seq<FileNumber>, r: Range, includeEnd: bool, n: FileNumber)
    requires forall n | n in listing :: n in files
    ensures n in Hits(files, listing, r, includeEnd) <==>
              n in listing && InRange(files[n], r, includeEnd)
  {
    if listing != [] {
      var k := |listing| - 1;
      HitsMembers(files, listing[..k], r, includeEnd, n);
      assert n in listing <==> n in listing[..k] || n == listing[k];
    }
  }

  function AllHits(files: Store, listing: seq<FileNumber>, rs: seq<Range>, includeEnd: bool): seq<FileNumber>
    requires forall n | n in listing :: n in files
  {
    if rs == [] then []
    else AllHits(files, listing, rs[..|rs| - 1], includeEnd) + Hits(files, listing, rs[|rs| - 1], includeEnd)
  }

  lemma {:induction false} HitsOnce(files: Store, listing: seq<FileNumber>, r: Range, includeEnd: bool)
    requires (forall n | n in listing :: n in files) && NoDup(listing)
    ensures NoDup(Hits(files, listing, r, includeEnd))
  {
    if listing != [] {
      var k := |listing| - 1;
      HitsOnce(files, listing[..k], r, includeEnd);
      HitsMembers(files, listing[..k], r, includeEnd, listing[k]);
    }
  }

  lemma {:induction false} AllHitsMembers(
    files: Store, listing: seq<FileNumber>, rs: seq<Range>, includeEnd: bool, n: FileNumber)
    requires forall n | n in listing :: n in files
    ensures n in AllHits(files, listing, rs, includeEnd) <==>
              n in listing && exists i | 0 <= i < |rs| :: InRange(files[n], rs[i], includeEnd)
  {
    if rs != [] {
      var k := |rs| - 1;
      AllHitsMembers(files, listing, rs[..k], includeEnd, n);
      HitsMembers(files, listing, rs[k], includeEnd, n);
      if n in listing { InSomeRange(files[n], rs, includeEnd); }
    }
  }

  lemma InSomeRange(m: FileMeta, rs: seq<Range>, includeEnd: bool)
    requires rs != []
    ensures var front := rs[..|rs| - 1];
            (exists i | 0 <= i < |rs| :: InRange(m, rs[i], includeEnd)) <==>
              (exists i | 0 <= i < |front| :: InRange(m, front[i], includeEnd)) || InRange(m, rs[|rs| - 1], includeEnd)
  {
    var front := rs[..|rs| - 1];
    assert forall i | 0 <= i < |front| :: front[i] == rs[i];
    if i :| 0 <= i < |front| && InRange(m, front[i], includeEnd) {
      assert InRange(m, rs[i], includeEnd);
    }
    if i :| 0 <= i < |rs| && InRange(m, rs[i], includeEnd) {
      assert i < |front| ==> InRange(m, front[i], includeEnd);
    }
  }

  lemma NoDupConcat<T>(a: seq<T>, b: seq<T>)
    ensures NoDup(a + b) <==> NoDup(a) && NoDup(b) && forall x | x in a :: x !in b
  {
    var ab := a + b;
    if NoDup(ab) {
      forall i, j | 0 <= i < j < |a| ensures a[i] != a[j] { assert ab[i] != ab[j]; }
      forall i, j | 0 <= i < j < |b| ensures b[i] != b[j] { assert ab[|a| + i] != ab[|a| + j]; }
      forall i, j | 0 <= i < |a| && 0 <= j < |b| ensures a[i] != b[j] { assert ab[i] != ab[|a| + j]; }
    }
    if NoDup(a) && NoDup(b) && forall x | x in a :: x !in b {
      forall i, j | 0 <= i < j < |ab| ensures ab[i] != ab[j] {
        if i < |a| <= j { assert a[i] in a && b[j - |a|] in b; }
      }
    }
  }

  /** No live file lies in two of the ranges. */
  ghost predicate RangesApart(files: Store, listing: seq<FileNumber>, rs: seq<Range>, includeEnd: bool)
    requires forall n | n in listing :: n in files
  {
    forall n, i, j | n in listing && 0 <= i < j < |rs| ::
      !(InRange(files[n], rs[i], includeEnd) && InRange(files[n], rs[j], includeEnd))
  }

  /**
   The query over several ranges lists a file once for every range it lies in, so the edit that
   deletes what it lists is accepted only if no file lies in two of them.
   */
  lemma {:induction false} ListedOnceIff(files: Store, listing: seq<FileNumber>, rs: seq<Range>, includeEnd: bool)
    requires (forall n | n in listing :: n in files) && NoDup(listing)
    ensures NoDup(AllHits(files, listing, rs, includeEnd)) <==> RangesApart(files, listing, rs, includeEnd)
  {
    if rs != [] {
      var k := |rs| - 1;
      var front := rs[..k];
      ListedOnceIff(files, listing, front, includeEnd);
      HitsOnce(files, listing, rs[k], includeEnd);
      NoDupConcat(AllHits(files, listing, front, includeEnd), Hits(files, listing, rs[k], includeEnd));
      forall n
        ensures n in AllHits(files, listing, front, includeEnd) <==>
                n in listing && exists i | 0 <= i < k :: InRange(files[n], front[i], includeEnd)
        ensures n in Hits(files, listing, rs[k], includeEnd) <==> n in listing && InRange(files[n], rs[k], includeEnd)
      {
        AllHitsMembers(files, listing, front, includeEnd, n);
        HitsMembers(files, listing, rs[k], includeEnd, n);
      }
      ApartSplit(files, listing, rs, includeEnd);
    }
  }

  lemma ApartSplit(files: Store, listing: seq<FileNumber>, rs: seq<Range>, includeEnd: bool)
    requires (forall n | n in listing :: n in files) && rs != []
    ensures var k := |rs| - 1;
            RangesApart(files, listing, rs, includeEnd) <==>
              && RangesApart(files, listing, rs[..k], includeEnd)
              && forall n, i | n in listing && 0 <= i < k ::
                   !(InRange(files[n], rs[..k][i], includeEnd) && InRange(files[n], rs[k], includeEnd))
  {
    var front := rs[..|rs| - 1];
    assert forall i | 0 <= i < |front| :: front[i] == rs[i];
    if RangesApart(files, listing, rs, includeEnd) {
      forall n, i, j | n in listing && 0 <= i < j < |front|
        ensures !(InRange(files[n], front[i], includeEnd) && InRange(files[n], front[j], includeEnd))
      {
        assert rs[i] == front[i] && rs[j] == front[j];
      }
    }
  }

  /** Only the middle part of a listing has files in the range. */
  lemma OutsideMisses(files: Store, a: seq<FileNumber>, b: seq<FileNumber>, c: seq<FileNumber>, r: Range,
                      includeEnd: bool)
    requires forall n | n in a :: n in files && !InRange(files[n], r, includeEnd)
    requires forall n | n in b :: n in files
    requires forall n | n in c :: n in files && !InRange(files[n], r, includeEnd)
    ensures Hits(files, a + b + c, r, includeEnd) == Hits(files, b, r, includeEnd)
  {
    NoHits(files, a, r, includeEnd);
    NoHits(files, c, r, includeEnd);
    HitsConcat(files, a, b, r, includeEnd);
    HitsConcat(files, a + b, c, r, includeEnd);
  }

  /** No file starts strictly between the end of the range and a begin above it. */
  predicate Walkable(files: Store, r: Range) {
    r.begin.Some? && r.end.Some? ==>
      r.begin.value <= r.end.value || forall n | n in files :: !(r.end.value < files[n].smallest < r.begin.value)
  }

  /** The walk from the lower to the upper bound reaches its end exactly under that condition. */
  lemma WalkableIff(files: Store, ranges: seq<FileNumber>, r: Range, lo: nat, hi: nat)
    requires RangesOk(files, ranges) && lo <= |ranges| && hi <= |ranges| && r.begin.Some? && r.end.Some?
    requires forall j | 0 <= j < lo :: files[ranges[j]].smallest < r.begin.value
    requires forall j | lo <= j < |ranges| :: r.begin.value <= files[ranges[j]].smallest
    requires forall j | 0 <= j < hi :: files[ranges[j]].smallest <= r.end.value
    requires forall j | hi <= j < |ranges| :: r.end.value < files[ranges[j]].smallest
    ensures lo <= hi <==> Walkable(files, r)
  {
    if lo <= hi && r.begin.value > r.end.value {
      forall n | n in files ensures !(r.end.value < files[n].smallest < r.begin.value) {
        assert n in ranges;
        var j :| 0 <= j < |ranges| && ranges[j] == n;
        assert j < lo || lo <= j;
        assert j < hi || hi <= j;
      }
    }
    if hi < lo {
      var n := ranges[hi];
      assert n in ranges && r.end.value < files[n].smallest < r.begin.value;
    }
  }

  /** Lower and upper bound of the smallest key cut off only files that are not in the range. */
  lemma BoundsSuffice(files: Store, ranges: seq<FileNumber>, levels: nat, lo: nat, hi: nat, r: Range, includeEnd: bool)
    requires FilesOk(files, levels) && (forall n | n in ranges :: n in files) && lo <= hi <= |ranges|
    requires forall i | 0 <= i < lo :: r.begin.Some? && files[ranges[i]].smallest < r.begin.value
    requires forall i | hi <= i < |ranges| :: r.end.Some? && r.end.value < files[ranges[i]].smallest
    ensures Hits(files, ranges[lo..hi], r, includeEnd) == Hits(files, ranges, r, includeEnd)
  {
    var a, b, c := ranges[..lo], ranges[lo..hi], ranges[hi..];
    assert forall n | n in a :: !InRange(files[n], r, includeEnd);
    assert forall n | n in c :: MetaOk(files[n], levels) && !InRange(files[n], r, includeEnd);
    assert ranges == a + b + c;
    OutsideMisses(files, a, b, c, r, includeEnd);
  }

  lemma RemoveOneMore(m: Store, removed: seq<FileNumber>, n: FileNumber)
    ensures m - (set x | x in removed) - {n} == m - (set x | x in removed + [n])
  {}

  ghost predicate FallingScores(list: seq<GcScore>) {
    forall i, j | 0 <= i < j < |list| :: list[i].score >= list[j].score
  }

  function Numbers(list: seq<GcScore>): seq<FileNumber> {
    seq(|list|, i requires 0 <= i < |list| => list[i].number)
  }

  /** A listing of exactly the files of `of`, each once, by falling score. */
  ghost predicate ListsOnce(list: seq<GcScore>, of: set<FileNumber>) {
    && NoDup(Numbers(list)) && (forall n :: n in Numbers(list) <==> n in of)
    && FallingScores(list)
  }

  /** The files that are not obsolete and not in `todo`. */
  function LiveOutside(files: Store, todo: set<FileNumber>): set<FileNumber> {
    set n | n in files && n !in todo && !files[n].IsObsolete()
  }

  /** Where an entry goes in a list by falling score: before the first lower one. */
  function InsertPos(list: seq<GcScore>, g: GcScore): (at: nat)
    ensures at <= |list|
    ensures forall i | 0 <= i < at :: list[i].score >= g.score
    ensures at < |list| ==> list[at].score < g.score
  {
    if list == [] || list[0].score < g.score then 0 else 1 + InsertPos(list[1..], g)
  }

  lemma InsertKeepsFalling(list: seq<GcScore>, g: GcScore)
    requires FallingScores(list)
    ensures FallingScores(InsertAt(list, InsertPos(list, g), g))
  {
    var at := InsertPos(list, g);
    var r := InsertAt(list, at, g);
    forall i, j | 0 <= i < j < |r| ensures r[i].score >= r[j].score {
      if i == at {
        assert r[j] == list[j - 1];
        assert at < j - 1 ==> list[at].score >= list[j - 1].score;
      } else {
        var x := if i < at then i else i - 1;
        assert r[i] == list[x];
        assert j > at ==> r[j] == list[j - 1];
      }
    }
  }

  lemma ListedIn(list: seq<GcScore>, of: set<FileNumber>)
    requires ListsOnce(list, of)
    ensures forall i | 0 <= i < |list| :: list[i].number in of
  {
    forall i | 0 <= i < |list| ensures list[i].number in of {
      assert Numbers(list)[i] in Numbers(list);
    }
  }

  lemma InsertNumbers(list: seq<GcScore>, at: nat, g: GcScore)
    requires at <= |list|
    ensures Numbers(InsertAt(list, at, g)) == InsertAt(Numbers(list), at, g.number)
  {}

  lemma InsertListsOnce(list: seq<GcScore>, of: set<FileNumber>, g: GcScore)
    requires ListsOnce(list, of) && g.number !in of
    ensures ListsOnce(InsertAt(list, InsertPos(list, g), g), of + {g.number})
  {
    var at := InsertPos(list, g);
    InsertKeepsFalling(list, g);
    InsertNumbers(list, at, g);
    var numbers := Numbers(list);
    assert g.number !in numbers;
    InsertNoDup(numbers, at, g.number);
    forall n ensures n in InsertAt(numbers, at, g.number) <==> n in of + {g.number} {
      InsertMember(numbers, at, g.number, n);
    }
  }

  function Without<T>(list: seq<T>, at: nat): seq<T>
    requires at < |list|
  {
    list[..at] + list[at + 1..]
  }

  /** The purge loop has dealt with everything before position `it` of the current list. */
  ghost predicate PurgedUpTo(first: seq<(FileNumber, SeqNo)>, oldest: SeqNo, list: seq<(FileNumber, SeqNo)>,
                             it: nat, removed: seq<FileNumber>) {
    && it <= |list|
    && Kept(first, oldest) == list[..it] + Kept(list[it..], oldest)
    && Expired(first, oldest) == removed + Expired(list[it..], oldest)
  }

  lemma PurgeTurn(first: seq<(FileNumber, SeqNo)>, oldest: SeqNo, list: seq<(FileNumber, SeqNo)>,
                  it: nat, removed: seq<FileNumber>)
    requires PurgedUpTo(first, oldest, list, it, removed) && it < |list|
    ensures if oldest > list[it].1 then PurgedUpTo(first, oldest, Without(list, it), it, removed + [list[it].0])
            else PurgedUpTo(first, oldest, list, it + 1, removed)
  {
    assert list[it..][1..] == list[it + 1..];
    assert Without(list, it)[..it] == list[..it] && Without(list, it)[it..] == list[it + 1..];
    assert list[..it + 1] == list[..it] + [list[it]];
  }

  class BlobStorage {
    var files: Store
    var ranges: seq<FileNumber>
    var obsolete: seq<(FileNumber, SeqNo)>
    var levelCounts: seq<int>
    var scores: seq<GcScore>
    const smallFileThreshold: nat
    const discardableRatio: real

    /** The first four views agree, and every score entry resolves. */
    ghost predicate Core()
      reads this
    {
      && FilesOk(files, |levelCounts|)
      && RangesOk(files, ranges)
      && ObsoleteOk(files, obsolete)
      && CountsOk(files, levelCounts)
      && (forall i | 0 <= i < |scores| :: scores[i].number in files)
    }

    /** Between operations no score entry is an obsolete file either. */
    ghost predicate Valid()
      reads this
    {
      Core() && forall i | 0 <= i < |scores| :: !files[scores[i].number].IsObsolete()
    }

    constructor (numLevels: nat, threshold: nat, ratio: real)
      ensures Valid() && files == map[] && |levelCounts| == numLevels
    {
      files, ranges, obsolete, scores := map[], [], [], [];
      levelCounts := seq(numLevels, _ => 0);
      smallFileThreshold, discardableRatio := threshold, ratio;
    }

    /** `multimap::lower_bound`: the first position whose smallest key is not below `k`. */
    method LowerBound(k: Key) returns (i: nat)
      requires Core()
      ensures i <= |ranges|
      ensures forall j | 0 <= j < i :: files[ranges[j]].smallest < k
      ensures forall j | i <= j < |ranges| :: k <= files[ranges[j]].smallest
    {
      var lo, hi := 0, |ranges|;
      while lo < hi
        invariant 0 <= lo <= hi <= |ranges|
        invariant forall j | 0 <= j < lo :: files[ranges[j]].smallest < k
        invariant forall j | hi <= j < |ranges| :: k <= files[ranges[j]].smallest
      {
        var mid := (lo + hi) / 2;
        if files[ranges[mid]].smallest < k { lo := mid + 1; } else { hi := mid; }
      }
      i := lo;
    }

    /** `multimap::upper_bound`: the first position whose smallest key is above `k`. */
    method UpperBound(k: Key) returns (i: nat)
      requires Core()
      ensures i <= |ranges|
      ensures forall j | 0 <= j < i :: files[ranges[j]].smallest <= k
      ensures forall j | i <= j < |ranges| :: k < files[ranges[j]].smallest
    {
      i := LowerBound(k + 1);
    }

    method AddBlobFile(m: FileMeta)
      requires Core()
      requires m.number !in files && MetaOk(m, |levelCounts|) && !m.IsObsolete()
      modifies this
      ensures Core() && |levelCounts| == old(|levelCounts|)
      ensures files == old(files)[m.number := m]
      ensures obsolete == old(obsolete) && scores == old(scores)
    {
      var at := UpperBound(m.smallest);
      RangesAfterInsert(files, ranges, m, at);
      CountsAfterAdd(files, levelCounts, m);
      files := files[m.number := m];
      ranges := InsertAt(ranges, at, m.number);
      levelCounts := levelCounts[m.level := levelCounts[m.level] + 1];
    }

    /** REQUIRES of `FileStateTransit(kDelete)`: the file is not obsolete already. */
    method MarkFileObsolete(n: FileNumber, s: SeqNo) returns (found: bool)
      requires Core()
      requires n in files ==> !files[n].IsObsolete()
      modifies this
      ensures Core() && |levelCounts| == old(|levelCounts|) && scores == old(scores)
      ensures found == (n in old(files))
      ensures found ==>
                && files == old(files)[n := old(files)[n].(state := Obsolete)]
                && obsolete == old(obsolete) + [(n, s)]
      ensures !found ==> files == old(files) && obsolete == old(obsolete)
    {
      if n !in files { return false; }
      var m := files[n];
      CountsAfterObsolete(files, levelCounts, n);
      ObsoleteAfterMark(files, obsolete, n, s);
      obsolete := obsolete + [(n, s)];
      files := files[n := m.(state := Obsolete)];
      levelCounts := levelCounts[m.level := levelCounts[m.level] - 1];
      return true;
    }

    /** The part of a purge that takes one file out of the map and out of the ordered index. */
    method RemoveFile(n: FileNumber)
      requires Core() && n in files && files[n].IsObsolete()
      modifies this
      ensures files == old(files) - {n} && levelCounts == old(levelCounts)
      ensures obsolete == old(obsolete) && scores == old(scores)
      ensures FilesOk(files, |levelCounts|) && RangesOk(files, ranges) && CountsOk(files, levelCounts)
    {
      var it := LowerBound(files[n].smallest);
      while ranges[it] != n
        invariant it < |ranges| && n in ranges[it..]
        invariant ranges == old(ranges) && files == old(files)
        decreases |ranges| - it
      {
        it := it + 1;
      }
      RangesAfterErase(files, ranges, it);
      CountsAfterRemove(files, levelCounts, n);
      ranges := ranges[..it] + ranges[it + 1..];
      files := files - {n};
    }

    /** Takes the file at position `it` of the obsolete list out of all the views. */
    method PurgeAt(it: nat)
      requires Valid() && it < |obsolete|
      modifies this
      ensures Valid() && levelCounts == old(levelCounts) && scores == old(scores)
      ensures files == old(files) - {old(obsolete)[it].0}
      ensures obsolete == Without(old(obsolete), it)
    {
      ObsoleteAfterErase(files, obsolete, it);
      RemoveFile(obsolete[it].0);
      obsolete := obsolete[..it] + obsolete[it + 1..];
    }

    /** The loop over the obsolete list. */
    method TakeObsolete(oldest: SeqNo) returns (removed: seq<FileNumber>)
      requires Valid()
      modifies this
      ensures Valid() && levelCounts == old(levelCounts) && scores == old(scores)
      ensures removed == Expired(old(obsolete), oldest)
      ensures obsolete == Kept(old(obsolete), oldest)
      ensures files == old(files) - (set n | n in removed)
    {
      removed := [];
      var it := 0;
      while it < |obsolete|
        invariant Valid() && levelCounts == old(levelCounts) && scores == old(scores)
        invariant PurgedUpTo(old(obsolete), oldest, obsolete, it, removed)
        invariant files == old(files) - (set n | n in removed)
        decreases |obsolete| - it
      {
        var entry := obsolete[it];
        PurgeTurn(old(obsolete), oldest, obsolete, it, removed);
        if oldest > entry.1 {
          RemoveOneMore(old(files), removed, entry.0);
          PurgeAt(it);
          removed := removed + [entry.0];
        } else {
          it := it + 1;
        }
      }
    }

    /** `GetObsoleteFiles`: what becomes invisible to every snapshot leaves all the views at once. */
    method GetObsoleteFiles(oldest: SeqNo) returns (removed: seq<FileNumber>)
      requires Valid()
      modifies this
      ensures Valid() && levelCounts == old(levelCounts) && scores == old(scores)
      ensures removed == Expired(old(obsolete), oldest)
      ensures obsolete == Kept(old(obsolete), oldest)
      ensures files == old(files) - (set n | n in removed)
      ensures forall i | 0 <= i < |old(obsolete)| :: old(obsolete)[i].0 in files <==> oldest <= old(obsolete)[i].1
    {
      ExpiredIff(files, obsolete, oldest);
      removed := TakeObsolete(oldest);
    }

    /** `GetBlobFilesInRanges`: the ordered walk finds exactly what a scan of all files would. */
    method GetBlobFilesInRanges(rs: seq<Range>, includeEnd: bool) returns (out: seq<FileNumber>)
      requires Valid()
      requires forall r | r in rs :: Walkable(files, r)
      ensures out == AllHits(files, ranges, rs, includeEnd)
    {
      out := [];
      for i := 0 to |rs|
        invariant out == AllHits(files, ranges, rs[..i], includeEnd)
      {
        assert rs[i] in rs && rs[..i + 1][..i] == rs[..i];
        var hits := FilesInRange(rs[i], includeEnd);
        out := out + hits;
      }
      assert rs[..|rs|] == rs;
    }

    method FilesInRange(r: Range, includeEnd: bool) returns (out: seq<FileNumber>)
      requires Valid()
      requires Walkable(files, r)
      ensures out == Hits(files, ranges, r, includeEnd)
    {
      var lo, hi := 0, |ranges|;
      if r.begin.Some? { lo := LowerBound(r.begin.value); }
      if r.end.Some? { hi := UpperBound(r.end.value); }
      if r.begin.Some? && r.end.Some? { WalkableIff(files, ranges, r, lo, hi); }
      out := Walk(lo, hi, r, includeEnd);
      BoundsSuffice(files, ranges, |levelCounts|, lo, hi, r, includeEnd);
    }

    /** The loop between the two bounds. */
    method Walk(lo: nat, hi: nat, r: Range, includeEnd: bool) returns (out: seq<FileNumber>)
      requires lo <= hi <= |ranges|
      requires forall n | n in ranges :: n in files && files[n].number == n
      requires forall i | lo <= i < hi :: r.begin.Some? ==> r.begin.value <= files[ranges[i]].smallest
      ensures out == Hits(files, ranges[lo..hi], r, includeEnd)
    {
      out := [];
      for it := lo to hi
        invariant out == Hits(files, ranges[lo..it], r, includeEnd)
      {
        assert ranges[lo..it + 1][..it - lo] == ranges[lo..it];
        var m := files[ranges[it]];
        if m.IsObsolete() || (m.largest == EMPTY_KEY && r.end.Some?) {
        } else if r.end.None? || (includeEnd && m.largest <= r.end.value) || (!includeEnd && m.largest < r.end.value) {
          out := out + [m.number];
        }
      }
    }

    function ScoreOf(m: FileMeta): real
      requires m.size == 0 || m.size > FIXED_OVERHEAD
    {
      if m.size < smallFileThreshold then discardableRatio else DiscardableRatio(m)
    }

    /** `ComputeGCScore`: one entry for each live file, best candidate first. */
    method ComputeGCScore()
      requires Core()
      modifies this`scores
      ensures Valid()
      ensures forall i | 0 <= i < |scores| ::
                var m := files[scores[i].number];
                scores[i].score == if m.size < smallFileThreshold then discardableRatio else DiscardableRatio(m)
      ensures ListsOnce(scores, LiveOutside(files, {}))
    {
      var list: seq<GcScore> := [];
      var todo := files.Keys;
      while todo != {}
        invariant todo <= files.Keys
        invariant ListsOnce(list, LiveOutside(files, todo))
        invariant forall i | 0 <= i < |list| ::
                    list[i].number in files && list[i].score == ScoreOf(files[list[i].number])
      {
        var n :| n in todo;
        if !files[n].IsObsolete() {
          var g := GcScore(n, ScoreOf(files[n]));
          InsertListsOnce(list, LiveOutside(files, todo), g);
          list := InsertAt(list, InsertPos(list, g), g);
          assert LiveOutside(files, todo - {n}) == LiveOutside(files, todo) + {n};
        } else {
          assert LiveOutside(files, todo - {n}) == LiveOutside(files, todo);
        }
        todo := todo - {n};
      }
      scores := list;
      ListedIn(list, LiveOutside(files, {}));
    }
  }
}
