/** Reading a blob file from front to back. */
module BlobIteration {
  import opened Wrappers
  import opened Coding
  import opened BlobFormat
  import opened BlobFile

  /** The record size in the header at an offset; the seek loop reads nothing else. */
  function SizeAt(file: Bytes, offset: nat): Option<nat> {
    if offset + RECORD_HEADER_SIZE > |file| then None
    else Some(DecodeRecordHeader(file[offset..offset + RECORD_HEADER_SIZE]).value.size)
  }

  /**
   * An open file, by what reading it gives: its layout, the record at an offset, the size in the
   * header at an offset.
   */
  datatype Source = Source(
    layout: Option<Layout>,
    read: (Bytes, nat) -> Option<(BlobRecord, nat)>,
    size: nat -> Option<nat>)

  function SourceOf(t: Tools, file: Bytes): Source {
    Source(InitLayout(t, file), (dict, offset) => ReadRecord(t, dict, file, offset), offset => SizeAt(file, offset))
  }

  /** The file holds exactly the records `rs`, record `i` from `starts[i]` up to `starts[i + 1]`. */
  ghost predicate Holds(f: Source, dict: Bytes, rs: seq<BlobRecord>, starts: seq<nat>) {
    && |starts| == |rs| + 1
    && f.layout == Some(Layout(starts[0], starts[|rs|], dict))
    && (forall i | 0 <= i < |rs| :: HoldsAt(f, dict, rs[i], starts[i], starts[i + 1]))
  }

  ghost predicate HoldsAt(f: Source, dict: Bytes, r: BlobRecord, lo: nat, hi: nat) {
    && lo < hi && f.size(lo) == Some(hi - lo - RECORD_HEADER_SIZE)
    && f.read(dict, lo) == Some((r, hi - lo))
  }

  lemma {:induction false} StartsGrow(f: Source, dict: Bytes, rs: seq<BlobRecord>, starts: seq<nat>, i: nat, j: nat)
    requires Holds(f, dict, rs, starts) && i <= j <= |rs|
    ensures if i < j then starts[i] < starts[j] else starts[i] == starts[j]
    decreases j - i
  {
    if i < j {
      StartsGrow(f, dict, rs, starts, i, j - 1);
      assert HoldsAt(f, dict, rs[j - 1], starts[j - 1], starts[j]);
    }
  }

  // ---------------------------------------------------------------- files from the builder

  function Starts(t: Tools, dict: Bytes, rs: seq<BlobRecord>): (r: seq<nat>)
    requires Lawful(t) && AllStorable(rs)
    ensures |r| == |rs| + 1
  {
    seq(|rs| + 1, i requires 0 <= i <= |rs| => HEADER_SIZE_V2 + |Body(t, dict, rs[..i])|)
  }

  ghost predicate ReadsAt(t: Tools, file: Bytes, dict: Bytes, r: BlobRecord, lo: nat, hi: nat) {
    lo < hi && ReadRecord(t, dict, file, lo) == Some((r, hi - lo))
  }

  lemma HoldsFrom(t: Tools, file: Bytes, dict: Bytes, rs: seq<BlobRecord>, starts: seq<nat>)
    requires |starts| == |rs| + 1 && InitLayout(t, file) == Some(Layout(starts[0], starts[|rs|], dict))
    requires forall i | 0 <= i < |rs| :: ReadsAt(t, file, dict, rs[i], starts[i], starts[i + 1])
    ensures Holds(SourceOf(t, file), dict, rs, starts)
  {
    forall i | 0 <= i < |rs|
      ensures HoldsAt(SourceOf(t, file), dict, rs[i], starts[i], starts[i + 1])
    {
      assert ReadsAt(t, file, dict, rs[i], starts[i], starts[i + 1]);
    }
  }

  /** The handle of record `i` spans exactly the bytes from one start to the next. */
  lemma HandleSpans(t: Tools, dict: Bytes, rs: seq<BlobRecord>, i: nat)
    requires Lawful(t) && AllStorable(rs) && i < |rs|
    ensures var s := Starts(t, dict, rs);
            s[i] < s[i + 1] && HandleOf(t, dict, rs, HEADER_SIZE_V2, i) == BlobHandle(s[i], s[i + 1] - s[i], i)
  {
    HandlePlace(t, dict, rs, i);
  }

  /** A finished file holds the records it was built from, between the starts of their handles. */
  lemma ImageHolds(t: Tools, hasDict: bool, dict: Bytes, rs: seq<BlobRecord>, file: Bytes)
    requires Lawful(t) && AllStorable(rs) && file == Image(t, hasDict, dict, rs) && |file| < U64
    requires !hasDict ==> dict == []
    ensures Holds(SourceOf(t, file), dict, rs, Starts(t, dict, rs))
  {
    var s := Starts(t, dict, rs);
    ImageStarts(t, hasDict, dict, rs);
    ImageReadsAll(t, hasDict, dict, rs);
    HoldsFrom(t, file, dict, rs, s);
  }

  lemma ImageStarts(t: Tools, hasDict: bool, dict: Bytes, rs: seq<BlobRecord>)
    requires Lawful(t) && AllStorable(rs) && |Image(t, hasDict, dict, rs)| < U64
    requires !hasDict ==> dict == []
    ensures var s := Starts(t, dict, rs);
            InitLayout(t, Image(t, hasDict, dict, rs)) == Some(Layout(s[0], s[|rs|], dict))
  {
    EndStarts(t, dict, rs);
    ImageLayout(t, hasDict, dict, rs);
  }

  lemma EndStarts(t: Tools, dict: Bytes, rs: seq<BlobRecord>)
    requires Lawful(t) && AllStorable(rs)
    ensures var s := Starts(t, dict, rs);
            s[0] == HEADER_SIZE_V2 && s[|rs|] == HEADER_SIZE_V2 + |Body(t, dict, rs)|
  {
    assert rs[..|rs|] == rs;
  }

  lemma ImageReadsAll(t: Tools, hasDict: bool, dict: Bytes, rs: seq<BlobRecord>)
    requires Lawful(t) && AllStorable(rs)
    ensures var s := Starts(t, dict, rs);
            forall i | 0 <= i < |rs| :: ReadsAt(t, Image(t, hasDict, dict, rs), dict, rs[i], s[i], s[i + 1])
  {
    forall i | 0 <= i < |rs|
      ensures var s := Starts(t, dict, rs); ReadsAt(t, Image(t, hasDict, dict, rs), dict, rs[i], s[i], s[i + 1])
    {
      ImageReadsAt(t, hasDict, dict, rs, i);
    }
  }

  lemma ImageReadsAt(t: Tools, hasDict: bool, dict: Bytes, rs: seq<BlobRecord>, i: nat)
    requires Lawful(t) && AllStorable(rs) && i < |rs|
    ensures var s := Starts(t, dict, rs); ReadsAt(t, Image(t, hasDict, dict, rs), dict, rs[i], s[i], s[i + 1])
  {
    HandleSpans(t, dict, rs, i);
    ImageReads(t, hasDict, dict, rs, i);
  }

  // ---------------------------------------------------------------- the iterator

  class BlobFileIterator {
    const f: Source
    const number: nat
    const fileEntries: nat
    var init: bool
    var layout: Layout
    var ok: bool
    var valid: bool
    var offset: nat
    var index: nat
    var record: BlobRecord
    var curOffset: nat
    var curSize: nat
    var curIndex: nat
    ghost const dict: Bytes
    ghost const rs: seq<BlobRecord>
    ghost const starts: seq<nat>

    ghost predicate Over() { Holds(f, dict, rs, starts) }

    ghost predicate Ready()
      requires Over()
      reads this
    {
      init && layout == Layout(starts[0], starts[|rs|], dict)
    }

    /** The next read is of record `i`. */
    ghost predicate At(i: nat)
      requires Over()
      reads this
    {
      Ready() && i <= |rs| && offset == starts[i]
    }

    /** The current record is record `i`. */
    ghost predicate Shows(i: nat)
      requires Over()
      reads this
    {
      && i < |rs| && ok && valid && record == rs[i]
      && curOffset == starts[i] && curSize == starts[i + 1] - starts[i]
    }

    function GetBlobIndex(): BlobIndex
      reads this
    {
      BlobIndex(number, BlobHandle(curOffset, curSize, curIndex), 0, NO_HANDLE)
    }

    predicate Valid()
      reads this
    {
      valid && ok
    }

    constructor (f: Source, number: nat, fileEntries: nat,
                 ghost dict: Bytes, ghost rs: seq<BlobRecord>, ghost starts: seq<nat>)
      ensures this.f == f && this.number == number && this.fileEntries == fileEntries
      ensures this.dict == dict && this.rs == rs && this.starts == starts
      ensures !init && index == 0 && !valid && ok
    {
      this.f, this.number, this.fileEntries := f, number, fileEntries;
      this.dict, this.rs, this.starts := dict, rs, starts;
      init, ok, valid, offset, index := false, true, false, 0, 0;
      layout := Layout(0, 0, []);
      record := BlobRecord([], []);
      curOffset, curSize, curIndex := 0, 0, 0;
    }

    method Init()
      requires !init
      modifies this`init, this`layout, this`ok
      ensures init == f.layout.Some?
      ensures Over() ==> ok && Ready()
    {
      var l := f.layout;
      ok := l.Some?;
      if l.Some? { init, layout := true, l.value; }
    }

    /** `GetBlobRecord`: reads at the cursor and moves it past the record. */
    method GetBlobRecord(ghost i: nat)
      modifies this`ok, this`record, this`curOffset, this`curSize, this`curIndex, this`index, this`offset, this`valid
      ensures Over() && old(At(i)) && i < |rs| ==>
                At(i + 1) && Shows(i) && curIndex == old(index) && index == old(index) + 1
    {
      assert Over() && At(i) && i < |rs| ==> HoldsAt(f, dict, rs[i], starts[i], starts[i + 1]);
      var r := f.read(layout.dict, offset);
      Take(r);
    }

    /** What a read does to the cursor and the current record. */
    method Take(r: Option<(BlobRecord, nat)>)
      modifies this`ok, this`record, this`curOffset, this`curSize, this`curIndex, this`index, this`offset, this`valid
      ensures ok == r.Some?
      ensures r.Some? ==>
                && valid && record == r.value.0
                && curOffset == old(offset) && curSize == r.value.1 && curIndex == old(index)
                && offset == old(offset) + r.value.1 && index == old(index) + 1
      ensures r.None? ==> offset == old(offset) && index == old(index) && valid == old(valid) && record == old(record)
    {
      ok := r.Some?;
      if r.Some? {
        record := r.value.0;
        curOffset, curSize, curIndex := offset, r.value.1, index;
        index := index + 1;
        offset := offset + curSize;
        valid := true;
      }
    }

    /** `PrefetchAndGet`, without the prefetching: the two tests that end the iteration, then the read. */
    method PrefetchAndGet(ghost i: nat)
      modifies this`ok, this`record, this`curOffset, this`curSize, this`curIndex, this`index, this`offset, this`valid
      ensures Over() && old(At(i)) && i < |rs| && old(index) < fileEntries ==>
                At(i + 1) && Shows(i) && curIndex == old(index) && index == old(index) + 1
      ensures Over() && old(At(i)) && (i == |rs| || old(index) >= fileEntries) ==>
                !valid && At(i) && ok == old(ok) && index == old(index)
    {
      if offset >= layout.end || index >= fileEntries {
        assert Over() && At(i) ==> i == |rs| || index >= fileEntries by {
          if Over() && At(i) { StartsGrow(f, dict, rs, starts, i, |rs|); }
        }
        valid := false;
        return;
      }
      assert Over() && At(i) ==> i < |rs|;
      GetBlobRecord(i);
    }

    /** Moves to the first record. The index counter goes on from where it was: it starts at 0 only the first time. */
    method SeekToFirst()
      modifies this
      ensures Over() && (old(init) ==> old(Ready())) ==> ok && Ready()
      ensures Over() && (old(init) ==> old(Ready())) && rs != [] && old(index) < fileEntries ==>
                At(1) && Shows(0) && curIndex == old(index) && index == old(index) + 1
      ensures Over() && (old(init) ==> old(Ready())) && (rs == [] || old(index) >= fileEntries) ==>
                !valid && At(0) && index == old(index)
    {
      if !init {
        Init();
        if !init { return; }
      }
      ok := true;
      offset := layout.start;
      PrefetchAndGet(0);
    }

    method Next(ghost i: nat)
      requires init
      modifies this`ok, this`record, this`curOffset, this`curSize, this`curIndex, this`index, this`offset, this`valid
      ensures Over() && old(At(i)) && i < |rs| && old(index) < fileEntries ==>
                At(i + 1) && Shows(i) && curIndex == old(index) && index == old(index) + 1
      ensures Over() && old(At(i)) && (i == |rs| || old(index) >= fileEntries) ==>
                !valid && At(i) && ok == old(ok) && index == old(index)
    {
      PrefetchAndGet(i);
    }

    /**
     * Puts the cursor on the record that contains `target`: index and offset are those of the one
     * record whose bytes include that position. From the end of the records on it is an error; inside
     * the header the cursor is on the first record, with an index counted down below zero.
     */
    method IterateForPrev(target: nat) returns (ghost i: nat)
      modifies this
      ensures Over() && (old(init) ==> old(Ready())) ==> Ready()
      ensures Over() && (old(init) ==> old(Ready())) && starts[0] <= target < starts[|rs|] ==>
                && ok && !valid && At(i) && index == i < |rs|
                && starts[i] <= target < starts[i + 1]
      ensures Over() && (old(init) ==> old(Ready())) && target >= starts[|rs|] ==> !ok && offset == target
      ensures Over() && (old(init) ==> old(Ready())) && target < starts[0] && target < starts[|rs|] ==>
                ok && !valid && At(0) && index == U64 - 1
    {
      i := 0;
      if !init {
        Init();
        if !init { return; }
      }
      ok := true;
      if target >= layout.end {
        offset := target;
        ok := false;
        return;
      }
      var total := WalkTo(target);
      if !ok { return; }
      i := if offset > target && index > 0 then index - 1 else index;
      if offset > target {
        offset := offset - total;
        index := if index == 0 then U64 - 1 else index - 1;
      }
      valid := false;
    }

    /** The walk's state: on record `index`, having passed one that starts before `target`. */
    ghost predicate Walked(target: nat, total: nat)
      requires Over()
      reads this
    {
      && At(index)
      && if index == 0 then total == 0 else total == starts[index] - starts[index - 1] && starts[index - 1] < target
    }

    /** The loop of the seek: over record headers until the cursor is no longer before `target`. */
    method WalkTo(target: nat) returns (total: nat)
      requires init && ok
      modifies this`offset, this`index, this`ok
      ensures total <= offset
      ensures Over() && Ready() && starts[0] <= target < starts[|rs|] ==>
                ok && Walked(target, total) && offset >= target
      ensures target < layout.start ==> ok && offset == layout.start && index == 0 && total == 0
    {
      total := 0;
      offset, index := layout.start, 0;
      while offset < target
        invariant ok && total <= offset
        invariant target < layout.start ==> offset == layout.start && index == 0 && total == 0
        invariant Over() && Ready() && starts[0] <= target < starts[|rs|] ==> Walked(target, total)
        decreases target - offset
      {
        assert Over() && Ready() && starts[0] <= target < starts[|rs|] ==>
            index < |rs| && HoldsAt(f, dict, rs[index], starts[index], starts[index + 1]);
        var size := f.size(offset);
        if size.None? {
          ok := false;
          return;
        }
        total := RECORD_HEADER_SIZE + size.value;
        index := index + 1;
        offset := offset + total;
      }
    }
  }

  /** The loop of a GC job over one file: every record, in order, under its own index. */
  method ReadAll(it: BlobFileIterator) returns (out: seq<(BlobRecord, BlobIndex)>)
    requires it.Over() && !it.init && it.index == 0
    modifies it
    ensures |out| == if |it.rs| <= it.fileEntries then |it.rs| else it.fileEntries
    ensures forall i | 0 <= i < |out| ::
              var h := BlobHandle(it.starts[i], it.starts[i + 1] - it.starts[i], i);
              out[i] == (it.rs[i], BlobIndex(it.number, h, 0, NO_HANDLE))
    ensures !it.Valid() && it.ok
  {
    out := [];
    it.SeekToFirst();
    while it.Valid()
      invariant it.Over() && it.ok && it.At(it.index) && it.index <= |it.rs|
      invariant it.Valid() ==> it.index == |out| + 1 <= it.fileEntries && it.curIndex == |out| && it.Shows(|out|)
      invariant !it.Valid() ==> it.index == |out| == if |it.rs| <= it.fileEntries then |it.rs| else it.fileEntries
      invariant forall i | 0 <= i < |out| ::
                  var h := BlobHandle(it.starts[i], it.starts[i + 1] - it.starts[i], i);
                  out[i] == (it.rs[i], BlobIndex(it.number, h, 0, NO_HANDLE))
      decreases |it.rs| - |out|, it.Valid()
    {
      out := out + [(it.record, it.GetBlobIndex())];
      it.Next(it.index);
    }
  }

  /** Two seeks on a new iterator: record 0 is shown again, now under index 1. */
  method SeekTwice(it: BlobFileIterator)
    requires it.Over() && !it.init && it.index == 0 && it.rs != [] && it.fileEntries > 1
    modifies it
    ensures it.Shows(0) && it.GetBlobIndex().handle.index == 1
  {
    it.SeekToFirst();
    it.SeekToFirst();
  }

  /** The default of `file_entries`. */
  const ALL_ENTRIES: nat := U64 - 1

  /** What a finished file reads as: every record, under the blob index the builder gave out for it. */
  ghost predicate ReadsBack(t: Tools, dict: Bytes, rs: seq<BlobRecord>, number: nat, out: seq<(BlobRecord, BlobIndex)>)
    requires Lawful(t) && AllStorable(rs)
  {
    && |out| == |rs|
    && forall i | 0 <= i < |rs| ::
         out[i] == (rs[i], BlobIndex(number, HandleOf(t, dict, rs, HEADER_SIZE_V2, i), 0, NO_HANDLE))
  }

  /** The same with the handles given by the starts. */
  ghost predicate ReadsAs(rs: seq<BlobRecord>, starts: seq<nat>, number: nat, out: seq<(BlobRecord, BlobIndex)>) {
    && |out| == |rs| && |starts| == |rs| + 1
    && forall i | 0 <= i < |rs| ::
         && starts[i] <= starts[i + 1]
         && out[i] == (rs[i], BlobIndex(number, BlobHandle(starts[i], starts[i + 1] - starts[i], i), 0, NO_HANDLE))
  }

  lemma EntriesFit(t: Tools, hasDict: bool, dict: Bytes, rs: seq<BlobRecord>)
    requires Lawful(t) && AllStorable(rs) && |Image(t, hasDict, dict, rs)| < U64
    ensures |rs| <= ALL_ENTRIES
  {
    BodyLength(t, dict, rs);
  }

  lemma StartsAreHandles(t: Tools, dict: Bytes, rs: seq<BlobRecord>, number: nat, out: seq<(BlobRecord, BlobIndex)>)
    requires Lawful(t) && AllStorable(rs)
    requires ReadsAs(rs, Starts(t, dict, rs), number, out)
    ensures ReadsBack(t, dict, rs, number, out)
  {
    forall i | 0 <= i < |rs|
      ensures out[i] == (rs[i], BlobIndex(number, HandleOf(t, dict, rs, HEADER_SIZE_V2, i), 0, NO_HANDLE))
    {
      HandleSpans(t, dict, rs, i);
    }
  }

  /** Iterating over a file the builder finished gives back all it was built from. */
  method ReadFinished(t: Tools, ghost hasDict: bool, ghost dict: Bytes, ghost rs: seq<BlobRecord>,
                      file: Bytes, number: nat)
    returns (out: seq<(BlobRecord, BlobIndex)>)
    requires Lawful(t) && AllStorable(rs) && file == Image(t, hasDict, dict, rs) && |file| < U64
    requires !hasDict ==> dict == []
    ensures ReadsBack(t, dict, rs, number, out)
  {
    ImageHolds(t, hasDict, dict, rs, file);
    EntriesFit(t, hasDict, dict, rs);
    out := ReadHeld(t, dict, rs, SourceOf(t, file), number);
  }

  method ReadHeld(ghost t: Tools, ghost dict: Bytes, ghost rs: seq<BlobRecord>, f: Source, number: nat)
    returns (out: seq<(BlobRecord, BlobIndex)>)
    requires Lawful(t) && AllStorable(rs) && Holds(f, dict, rs, Starts(t, dict, rs)) && |rs| <= ALL_ENTRIES
    ensures ReadsBack(t, dict, rs, number, out)
  {
    out := ReadSource(f, dict, rs, Starts(t, dict, rs), number);
    StartsAreHandles(t, dict, rs, number, out);
  }

  method ReadSource(f: Source, ghost dict: Bytes, ghost rs: seq<BlobRecord>, ghost starts: seq<nat>, number: nat)
    returns (out: seq<(BlobRecord, BlobIndex)>)
    requires Holds(f, dict, rs, starts) && |rs| <= ALL_ENTRIES
    ensures ReadsAs(rs, starts, number, out)
  {
    var it := new BlobFileIterator(f, number, ALL_ENTRIES, dict, rs, starts);
    out := ReadAll(it);
  }
}
