/** Writing a blob file: the buffered and unbuffered states of the builder. */
module BlobBuilding {
  import opened Wrappers
  import opened Coding
  import opened BlobFormat
  import opened BlobFile

  datatype Kind = Value | Index | Deletion | Merge

  datatype InternalKey = InternalKey(user: Bytes, seqno: nat, kind: Kind)

  /** `BlobRecordContext`: an entry on its way to the base table, with its value or with a blob index to fill in. */
  datatype Context = Context(key: InternalKey, index: BlobIndex, hasValue: bool, value: Bytes)

  /** How many of the contexts wait for a blob handle. */
  function Owed(cs: seq<Context>): nat {
    if cs == [] then 0 else Owed(cs[..|cs| - 1]) + if cs[|cs| - 1].hasValue then 0 else 1
  }

  lemma {:induction false} OwedGrows(cs: seq<Context>, n: nat)
    requires n <= |cs|
    ensures Owed(cs[..n]) <= Owed(cs)
    ensures n < |cs| && !cs[n].hasValue ==> Owed(cs[..n]) < Owed(cs)
    decreases |cs| - n
  {
    if n == |cs| {
      assert cs[..n] == cs;
    } else {
      assert cs[..n + 1][..n] == cs[..n];
      OwedGrows(cs, n + 1);
    }
  }

  /** The contexts as they leave the builder: the k-th one without a value has handle k. */
  function Resolved(hs: seq<BlobHandle>, cs: seq<Context>): (r: seq<Context>)
    requires Owed(cs) <= |hs|
    ensures |r| == |cs|
  {
    if cs == [] then []
    else
      var c := cs[|cs| - 1];
      Resolved(hs, cs[..|cs| - 1]) + [if c.hasValue then c else WithHandle(c, hs[Owed(cs[..|cs| - 1])])]
  }

  function WithHandle(c: Context, h: BlobHandle): Context {
    c.(index := c.index.(handle := h))
  }

  lemma {:induction false} ResolvedAt(hs: seq<BlobHandle>, cs: seq<Context>, j: nat)
    requires Owed(cs) <= |hs| && j < |cs|
    ensures Owed(cs[..j]) <= Owed(cs) && (!cs[j].hasValue ==> Owed(cs[..j]) < Owed(cs))
    ensures Resolved(hs, cs)[j] == if cs[j].hasValue then cs[j] else WithHandle(cs[j], hs[Owed(cs[..j])])
  {
    OwedGrows(cs, j);
    var n := |cs| - 1;
    if j < n {
      ResolvedAt(hs, cs[..n], j);
      assert cs[..n][..j] == cs[..j];
    }
  }

  lemma ResolvedSnoc(hs: seq<BlobHandle>, cs: seq<Context>, n: nat)
    requires n < |cs| && Owed(cs[..n + 1]) <= |hs|
    ensures Owed(cs[..n + 1]) == Owed(cs[..n]) + if cs[n].hasValue then 0 else 1
    ensures cs[n].hasValue ==> Resolved(hs, cs[..n + 1]) == Resolved(hs, cs[..n]) + [cs[n]]
    ensures !cs[n].hasValue ==>
              Resolved(hs, cs[..n + 1]) == Resolved(hs, cs[..n]) + [WithHandle(cs[n], hs[Owed(cs[..n])])]
  {
    assert cs[..n + 1][..n] == cs[..n];
  }

  /** One step of the flush, on values: the next context takes the handle of the next sample. */
  lemma FlushStep(hs: seq<BlobHandle>, cs: seq<Context>, s: nat, c: nat, out: seq<Context>)
    requires Left(hs, cs, s, c, out) && s < |hs| && (c == |cs| || !cs[c].hasValue)
    ensures c < |cs| && Left(hs, cs, s + 1, c + 1, out + [WithHandle(cs[c], hs[s])])
  {
    assert cs[..|cs|] == cs;
    OwedGrows(cs, c + 1);
    ResolvedSnoc(hs, cs, c);
  }

  /** The contexts before `c`, which owe `s` handles, have left for `out`. */
  ghost predicate Left(hs: seq<BlobHandle>, cs: seq<Context>, s: nat, c: nat, out: seq<Context>) {
    && c <= |cs| && Owed(cs) == |hs|
    && Owed(cs[..c]) == s <= |hs| && out == Resolved(hs, cs[..c])
  }

  /** The inner loop of the flush: entries that need no handle leave as they are. */
  method SkipValues(ghost hs: seq<BlobHandle>, cs: seq<Context>, ghost s: nat, from: nat, out: seq<Context>)
    returns (out': seq<Context>, c: nat)
    requires Left(hs, cs, s, from, out)
    ensures Left(hs, cs, s, c, out')
    ensures c == |cs| || !cs[c].hasValue
  {
    out', c := out, from;
    while c < |cs| && cs[c].hasValue
      invariant Left(hs, cs, s, c, out')
    {
      OwedGrows(cs, c + 1);
      ResolvedSnoc(hs, cs, c);
      out' := out' + [cs[c]];
      c := c + 1;
    }
  }

  /** Once every handle is used the entries left all carry values. */
  lemma AllLeft(hs: seq<BlobHandle>, cs: seq<Context>, c: nat, out: seq<Context>)
    requires Left(hs, cs, |hs|, c, out) && (c == |cs| || !cs[c].hasValue)
    ensures c == |cs| && out == Resolved(hs, cs)
  {
    OwedGrows(cs, c);
    assert cs[..|cs|] == cs;
  }

  /** The handles of the records of a file. */
  function Handles(t: Tools, dict: Bytes, rs: seq<BlobRecord>): (r: seq<BlobHandle>)
    requires Lawful(t) && AllStorable(rs)
    ensures |r| == |rs|
  {
    seq(|rs|, i requires 0 <= i < |rs| => HandleOf(t, dict, rs, HEADER_SIZE_V2, i))
  }

  function Payloads(rs: seq<BlobRecord>): (r: seq<Bytes>)
    requires AllStorable(rs)
    ensures |r| == |rs|
  {
    seq(|rs|, i requires 0 <= i < |rs| => EncodeRecord(rs[i]))
  }

  function TotalLength(ss: seq<Bytes>): nat {
    if ss == [] then 0 else TotalLength(ss[..|ss| - 1]) + |ss[|ss| - 1]|
  }

  /** A handle does not depend on the records written later. */
  lemma HandleStays(t: Tools, dict: Bytes, rs: seq<BlobRecord>, n: nat, i: nat)
    requires Lawful(t) && AllStorable(rs) && i < n <= |rs|
    ensures HandleOf(t, dict, rs[..n], HEADER_SIZE_V2, i) == Handles(t, dict, rs)[i]
  {
    assert rs[..n][..i] == rs[..i];
  }

  lemma HandlesGrow(t: Tools, dict: Bytes, rs: seq<BlobRecord>, r: BlobRecord)
    requires Lawful(t) && AllStorable(rs) && Storable(r)
    ensures AllStorable(rs + [r]) && Handles(t, dict, rs) <= Handles(t, dict, rs + [r])
  {
    var more := rs + [r];
    assert more[..|rs|] == rs;
    forall i | 0 <= i < |rs|
      ensures Handles(t, dict, rs)[i] == Handles(t, dict, more)[i]
    {
      HandleStays(t, dict, more, |rs|, i);
    }
  }

  function TotalSizes(hs: seq<BlobHandle>): nat {
    if hs == [] then 0 else TotalSizes(hs[..|hs| - 1]) + hs[|hs| - 1].size
  }

  lemma FrontHandles(t: Tools, dict: Bytes, rs: seq<BlobRecord>)
    requires Lawful(t) && AllStorable(rs) && rs != []
    ensures var n := |rs| - 1;
            && Handles(t, dict, rs)[..n] == Handles(t, dict, rs[..n])
            && Handles(t, dict, rs)[n].size == |Encoded(t, dict, EncodeRecord(rs[n]))|
  {
    var n := |rs| - 1;
    forall i | 0 <= i < n ensures Handles(t, dict, rs)[i] == Handles(t, dict, rs[..n])[i] {
      HandleStays(t, dict, rs, n, i);
    }
  }

  /** The live data size of a file is the sum of its handles' sizes. */
  lemma {:induction false} LiveSizeIsSum(t: Tools, dict: Bytes, rs: seq<BlobRecord>)
    requires Lawful(t) && AllStorable(rs)
    ensures |Body(t, dict, rs)| == TotalSizes(Handles(t, dict, rs))
  {
    if rs != [] {
      var n := |rs| - 1;
      var front := rs[..n];
      LiveSizeIsSum(t, dict, front);
      FrontHandles(t, dict, rs);
    }
  }

  /** What a builder has done so far: records in the file with their handles, and what waits. */
  datatype View = View(buffered: bool, dict: Bytes, written: seq<BlobRecord>, hs: seq<BlobHandle>,
                       waiting: seq<BlobRecord>, cached: seq<Context>)

  ghost predicate ViewOk(v: View) {
    && |v.hs| == |v.written| && Owed(v.cached) == |v.waiting|
    && (v.buffered ==> v.written == []) && (!v.buffered ==> v.waiting == [] && v.cached == [])
  }

  /**
   * What `Add` does. Buffered, record and context join those that wait, and then all of them may
   * leave together; unbuffered, the context leaves at once with the handle of its record.
   */
  ghost predicate Added(v: View, v': View, r: BlobRecord, c: Context, out: seq<Context>)
    requires ViewOk(v) && ViewOk(v') && !c.hasValue
  {
    if v'.buffered then
      v.buffered && v'.waiting == v.waiting + [r] && v'.cached == v.cached + [c] && out == []
    else if v.buffered then
      && v'.written == v.waiting + [r]
      && Owed(v.cached + [c]) == |v'.hs| && out == Resolved(v'.hs, v.cached + [c])
    else
      && v'.dict == v.dict && v'.written == v.written + [r] && v.hs <= v'.hs
      && out == [WithHandle(c, v'.hs[|v.hs|])]
  }

  /** What `Finish` does: everything that waits is written and leaves. */
  ghost predicate Closed(v: View, v': View, out: seq<Context>)
    requires ViewOk(v) && ViewOk(v')
  {
    && !v'.buffered
    && if v.buffered then v'.written == v.waiting && out == Resolved(v'.hs, v.cached)
       else v'.dict == v.dict && v'.written == v.written && v'.hs == v.hs && out == []
  }

  /** The contexts with values leave; the next one is for the handle of sample `s`. */
  method SkipToWaiter(ghost hs: seq<BlobHandle>, cs: seq<Context>, ghost s: nat, from: nat, out: seq<Context>)
    returns (out': seq<Context>, c: nat)
    requires Left(hs, cs, s, from, out) && s < |hs|
    ensures c < |cs| && Left(hs, cs, s + 1, c + 1, out' + [WithHandle(cs[c], hs[s])])
  {
    out', c := SkipValues(hs, cs, s, from, out);
    FlushStep(hs, cs, s, c, out');
  }

  class BlobFileBuilder {
    const t: Tools
    const maxDict: nat
    const trainBytes: nat
    var buffered: bool
    var file: Bytes
    var samples: seq<Bytes>
    var sampleLen: nat
    var cached: seq<Context>
    var dict: Bytes
    var entries: nat
    var liveSize: nat
    ghost var written: seq<BlobRecord>
    ghost var waiting: seq<BlobRecord>

    ghost predicate FileOk()
      reads this
    {
      && Lawful(t) && AllStorable(written)
      && file == Front(t, maxDict > 0, dict, written)
      && entries == |written|
      && liveSize == |Body(t, dict, written)|
      && (maxDict == 0 ==> dict == [])
    }

    ghost predicate Valid()
      reads this
    {
      && FileOk()
      && AllStorable(waiting) && samples == Payloads(waiting)
      && sampleLen == TotalLength(samples)
      && Owed(cached) == |waiting|
      && (buffered ==> written == [] && maxDict > 0)
      && (!buffered ==> waiting == [] && cached == [])
    }

    ghost function Now(): (v: View)
      requires Lawful(t) && AllStorable(written)
      reads this
    {
      View(buffered, dict, written, Handles(t, dict, written), waiting, cached)
    }

    constructor (t: Tools, maxDict: nat, trainBytes: nat)
      requires Lawful(t)
      ensures Valid() && this.t == t && this.maxDict == maxDict && this.trainBytes == trainBytes
      ensures written == [] && waiting == [] && cached == [] && buffered == (maxDict > 0)
    {
      this.t, this.maxDict, this.trainBytes := t, maxDict, trainBytes;
      buffered := maxDict > 0;
      samples, sampleLen, cached, dict, entries, liveSize := [], 0, [], [], 0, 0;
      written, waiting := [], [];
      file := EncodeHeader(maxDict > 0);
      new;
      AppendNothing(file);
    }

    /** `WriteEncoderData` for the record `r`, whose encoding is in the encoder. */
    method WriteEncoderData(payload: Bytes, ghost r: BlobRecord) returns (h: BlobHandle)
      requires FileOk() && Storable(r) && payload == EncodeRecord(r)
      modifies this`file, this`liveSize, this`entries, this`written
      ensures FileOk() && written == old(written) + [r]
      ensures h == HandleOf(t, dict, written, HEADER_SIZE_V2, |old(written)|)
      ensures old(file) <= file
    {
      var bytes := Encoded(t, dict, payload);
      h := BlobHandle(|file|, |bytes|, entries);
      liveSize := liveSize + |bytes|;
      file := file + bytes;
      entries := entries + 1;
      Assoc3(EncodeHeader(maxDict > 0), Body(t, dict, written), bytes);
      ghost var was := written;
      written := written + [r];
      assert written[..|was|] == was;
    }

    /** The samples before `s` are in the file. */
    ghost predicate Flushed(s: nat)
      reads this
    {
      && FileOk() && AllStorable(waiting) && samples == Payloads(waiting)
      && s <= |waiting| && written == waiting[..s]
    }

    /** The samples before `s` are in the file and the contexts before `c` have left. */
    ghost predicate Replayed(hs: seq<BlobHandle>, s: nat, c: nat, out: seq<Context>)
      reads this
    {
      Flushed(s) && hs == Handles(t, dict, waiting) && Left(hs, cached, s, c, out)
    }

    /** One turn of the replay: the contexts with values, then sample `s` and its context. */
    method ReplayOne(ghost hs: seq<BlobHandle>, s: nat, from: nat, out: seq<Context>)
      returns (c: nat, out': seq<Context>)
      requires Replayed(hs, s, from, out) && s < |waiting|
      modifies this`file, this`liveSize, this`entries, this`written
      ensures Replayed(hs, s + 1, c, out')
    {
      out', c := SkipToWaiter(hs, cached, s, from, out);
      var h := FlushOne(s);
      out', c := out' + [WithHandle(cached[c], h)], c + 1;
    }

    /** Replays the samples into the file; every context leaves, in order. */
    method ReplaySamples() returns (out: seq<Context>)
      requires Flushed(0) && Owed(cached) == |waiting|
      modifies this`file, this`liveSize, this`entries, this`written
      ensures Flushed(|waiting|)
      ensures out == Resolved(Handles(t, dict, waiting), cached)
    {
      ghost var hs := Handles(t, dict, waiting);
      out := [];
      var s: nat, c: nat := 0, 0;
      while s < |samples|
        invariant s <= |waiting| == |samples| && Replayed(hs, s, c, out)
      {
        c, out := ReplayOne(hs, s, c, out);
        s := s + 1;
      }
      out, c := SkipValues(hs, cached, s, c, out);
      AllLeft(hs, cached, c, out);
    }

    method FlushSampleRecords() returns (out: seq<Context>)
      requires Flushed(0) && Owed(cached) == |waiting|
      modifies this`file, this`liveSize, this`entries, this`written, this`waiting, this`samples, this`sampleLen,
               this`cached
      ensures FileOk() && written == old(waiting) && waiting == [] && samples == [] && sampleLen == 0 && cached == []
      ensures out == Resolved(Handles(t, dict, written), old(cached))
    {
      out := ReplaySamples();
      assert waiting[..|waiting|] == waiting;
      samples, sampleLen, cached, waiting := [], 0, [], [];
    }

    method FlushOne(s: nat) returns (h: BlobHandle)
      requires Flushed(s) && s < |waiting|
      modifies this`file, this`liveSize, this`entries, this`written
      ensures Flushed(s + 1) && h == Handles(t, dict, waiting)[s]
    {
      h := WriteEncoderData(samples[s], waiting[s]);
      assert written == waiting[..s + 1];
      HandleStays(t, dict, waiting, s + 1, s);
    }

    /** Trains the dictionary on the samples and writes them out with it. */
    method EnterUnbuffered() returns (out: seq<Context>)
      requires Valid() && buffered
      modifies this
      ensures Valid() && !buffered
      ensures dict == t.train(Payloads(old(waiting)))
      ensures written == old(waiting)
      ensures out == Resolved(Handles(t, dict, written), old(cached))
    {
      dict := t.train(samples);
      assert Body(t, dict, written) == [];
      out := FlushSampleRecords();
      buffered := false;
    }

    /**
     * Adds a record whose context is `ctx`. Buffered, nothing leaves unless the training size is
     * reached; unbuffered, `ctx` leaves at once with its handle.
     */
    method Add(r: BlobRecord, ctx: Context) returns (out: seq<Context>)
      requires Valid() && Storable(r) && !ctx.hasValue
      modifies this
      ensures Valid() && ViewOk(old(Now())) && ViewOk(Now())
      ensures Added(old(Now()), Now(), r, ctx, out)
      ensures buffered == (old(buffered) && !(trainBytes > 0 && old(sampleLen) + |EncodeRecord(r)| >= trainBytes))
    {
      if buffered {
        out := [];
        Keep(r, ctx);
        if trainBytes > 0 && sampleLen >= trainBytes {
          out := EnterUnbuffered();
        }
      } else {
        HandlesGrow(t, dict, written, r);
        var h := WriteEncoderData(EncodeRecord(r), r);
        out := [WithHandle(ctx, h)];
      }
    }

    /** The record becomes a sample and its context waits. */
    method Keep(r: BlobRecord, ctx: Context)
      requires Valid() && buffered && Storable(r) && !ctx.hasValue
      modifies this`samples, this`sampleLen, this`waiting, this`cached
      ensures Valid() && waiting == old(waiting) + [r] && cached == old(cached) + [ctx]
      ensures sampleLen == old(sampleLen) + |EncodeRecord(r)|
    {
      var payload := EncodeRecord(r);
      samples := samples + [payload];
      sampleLen := sampleLen + |payload|;
      waiting := waiting + [r];
      assert samples == Payloads(waiting);
      assert samples[..|samples| - 1] == old(samples);
      cached := cached + [ctx];
      assert cached[..|cached| - 1] == old(cached);
    }

    /** An entry that keeps its value waits with the others, to stay in order. */
    method AddSmall(ctx: Context)
      requires Valid() && buffered && ctx.hasValue
      modifies this`cached
      ensures Valid() && cached == old(cached) + [ctx]
    {
      cached := cached + [ctx];
      assert cached[..|cached| - 1] == old(cached);
    }

    method WriteRawBlock(block: Bytes) returns (h: BlockHandle)
      requires Lawful(t)
      modifies this`file
      ensures file == old(file) + Block(t, block) && h == BlockHandle(|old(file)|, |block|)
    {
      h := BlockHandle(|file|, |block|);
      file := file + block;
      var trailer := [NO_COMPRESSION] + PutFixed32(t.mask(t.crc(block + [NO_COMPRESSION])));
      Assoc3(old(file), block, trailer);
      file := file + trailer;
    }

    /** Writes what still waits and then the end of the file; the result is the whole file. */
    method Finish() returns (out: seq<Context>)
      requires Valid()
      modifies this
      ensures Lawful(t) && AllStorable(written) && ViewOk(old(Now())) && ViewOk(Now())
      ensures Closed(old(Now()), Now(), out)
      ensures file == Image(t, maxDict > 0, dict, written) && (maxDict == 0 ==> dict == [])
      ensures entries == |written| && liveSize == |Body(t, dict, written)|
    {
      out := [];
      if buffered {
        out := EnterUnbuffered();
      }
      WriteBack();
    }

    /** Dictionary and meta index blocks, if there is a dictionary, and the footer. */
    method WriteBack()
      requires Lawful(t)
      modifies this`file
      ensures file == old(file) + Back(t, maxDict > 0, dict, |old(file)|)
    {
      var footer := NULL_BLOCK;
      if maxDict > 0 {
        var d := WriteRawBlock(dict);
        footer := WriteRawBlock(t.metaIndex(d));
        RightNested(old(file), Block(t, dict), Block(t, t.metaIndex(d)), EncodeFooter(t, footer));
      }
      file := file + EncodeFooter(t, footer);
    }
  }

  lemma RightNested(a: Bytes, b: Bytes, c: Bytes, d: Bytes)
    ensures ((a + b) + c) + d == a + (b + (c + d))
  {
    Assoc3(a + b, c, d);
    Assoc3(a, b, c + d);
  }
}
