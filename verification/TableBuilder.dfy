/** Building a table: entries move between the tree and blob files and keep order and meaning. */
module TableBuilding {
  import opened Wrappers
  import opened Coding
  import opened BlobFormat
  import opened BlobFile
  import opened BlobBuilding
  import opened BlobFileMeta

  datatype Entry = Entry(key: InternalKey, value: Bytes)

  /** What reading a handle in a file gives; None is a file that is gone, or damaged. */
  type Reader = (nat, BlobHandle) -> Option<BlobRecord>

  /** The value a user reads through an entry, if it stands for one. */
  function UserValue(read: Reader, e: Entry): Option<Bytes> {
    if e.key.kind == Value then Some(e.value)
    else if e.key.kind != Index then None
    else
      match DecodeIndex(e.value)
      case None => None
      case Some((x, _)) => match read(x.file, x.handle) case None => None case Some(r) => Some(r.value)
  }

  /** Records of a blob file and the handles they were given. */
  datatype Contents = Contents(dict: Bytes, rs: seq<BlobRecord>, hs: seq<BlobHandle>)

  type Files = map<nat, Contents>

  /** Where a record lies: a blob file and the number of the record in it. */
  datatype Place = Place(file: nat, index: nat)

  ghost predicate IsPlace(files: Files, p: Place) {
    p.file in files && p.index < |files[p.file].rs| && p.index < |files[p.file].hs|
  }

  /** The entry holds the index of the record at `p`. */
  ghost predicate PointsTo(files: Files, e: Entry, p: Place) {
    && IsPlace(files, p) && e.key.kind == Index
    && e.value == EncodeIndex(BlobIndex(p.file, files[p.file].hs[p.index], 0, NO_HANDLE))
  }

  ghost predicate Stored(files: Files, e: Entry, r: BlobRecord, p: Place) {
    PointsTo(files, e, p) && files[p.file].rs[p.index] == r
  }

  ghost predicate SameKey(a: InternalKey, b: InternalKey) { a.user == b.user && a.seqno == b.seqno }

  /** What becomes of an entry: it stays as it is, gets its value inline, or its value moves to a blob file. */
  datatype Route = Keep | Expand(value: Bytes) | Move(value: Bytes)

  type Policy = Entry -> Route

  /** `out` stands in the table where `e` was added, as its route says; a value that moved is at `p`. */
  ghost predicate FaithfulAt(route: Policy, files: Files, e: Entry, out: Entry, p: Place) {
    match route(e)
    case Keep => out == e
    case Expand(v) => out == Entry(e.key.(kind := Value), v)
    case Move(v) => SameKey(e.key, out.key) && Stored(files, out, BlobRecord(e.key.user, v), p)
  }

  ghost predicate Faithful(route: Policy, files: Files, e: Entry, out: Entry) {
    exists p :: FaithfulAt(route, files, e, out, p)
  }

  /** The entries that moved have different places. */
  ghost predicate Apart(route: Policy, inputs: seq<Entry>, at: seq<Place>) {
    |at| <= |inputs| &&
    forall i, j | 0 <= i < j < |at| && route(inputs[i]).Move? && route(inputs[j]).Move? :: at[i] != at[j]
  }

  ghost predicate AllPlaced(route: Policy, files: Files, inputs: seq<Entry>, outs: seq<Entry>, at: seq<Place>) {
    && |at| == |outs| <= |inputs| && Apart(route, inputs, at)
    && forall i | 0 <= i < |outs| :: FaithfulAt(route, files, inputs[i], outs[i], at[i])
  }

  ghost predicate AllFaithful(route: Policy, files: Files, inputs: seq<Entry>, outs: seq<Entry>) {
    exists at :: AllPlaced(route, files, inputs, outs, at)
  }

  /** Some entry holds the index of the record at `p`. */
  ghost predicate Taken(files: Files, outs: seq<Entry>, p: Place) {
    exists i :: 0 <= i < |outs| && PointsTo(files, outs[i], p)
  }

  /** Every entry is faithful, none share a place, and no record is without its entry. */
  ghost predicate InPlace(route: Policy, files: Files, inputs: seq<Entry>, outs: seq<Entry>) {
    AllFaithful(route, files, inputs, outs) && forall p | IsPlace(files, p) :: Taken(files, outs, p)
  }

  // ---------------------------------------------------------------- growing files

  ghost predicate Grows(a: Files, b: Files) {
    forall n | n in a :: n in b && a[n].rs <= b[n].rs && a[n].hs <= b[n].hs
  }

  /** No file but `number` gets more records. */
  ghost predicate GrowsIn(a: Files, b: Files, number: nat) {
    Grows(a, b) && forall p | IsPlace(b, p) && p.file != number :: IsPlace(a, p)
  }

  lemma GrowsAt(files: Files, n: nat, a: Contents, b: Contents)
    requires a.rs <= b.rs && a.hs <= b.hs
    ensures GrowsIn(files[n := a], files[n := b], n)
  {}

  lemma FaithfulGrows(route: Policy, a: Files, b: Files, e: Entry, out: Entry, p: Place)
    requires Grows(a, b) && FaithfulAt(route, a, e, out, p)
    ensures FaithfulAt(route, b, e, out, p)
  {}

  lemma ApartAppend(route: Policy, files: Files, inputs: seq<Entry>, was: seq<Place>, at: seq<Place>)
    requires |was| + |at| <= |inputs| && Apart(route, inputs, was) && Apart(route, inputs[|was|..], at)
    requires forall i | 0 <= i < |was| && route(inputs[i]).Move? :: IsPlace(files, was[i])
    requires forall j | 0 <= j < |at| && route(inputs[|was|..][j]).Move? :: !IsPlace(files, at[j])
    ensures Apart(route, inputs, was + at)
  {
    var (all, n) := (was + at, |was|);
    forall i, j | 0 <= i < j < |all| && route(inputs[i]).Move? && route(inputs[j]).Move?
      ensures all[i] != all[j]
    {
      assert j >= n ==> inputs[n..][j - n] == inputs[j];
      assert i >= n ==> inputs[n..][i - n] == inputs[i];
    }
  }

  /** More entries at places that were not there before. */
  lemma AppendFaithful(route: Policy, a: Files, b: Files, inputs: seq<Entry>, inputs': seq<Entry>,
                       base: seq<Entry>, more: seq<Entry>, at: seq<Place>)
    requires Grows(a, b) && AllFaithful(route, a, inputs, base)
    requires inputs <= inputs' && |base| + |more| <= |inputs'|
    requires AllPlaced(route, b, inputs'[|base|..], more, at)
    requires forall j | 0 <= j < |at| && route(inputs'[|base|..][j]).Move? :: !IsPlace(a, at[j])
    ensures AllFaithful(route, b, inputs', base + more)
  {
    var was :| AllPlaced(route, a, inputs, base, was);
    var outs := base + more;
    forall i | 0 <= i < |outs|
      ensures FaithfulAt(route, b, inputs'[i], outs[i], (was + at)[i])
    {
      if i < |base| {
        FaithfulGrows(route, a, b, inputs[i], base[i], was[i]);
      } else {
        assert inputs'[|base|..][i - |base|] == inputs'[i];
      }
    }
    ApartAppend(route, a, inputs', was, at);
    assert AllPlaced(route, b, inputs', outs, was + at);
  }

  lemma TakenGrows(a: Files, b: Files, base: seq<Entry>, more: seq<Entry>, p: Place)
    requires Grows(a, b) && Taken(a, base, p)
    ensures Taken(b, base + more, p)
  {
    var i :| 0 <= i < |base| && PointsTo(a, base[i], p);
    assert PointsTo(b, (base + more)[i], p);
  }

  lemma TakenBehind(files: Files, base: seq<Entry>, more: seq<Entry>, p: Place)
    requires Taken(files, more, p)
    ensures Taken(files, base + more, p)
  {
    var i :| 0 <= i < |more| && PointsTo(files, more[i], p);
    assert PointsTo(files, (base + more)[|base| + i], p);
  }

  /** The new entries take the new places. */
  lemma AppendInPlace(route: Policy, a: Files, b: Files, inputs: seq<Entry>, inputs': seq<Entry>,
                      base: seq<Entry>, more: seq<Entry>, at: seq<Place>)
    requires Grows(a, b) && InPlace(route, a, inputs, base)
    requires inputs <= inputs' && |base| + |more| <= |inputs'|
    requires AllPlaced(route, b, inputs'[|base|..], more, at)
    requires forall j | 0 <= j < |at| && route(inputs'[|base|..][j]).Move? :: !IsPlace(a, at[j])
    requires forall p | IsPlace(b, p) && !IsPlace(a, p) :: Taken(b, more, p)
    ensures InPlace(route, b, inputs', base + more)
  {
    AppendFaithful(route, a, b, inputs, inputs', base, more, at);
    forall p | IsPlace(b, p)
      ensures Taken(b, base + more, p)
    {
      if IsPlace(a, p) { TakenGrows(a, b, base, more, p); } else { TakenBehind(b, base, more, p); }
    }
  }

  /** Inputs that wait change nothing in the table. */
  lemma InPlaceWaiting(route: Policy, a: Files, b: Files, inputs: seq<Entry>, more: seq<Entry>, outs: seq<Entry>)
    requires Grows(a, b) && InPlace(route, a, inputs, outs)
    requires forall p | IsPlace(b, p) :: IsPlace(a, p)
    ensures InPlace(route, b, inputs + more, outs)
  {
    var at :| AllPlaced(route, a, inputs, outs, at);
    AppendInPlace(route, a, b, inputs, inputs + more, outs, [], []);
    assert outs + [] == outs;
  }

  // ---------------------------------------------------------------- contexts

  /** What `AddBlobResultsToBase` adds for a context. */
  function Emit(c: Context): Entry {
    if c.hasValue then Entry(c.key, c.value) else Entry(c.key.(kind := Index), EncodeIndex(c.index))
  }

  function EmitAll(cs: seq<Context>): (r: seq<Entry>)
    ensures |r| == |cs|
    ensures forall i | 0 <= i < |r| :: r[i] == Emit(cs[i])
  {
    seq(|cs|, i requires 0 <= i < |cs| => Emit(cs[i]))
  }

  /** Context `c` waits for `e`: with the value of `e` itself, or for the handle of the record `r`. */
  ghost predicate Waits(route: Policy, number: nat, e: Entry, c: Context, rs: seq<BlobRecord>, k: nat) {
    if c.hasValue then Entry(c.key, c.value) == e && route(e).Keep?
    else
      && SameKey(e.key, c.key) && route(e).Move?
      && k < |rs| && rs[k] == BlobRecord(e.key.user, route(e).value)
      && c.index.file == number && c.index.oldFile == 0 && c.index.oldHandle == NO_HANDLE
  }

  /** The contexts wait, in order, for the inputs from `from` on; the k-th without a value for record k. */
  ghost predicate AllWait(route: Policy, number: nat, inputs: seq<Entry>, from: nat, cs: seq<Context>,
                          rs: seq<BlobRecord>) {
    && |inputs| == from + |cs|
    && forall j | 0 <= j < |cs| :: Waits(route, number, inputs[from + j], cs[j], rs, Owed(cs[..j]))
  }

  lemma AllWaitMore(route: Policy, number: nat, inputs: seq<Entry>, from: nat, cs: seq<Context>, rs: seq<BlobRecord>,
                    e: Entry, c: Context, more: seq<BlobRecord>)
    requires AllWait(route, number, inputs, from, cs, rs)
    requires Waits(route, number, e, c, rs + more, Owed(cs))
    ensures AllWait(route, number, inputs + [e], from, cs + [c], rs + more)
  {
    forall j | 0 <= j < |cs + [c]|
      ensures Waits(route, number, (inputs + [e])[from + j], (cs + [c])[j], rs + more, Owed((cs + [c])[..j]))
    {
      if j < |cs| {
        assert (cs + [c])[..j] == cs[..j];
        assert Waits(route, number, inputs[from + j], cs[j], rs, Owed(cs[..j]));
      } else {
        assert (cs + [c])[..j] == cs;
      }
    }
  }

  /** Where the j-th context finds its record. */
  ghost function PlacesOf(number: nat, cs: seq<Context>): (at: seq<Place>)
    ensures |at| == |cs|
    ensures forall j | 0 <= j < |cs| :: at[j] == Place(number, Owed(cs[..j]))
  {
    seq(|cs|, j requires 0 <= j < |cs| => Place(number, Owed(cs[..j])))
  }

  lemma PlacesApart(route: Policy, number: nat, inputs: seq<Entry>, cs: seq<Context>, rs: seq<BlobRecord>)
    requires AllWait(route, number, inputs, 0, cs, rs)
    ensures Apart(route, inputs, PlacesOf(number, cs))
  {
    forall i, j | 0 <= i < j < |cs| && route(inputs[i]).Move? && route(inputs[j]).Move?
      ensures Owed(cs[..i]) < Owed(cs[..j])
    {
      assert Waits(route, number, inputs[0 + i], cs[i], rs, Owed(cs[..i]));
      assert cs[..j][..i] == cs[..i];
      OwedGrows(cs[..j], i);
    }
  }

  lemma WaiterServed(route: Policy, files: Files, number: nat, e: Entry, cs: seq<Context>, j: nat)
    requires number in files && Owed(cs) == |files[number].rs| == |files[number].hs| && j < |cs|
    requires Waits(route, number, e, cs[j], files[number].rs, Owed(cs[..j]))
    ensures var (p, out) := (Place(number, Owed(cs[..j])), Emit(Resolved(files[number].hs, cs)[j]));
            FaithfulAt(route, files, e, out, p) && (!cs[j].hasValue ==> PointsTo(files, out, p))
  {
    ResolvedAt(files[number].hs, cs, j);
  }

  /** When the records are written the contexts that waited leave as faithful entries, one for each record. */
  lemma WaitersServed(route: Policy, a: Files, b: Files, number: nat, inputs: seq<Entry>, inputs': seq<Entry>,
                      base: seq<Entry>, cs: seq<Context>)
    requires InPlace(route, a, inputs, base) && inputs <= inputs'
    requires GrowsIn(a, b, number) && number in a && a[number].rs == []
    requires number in b && Owed(cs) == |b[number].rs| == |b[number].hs|
    requires AllWait(route, number, inputs', |base|, cs, b[number].rs)
    ensures InPlace(route, b, inputs', base + EmitAll(Resolved(b[number].hs, cs)))
  {
    var (rest, at) := (inputs'[|base|..], PlacesOf(number, cs));
    var outs := EmitAll(Resolved(b[number].hs, cs));
    forall j | 0 <= j < |cs|
      ensures FaithfulAt(route, b, rest[j], outs[j], at[j]) && (!cs[j].hasValue ==> PointsTo(b, outs[j], at[j]))
      ensures Waits(route, number, rest[0 + j], cs[j], b[number].rs, Owed(cs[..j]))
    {
      assert Waits(route, number, inputs'[|base| + j], cs[j], b[number].rs, Owed(cs[..j]));
      WaiterServed(route, b, number, rest[j], cs, j);
    }
    PlacesApart(route, number, rest, cs, b[number].rs);
    forall p | IsPlace(b, p) && !IsPlace(a, p)
      ensures Taken(b, outs, p)
    {
      var j := WhoWaits(cs, p.index);
      assert PointsTo(b, outs[j], p);
    }
    AppendInPlace(route, a, b, inputs, inputs', base, outs, at);
  }

  /** Some context waits for each of the records. */
  lemma {:induction false} WhoWaits(cs: seq<Context>, k: nat) returns (j: nat)
    requires k < Owed(cs)
    ensures j < |cs| && !cs[j].hasValue && Owed(cs[..j]) == k
  {
    var n := |cs| - 1;
    if k < Owed(cs[..n]) {
      j := WhoWaits(cs[..n], k);
      assert cs[..n][..j] == cs[..j];
    } else {
      j := n;
    }
  }

  /** A record written at once: its context leaves behind the entries already in the table. */
  lemma ServedAtOnce(route: Policy, a: Files, b: Files, number: nat, inputs: seq<Entry>, base: seq<Entry>, e: Entry,
                     c: Context)
    requires GrowsIn(a, b, number) && InPlace(route, a, inputs, base) && |base| == |inputs|
    requires number in a && number in b && |a[number].rs| == |a[number].hs|
    requires |b[number].rs| == |b[number].hs| == |a[number].rs| + 1
    requires !c.hasValue && Waits(route, number, e, c, b[number].rs, |a[number].rs|)
    ensures InPlace(route, b, inputs + [e], base + EmitAll([WithHandle(c, b[number].hs[|a[number].rs|])]))
  {
    var (p, outs) := (Place(number, |a[number].rs|), EmitAll([WithHandle(c, b[number].hs[|a[number].rs|])]));
    assert (inputs + [e])[|base|..] == [e];
    assert PointsTo(b, outs[0], p);
    assert AllPlaced(route, b, [e], outs, [p]);
    forall q | IsPlace(b, q) && !IsPlace(a, q)
      ensures Taken(b, outs, q)
    {
      assert q == p;
    }
    AppendInPlace(route, a, b, inputs, inputs + [e], base, outs, [p]);
  }

  /** A record that joins those that wait: either all still wait, or all have been written. */
  lemma WaitedFor(route: Policy, a: Files, b: Files, number: nat, inputs: seq<Entry>, base: seq<Entry>,
                  cs: seq<Context>, rs: seq<BlobRecord>, e: Entry, c: Context, r: BlobRecord)
    requires GrowsIn(a, b, number) && InPlace(route, a, inputs, base) && number in a && a[number].rs == []
    requires AllWait(route, number, inputs, |base|, cs, rs) && Owed(cs) == |rs|
    requires !c.hasValue && Waits(route, number, e, c, [r], 0) && number in b
    ensures AllWait(route, number, inputs + [e], |base|, cs + [c], rs + [r])
    ensures Owed(cs + [c]) == |rs| + 1
    ensures b[number].rs == [] ==> InPlace(route, b, inputs + [e], base)
    ensures b[number].rs == rs + [r] && |b[number].hs| == |rs| + 1 ==>
              InPlace(route, b, inputs + [e], base + EmitAll(Resolved(b[number].hs, cs + [c])))
  {
    AllWaitMore(route, number, inputs, |base|, cs, rs, e, c, [r]);
    assert (cs + [c])[..|cs|] == cs;
    if b[number].rs == [] {
      InPlaceWaiting(route, a, b, inputs, [e], base);
    }
    if b[number].rs == rs + [r] && |b[number].hs| == |rs| + 1 {
      WaitersServed(route, a, b, number, inputs, inputs + [e], base, cs + [c]);
    }
  }

  // ---------------------------------------------------------------- a table with a blob file under way

  function WithFile(contents: Files, number: nat, v: View): Files {
    contents[number := Contents(v.dict, v.written, v.hs)]
  }

  /** `view`, followed by what waits in the blob builder, stands for the inputs in order. */
  ghost predicate Progress(route: Policy, contents: Files, number: nat, v: View, inputs: seq<Entry>, view: seq<Entry>) {
    && ViewOk(v) && InPlace(route, WithFile(contents, number, v), inputs, view)
    && (if v.buffered then AllWait(route, number, inputs, |view|, v.cached, v.waiting) else |view| == |inputs|)
  }

  lemma AddedProgress(route: Policy, contents: Files, number: nat, v: View, v': View,
                      inputs: seq<Entry>, base: seq<Entry>, e: Entry, r: BlobRecord, c: Context, out: seq<Context>)
    requires Progress(route, contents, number, v, inputs, base) && ViewOk(v')
    requires !c.hasValue && Waits(route, number, e, c, [r], 0) && Added(v, v', r, c, out)
    ensures Progress(route, contents, number, v', inputs + [e], base + EmitAll(out))
    ensures v'.buffered ==> out == []
  {
    var (a, b) := (WithFile(contents, number, v), WithFile(contents, number, v'));
    GrowsAt(contents, number, a[number], b[number]);
    if v.buffered {
      WaitedFor(route, a, b, number, inputs, base, v.cached, v.waiting, e, c, r);
      assert base + EmitAll([]) == base;
    } else {
      ServedAtOnce(route, a, b, number, inputs, base, e, c);
    }
  }

  /** Finishing the file adds to the table what waited, behind what is there and before what is owed. */
  lemma ClosedProgress(route: Policy, contents: Files, number: nat, v: View, v': View,
                       inputs: seq<Entry>, base: seq<Entry>, owed: seq<Entry>, out: seq<Context>)
    requires Progress(route, contents, number, v, inputs, base + owed) && ViewOk(v') && Closed(v, v', out)
    requires v.buffered ==> owed == []
    ensures Progress(route, contents, number, v', inputs, (base + EmitAll(out)) + owed)
  {
    if v.buffered {
      assert base + owed == base && (base + EmitAll(out)) + owed == base + EmitAll(out);
      var (a, b) := (WithFile(contents, number, v), WithFile(contents, number, v'));
      GrowsAt(contents, number, a[number], b[number]);
      WaitersServed(route, a, b, number, inputs, inputs, base, v.cached);
    } else {
      assert base + EmitAll(out) == base;
    }
  }

  /** An entry that keeps its value waits behind the others. */
  lemma SmallProgress(route: Policy, contents: Files, number: nat, v: View, v': View,
                      inputs: seq<Entry>, base: seq<Entry>, e: Entry, c: Context)
    requires Progress(route, contents, number, v, inputs, base) && v.buffered
    requires ViewOk(v') && v' == v.(cached := v.cached + [c])
    requires c.hasValue && Entry(c.key, c.value) == e && route(e).Keep?
    ensures Progress(route, contents, number, v', inputs + [e], base)
  {
    var f := WithFile(contents, number, v);
    InPlaceWaiting(route, f, f, inputs, [e], base);
    AllWaitMore(route, number, inputs, |base|, v.cached, v.waiting, e, c, []);
    assert v.waiting + [] == v.waiting;
  }

  /** An entry that goes to the table at once. */
  lemma DirectInPlace(route: Policy, files: Files, inputs: seq<Entry>, base: seq<Entry>, e: Entry, out: Entry, p: Place)
    requires InPlace(route, files, inputs, base) && |base| == |inputs|
    requires !route(e).Move? && FaithfulAt(route, files, e, out, p)
    ensures InPlace(route, files, inputs + [e], base + [out])
  {
    assert (inputs + [e])[|base|..] == [e];
    assert AllPlaced(route, files, [e], [out], [p]);
    AppendInPlace(route, files, files, inputs, inputs + [e], base, [out], [p]);
  }

  // ---------------------------------------------------------------- the table builder

  datatype RunMode = Normal | ReadOnly | Fallback

  datatype Options = Options(mode: RunMode, minBlobSize: nat, levelMerge: bool, targetSize: nat, maxDict: nat,
                             trainBytes: nat)

  /** A finished blob file: its number of entries and its bytes. */
  datatype Finished = Finished(entries: nat, image: Bytes)

  ghost predicate FileGood(t: Tools, hasDict: bool, c: Contents, f: Finished) {
    && Lawful(t) && AllStorable(c.rs) && (!hasDict ==> c.dict == [])
    && f.image == Image(t, hasDict, c.dict, c.rs) && f.entries == |c.rs| && c.hs == Handles(t, c.dict, c.rs)
  }

  /** The finished files are numbered from `floor` up to `next` and hold what `contents` says. */
  ghost predicate AllSettled(t: Tools, hasDict: bool, floor: nat, next: nat, contents: Files,
                             finished: map<nat, Finished>) {
    && finished.Keys == contents.Keys
    && forall n | n in contents :: floor <= n < next && FileGood(t, hasDict, contents[n], finished[n])
  }

  lemma SettledMore(t: Tools, hasDict: bool, floor: nat, next: nat, contents: Files, finished: map<nat, Finished>,
                    n: nat, c: Contents, f: Finished)
    requires AllSettled(t, hasDict, floor, next, contents, finished) && floor <= n < next && FileGood(t, hasDict, c, f)
    ensures AllSettled(t, hasDict, floor, next, contents[n := c], finished[n := f])
  {}

  /** The size of a file up to the end of its records, which is what decides that it is full. */
  ghost function FrontSize(t: Tools, c: Contents): nat
    requires Lawful(t) && AllStorable(c.rs)
  {
    HEADER_SIZE_V2 + |Body(t, c.dict, c.rs)|
  }

  method Close(b: BlobFileBuilder) returns (contexts: seq<Context>, f: Finished, ghost v: View)
    requires b.Valid()
    modifies b
    ensures ViewOk(old(b.Now())) && ViewOk(v) && Closed(old(b.Now()), v, contexts)
    ensures FileGood(b.t, b.maxDict > 0, Contents(v.dict, v.written, v.hs), f)
    ensures old(|b.file|) <= FrontSize(b.t, Contents(v.dict, v.written, v.hs))
  {
    contexts := b.Finish();
    f := Finished(b.entries, b.file);
    v := b.Now();
  }

  /** Blob files at lower levels, and those marked, are merged into new ones. */
  predicate ShouldMerge(targetLevel: nat, metas: map<nat, FileMeta>, file: nat) {
    file in metas && (metas[file].level < targetLevel || metas[file].state == ToMerge)
  }

  /** Whether `Add` looks into the index that `e` holds. */
  predicate Opens(o: Options, targetLevel: nat, mergeLevel: nat, e: Entry) {
    e.key.kind == Index &&
    (o.mode == Fallback || (o.levelMerge && targetLevel >= mergeLevel && o.mode == RunMode.Normal))
  }

  /**
   * Which entries change: in fallback mode an index whose value can be read; in normal mode a value
   * that is large enough, and in level merge an index into a file that should be merged.
   */
  function RouteOf(o: Options, targetLevel: nat, mergeLevel: nat, metas: map<nat, FileMeta>, read: Reader,
                   e: Entry): Route {
    var v := UserValue(read, e);
    if v.None? then Keep
    else if e.key.kind == Value then
      if o.mode == RunMode.Normal && |e.value| >= o.minBlobSize then Move(e.value) else Keep
    else if !Opens(o, targetLevel, mergeLevel, e) then Keep
    else if o.mode == Fallback then Expand(v.value)
    else if ShouldMerge(targetLevel, metas, DecodeIndex(e.value).value.0.file) then Move(v.value)
    else Keep
  }

  /** Where an index that is looked into goes. */
  lemma RouteOfOpened(o: Options, targetLevel: nat, mergeLevel: nat, metas: map<nat, FileMeta>, read: Reader, e: Entry)
    requires Opens(o, targetLevel, mergeLevel, e) && DecodeIndex(e.value).Some?
    ensures var (route, v) := (RouteOf(o, targetLevel, mergeLevel, metas, read, e), UserValue(read, e));
            if v.None? then route == Keep
            else if o.mode == Fallback then route == Expand(v.value)
            else if ShouldMerge(targetLevel, metas, DecodeIndex(e.value).value.0.file) then route == Move(v.value)
            else route == Keep
  {}

  /** Every other entry stays, unless it is a value that is large enough. */
  lemma RouteOfOther(o: Options, targetLevel: nat, mergeLevel: nat, metas: map<nat, FileMeta>, read: Reader, e: Entry)
    requires !Opens(o, targetLevel, mergeLevel, e)
    ensures RouteOf(o, targetLevel, mergeLevel, metas, read, e) ==
            if e.key.kind == Value && o.mode == RunMode.Normal && |e.value| >= o.minBlobSize then Move(e.value)
            else Keep
  {}

  ghost function PolicyOf(o: Options, targetLevel: nat, mergeLevel: nat, metas: map<nat, FileMeta>,
                          read: Reader): Policy {
    (e: Entry) => RouteOf(o, targetLevel, mergeLevel, metas, read, e)
  }

  /** A route never changes the value a user reads. */
  ghost predicate SoundFor(read: Reader, route: Policy, e: Entry) {
    match route(e)
    case Keep => true
    case Expand(v) => UserValue(read, e) == Some(v)
    case Move(v) => UserValue(read, e) == Some(v)
  }

  lemma RouteSound(o: Options, targetLevel: nat, mergeLevel: nat, metas: map<nat, FileMeta>, read: Reader, e: Entry)
    ensures SoundFor(read, PolicyOf(o, targetLevel, mergeLevel, metas, read), e)
  {}

  /** The value went to a new blob file, and `out` holds the index of its record. */
  ghost predicate MovedTo(files: Files, e: Entry, v: Bytes, out: Entry) {
    SameKey(e.key, out.key) && exists p :: Stored(files, out, BlobRecord(e.key.user, v), p)
  }

  /**
   * What has to become of an entry, mode by mode. In fallback mode a value that can be read comes back
   * inline, whatever the level; in normal mode large values move out and, with level merge from the merge
   * level on, so do those in files that are known and below the target level or marked; all else stays.
   */
  ghost predicate AsAsked(o: Options, targetLevel: nat, mergeLevel: nat, metas: map<nat, FileMeta>, read: Reader,
                          files: Files, e: Entry, out: Entry) {
    var v := UserValue(read, e);
    match o.mode
    case ReadOnly => out == e
    case Fallback =>
      if e.key.kind == Index && v.Some? then out == Entry(InternalKey(e.key.user, e.key.seqno, Value), v.value)
      else out == e
    case Normal =>
      if e.key.kind == Value then
        if |e.value| >= o.minBlobSize then MovedTo(files, e, e.value, out) else out == e
      else if e.key.kind == Index && o.levelMerge && targetLevel >= mergeLevel && v.Some? then
        var f := DecodeIndex(e.value).value.0.file;
        if f in metas && (metas[f].level < targetLevel || metas[f].state == ToMerge) then
          MovedTo(files, e, v.value, out)
        else out == e
      else out == e
  }

  /** A faithful entry is what was asked for. */
  lemma FaithfulAsAsked(o: Options, targetLevel: nat, mergeLevel: nat, metas: map<nat, FileMeta>, read: Reader,
                        files: Files, e: Entry, out: Entry)
    requires Faithful(PolicyOf(o, targetLevel, mergeLevel, metas, read), files, e, out)
    ensures AsAsked(o, targetLevel, mergeLevel, metas, read, files, e, out)
  {
    var p :| FaithfulAt(PolicyOf(o, targetLevel, mergeLevel, metas, read), files, e, out, p);
  }

  /** What the caller adds; the key is None if `ParseInternalKey` refuses it. */
  datatype Raw = Raw(key: Option<InternalKey>, value: Bytes)

  function EntryOf(raw: Raw): Entry
    requires raw.key.Some?
  {
    Entry(raw.key.value, raw.value)
  }

  /** A key that does not parse, or an index that has to be read and does not decode, ends the run. */
  predicate Broken(o: Options, targetLevel: nat, mergeLevel: nat, raw: Raw) {
    raw.key.None? || (Opens(o, targetLevel, mergeLevel, EntryOf(raw)) && DecodeIndex(raw.value).None?)
  }

  /** That is: in fallback mode at every level, and in normal mode with level merge from the merge level on. */
  lemma BrokenIff(o: Options, targetLevel: nat, mergeLevel: nat, raw: Raw)
    ensures Broken(o, targetLevel, mergeLevel, raw) <==>
              raw.key.None? ||
              (raw.key.value.kind == Index && DecodeIndex(raw.value).None? &&
               (o.mode == Fallback || (o.mode == RunMode.Normal && o.levelMerge && targetLevel >= mergeLevel)))
  {}

  class TitanTableBuilder {
    const options: Options
    const t: Tools
    const read: Reader
    ghost const route: Policy
    const metas: map<nat, FileMeta>
    const targetLevel: nat
    const mergeLevel: nat
    /** File numbers from here on are new; no entry added to the table has an index into them. */
    const floor: nat
    var ok: bool
    var base: seq<Entry>
    var blob: BlobFileBuilder?
    var number: nat
    var nextNumber: nat
    var finished: map<nat, Finished>
    ghost var inputs: seq<Entry>
    ghost var contents: Files

    ghost predicate BlobOk()
      reads this, blob
    {
      blob != null ==>
        && blob.Valid() && blob.t == t && blob.maxDict == options.maxDict && blob.trainBytes == options.trainBytes
        && options.mode == RunMode.Normal && floor <= number < nextNumber && number !in contents
    }

    ghost predicate Sane()
      reads this, blob
    {
      && Lawful(t) && BlobOk() && route == PolicyOf(options, targetLevel, mergeLevel, metas, read)
      && floor <= nextNumber && AllSettled(t, options.maxDict > 0, floor, nextNumber, contents, finished)
    }

    predicate Unbuffered()
      reads this, blob
    {
      blob == null || !blob.buffered
    }

    ghost predicate Good(view: seq<Entry>)
      requires Sane()
      reads this, blob
    {
      if blob == null then InPlace(route, contents, inputs, view) && |view| == |inputs|
      else Progress(route, contents, number, blob.Now(), inputs, view)
    }

    ghost predicate Valid()
      reads this, blob
    {
      Sane() && Good(base)
    }

    constructor (options: Options, t: Tools, read: Reader, metas: map<nat, FileMeta>, targetLevel: nat,
                 mergeLevel: nat, nextNumber: nat)
      requires Lawful(t)
      ensures Valid() && ok && base == [] && inputs == [] && blob == null && finished == map[]
      ensures this.options == options && this.t == t && this.read == read && this.metas == metas
      ensures this.targetLevel == targetLevel && this.mergeLevel == mergeLevel
      ensures this.floor == nextNumber && this.nextNumber == nextNumber
    {
      this.options, this.t, this.read, this.metas := options, t, read, metas;
      this.targetLevel, this.mergeLevel, floor := targetLevel, mergeLevel, nextNumber;
      ok, base, blob, number, finished := true, [], null, 0, map[];
      this.nextNumber := nextNumber;
      route := PolicyOf(options, targetLevel, mergeLevel, metas, read);
      inputs, contents := [], map[];
      new;
      assert AllPlaced(route, contents, inputs, base, []);
    }

    method AddBlobResultsToBase(contexts: seq<Context>)
      modifies this`base
      ensures base == old(base) + EmitAll(contexts)
    {
      var i := 0;
      while i < |contexts|
        invariant i <= |contexts| && base == old(base) + EmitAll(contexts[..i])
      {
        base := base + [Emit(contexts[i])];
        assert contexts[..i + 1] == contexts[..i] + [contexts[i]];
        i := i + 1;
      }
      assert contexts[..i] == contexts;
    }

    /** A new blob file; `gap` numbers went to others meanwhile. */
    method OpenBlobFile(gap: nat)
      requires Valid() && blob == null && options.mode == RunMode.Normal
      modifies this`blob, this`number, this`nextNumber
      ensures Valid() && fresh(blob) && blob != null && nextNumber > old(nextNumber)
    {
      number := nextNumber + gap;
      nextNumber := number + 1;
      blob := new BlobFileBuilder(t, options.maxDict, options.trainBytes);
      assert inputs + [] == inputs;
      InPlaceWaiting(route, contents, WithFile(contents, number, blob.Now()), inputs, [], base);
    }

    /** Hands the record of `e` to the blob builder; `contexts` may now go to the table. */
    method PutRecord(r: BlobRecord, ctx: Context, ghost e: Entry) returns (contexts: seq<Context>)
      requires Valid() && blob != null && Storable(r) && !ctx.hasValue
      requires Waits(route, number, e, ctx, [r], 0)
      modifies this`inputs, blob
      ensures Sane() && inputs == old(inputs) + [e] && Good(base + EmitAll(contexts))
      ensures !Unbuffered() ==> contexts == []
    {
      ghost var v := blob.Now();
      contexts := blob.Add(r, ctx);
      AddedProgress(route, contents, number, v, blob.Now(), inputs, base, e, r, ctx, contexts);
      inputs := inputs + [e];
    }

    /** Finishes the builder and adds what waited in it to the table. */
    method ServeWaiters(ghost owed: seq<Context>) returns (f: Finished, ghost v: View)
      requires Sane() && blob != null && Good(base + EmitAll(owed)) && (!Unbuffered() ==> owed == [])
      modifies this`base, blob
      ensures !v.buffered && Progress(route, contents, number, v, inputs, base + EmitAll(owed))
      ensures FileGood(t, options.maxDict > 0, Contents(v.dict, v.written, v.hs), f)
      ensures old(|blob.file|) <= FrontSize(t, Contents(v.dict, v.written, v.hs))
      ensures AllSettled(t, options.maxDict > 0, floor, nextNumber, WithFile(contents, number, v),
                         finished[number := f])
    {
      ghost var was := blob.Now();
      var contexts;
      contexts, f, v := Close(blob);
      ClosedProgress(route, contents, number, was, v, inputs, base, EmitAll(owed), contexts);
      AddBlobResultsToBase(contexts);
      SettledMore(t, options.maxDict > 0, floor, nextNumber, contents, finished, number,
                  Contents(v.dict, v.written, v.hs), f);
    }

    /** The file joins the finished ones. */
    method Retire(f: Finished, ghost v: View, ghost view: seq<Entry>)
      requires Lawful(t) && floor <= nextNumber && route == PolicyOf(options, targetLevel, mergeLevel, metas, read)
      requires !v.buffered && Progress(route, contents, number, v, inputs, view)
      requires AllSettled(t, options.maxDict > 0, floor, nextNumber, WithFile(contents, number, v),
                          finished[number := f])
      modifies this`blob, this`finished, this`contents
      ensures Sane() && Good(view) && blob == null
      ensures number in contents && contents[number] == Contents(v.dict, v.written, v.hs)
    {
      finished := finished[number := f];
      contents := WithFile(contents, number, v);
      blob := null;
    }

    /** Closes the blob file under way, if any; `owed` are contexts its caller still has to add. */
    method FinishBlobFile(ghost owed: seq<Context>)
      requires Sane() && Good(base + EmitAll(owed)) && (!Unbuffered() ==> owed == [])
      modifies this`base, this`blob, this`finished, this`contents, blob
      ensures Sane() && Good(base + EmitAll(owed)) && blob == null
      ensures old(blob) != null ==>
                && number in contents && AllStorable(contents[number].rs)
                && old(if blob == null then 0 else |blob.file|) <= FrontSize(t, contents[number])
    {
      if blob != null {
        var f, v := ServeWaiters(owed);
        Retire(f, v, base + EmitAll(owed));
      }
    }

    /** Hands a value to the blob file under way, or to a new one. */
    method StoreValue(key: InternalKey, value: Bytes, gap: nat, ghost e: Entry) returns (contexts: seq<Context>)
      requires Valid() && options.mode == RunMode.Normal && Storable(BlobRecord(key.user, value))
      requires key == e.key && route(e) == Move(value)
      modifies this`blob, this`number, this`nextNumber, this`inputs, blob
      ensures Sane() && inputs == old(inputs) + [e] && Good(base + EmitAll(contexts))
      ensures blob != null && (blob == old(blob) || fresh(blob)) && (!Unbuffered() ==> contexts == [])
    {
      if blob == null {
        OpenBlobFile(gap);
      }
      var ctx := Context(key, BlobIndex(number, NO_HANDLE, 0, NO_HANDLE), false, []);
      contexts := PutRecord(BlobRecord(key.user, value), ctx, e);
    }

    /** Stores the value, and closes the file if it has reached its target size. */
    method StoreAndClose(key: InternalKey, value: Bytes, gap: nat, ghost e: Entry) returns (contexts: seq<Context>)
      requires Valid() && options.mode == RunMode.Normal && Storable(BlobRecord(key.user, value))
      requires key == e.key && route(e) == Move(value)
      modifies this`base, this`blob, this`number, this`nextNumber, this`inputs, this`finished, this`contents, blob
      ensures Sane() && inputs == old(inputs) + [e] && Good(base + EmitAll(contexts))
      ensures (blob == old(blob) || blob == null || fresh(blob)) && (!Unbuffered() ==> contexts == []) && FullOnly()
    {
      contexts := StoreValue(key, value, gap, e);
      if |blob.file| >= options.targetSize {
        FinishBlobFile(contexts);
      }
    }

    /** A file under way is below its target size, and one that was just closed has reached it. */
    ghost predicate FullOnly()
      requires Lawful(t)
      reads this, blob
    {
      if blob != null then |blob.file| < options.targetSize
      else
        number in contents && AllStorable(contents[number].rs) && FrontSize(t, contents[number]) >= options.targetSize
    }

    /** Moves a value to a blob file; a file that is large enough is closed. */
    method AddBlob(key: InternalKey, value: Bytes, gap: nat, ghost e: Entry)
      requires Valid() && ok && options.mode == RunMode.Normal && Storable(BlobRecord(key.user, value))
      requires key == e.key && route(e) == Move(value)
      modifies this, blob
      ensures Valid() && ok && inputs == old(inputs) + [e] && (blob == old(blob) || blob == null || fresh(blob))
      ensures FullOnly()
    {
      var contexts := StoreAndClose(key, value, gap, e);
      AddBlobResultsToBase(contexts);
    }

    /** Adds an entry as it is: to the table, or behind the entries that wait. */
    method AddBase(e: Entry)
      requires Valid() && ok && route(e).Keep?
      modifies this`base, this`inputs, blob
      ensures Valid() && inputs == old(inputs) + [e]
    {
      if Unbuffered() {
        ghost var files := if blob == null then contents else WithFile(contents, number, blob.Now());
        DirectInPlace(route, files, inputs, base, e, e, Place(0, 0));
        base := base + [e];
      } else {
        ghost var v := blob.Now();
        var ctx := Context(e.key, BlobIndex(0, NO_HANDLE, 0, NO_HANDLE), true, e.value);
        blob.AddSmall(ctx);
        SmallProgress(route, contents, number, v, blob.Now(), inputs, base, e, ctx);
      }
      inputs := inputs + [e];
    }

    /** In fallback mode a value comes back inline if it can be read, else its index stays. */
    method AddFallback(e: Entry, x: BlobIndex)
      requires Valid() && ok && options.mode == Fallback && e.key.kind == Index
      requires DecodeIndex(e.value).Some? && DecodeIndex(e.value).value.0 == x
      requires UserValue(read, e).Some? ==> route(e) == Expand(UserValue(read, e).value)
      requires UserValue(read, e).None? ==> route(e) == Keep
      modifies this`base, this`inputs
      ensures Valid() && inputs == old(inputs) + [e]
    {
      var out := match read(x.file, x.handle)
        case Some(r) => Entry(e.key.(kind := Value), r.value)
        case None => e;
      DirectInPlace(route, contents, inputs, base, e, out, Place(0, 0));
      base := base + [out];
      inputs := inputs + [e];
    }

    /**
     * Every entry is taken up, in order, unless its key does not parse or an index that has to be read
     * does not decode; from then on nothing changes.
     */
    method Add(raw: Raw, gap: nat)
      requires Valid()
      requires raw.key.Some? && route(EntryOf(raw)).Move? ==>
                 Storable(BlobRecord(raw.key.value.user, route(EntryOf(raw)).value))
      modifies this, blob
      ensures Valid() && (blob == old(blob) || blob == null || fresh(blob))
      ensures ok == (old(ok) && !Broken(options, targetLevel, mergeLevel, raw))
      ensures inputs == if ok then old(inputs) + [EntryOf(raw)] else old(inputs)
      ensures !ok ==> base == old(base) && blob == old(blob) && finished == old(finished)
    {
      if !ok { return; }
      if raw.key.None? {
        ok := false;
        return;
      }
      AddEntry(EntryOf(raw), gap);
    }

    /** The same with the key parsed. */
    method AddEntry(e: Entry, gap: nat)
      requires Valid()
      requires route(e).Move? ==> Storable(BlobRecord(e.key.user, route(e).value))
      modifies this, blob
      ensures Valid() && (blob == old(blob) || blob == null || fresh(blob))
      ensures ok == (old(ok) && !(Opens(options, targetLevel, mergeLevel, e) && DecodeIndex(e.value).None?))
      ensures inputs == if ok then old(inputs) + [e] else old(inputs)
      ensures !ok ==> base == old(base) && blob == old(blob) && finished == old(finished)
    {
      if !ok { return; }
      if Opens(options, targetLevel, mergeLevel, e) && DecodeIndex(e.value).None? {
        ok := false;
        return;
      }
      if Opens(options, targetLevel, mergeLevel, e) {
        AddOpened(e, DecodeIndex(e.value).value.0, gap);
      } else {
        RouteOfOther(options, targetLevel, mergeLevel, metas, read, e);
        if e.key.kind == Value && options.mode == RunMode.Normal && |e.value| >= options.minBlobSize {
          AddBlob(e.key, e.value, gap, e);
        } else {
          AddBase(e);
        }
      }
    }

    /** An index whose value may have to go elsewhere. */
    method AddOpened(e: Entry, x: BlobIndex, gap: nat)
      requires Valid() && ok && Opens(options, targetLevel, mergeLevel, e)
      requires DecodeIndex(e.value).Some? && DecodeIndex(e.value).value.0 == x
      requires route(e).Move? ==> Storable(BlobRecord(e.key.user, route(e).value))
      modifies this, blob
      ensures Valid() && ok && inputs == old(inputs) + [e] && (blob == old(blob) || blob == null || fresh(blob))
    {
      RouteOfOpened(options, targetLevel, mergeLevel, metas, read, e);
      if options.mode == Fallback {
        AddFallback(e, x);
      } else if ShouldMerge(targetLevel, metas, x.file) {
        AddMerged(e, x, gap);
      } else {
        AddBase(e);
      }
    }

    /** In level merge a value moves to a new blob file if it can be read, else its index stays. */
    method AddMerged(e: Entry, x: BlobIndex, gap: nat)
      requires Valid() && ok && options.mode == RunMode.Normal && e.key.kind == Index
      requires DecodeIndex(e.value).Some? && DecodeIndex(e.value).value.0 == x
      requires UserValue(read, e).Some? ==> route(e) == Move(UserValue(read, e).value)
      requires UserValue(read, e).None? ==> route(e) == Keep
      requires route(e).Move? ==> Storable(BlobRecord(e.key.user, route(e).value))
      modifies this, blob
      ensures Valid() && ok && inputs == old(inputs) + [e] && (blob == old(blob) || blob == null || fresh(blob))
    {
      var r := read(x.file, x.handle);
      if r.Some? {
        AddBlob(e.key, r.value.value, gap, e);
      } else {
        AddBase(e);
      }
    }

    /**
     * The finished table holds one entry for every input, in order, with the same meaning; each record
     * of a new blob file has one of them.
     */
    method Finish()
      requires Valid()
      modifies this`base, this`blob, this`finished, this`contents, blob
      ensures blob == null && Sane() && |base| == |inputs|
      ensures InPlace(route, contents, inputs, base)
      ensures Readable(finished, nextNumber) && (forall i | 0 <= i < |inputs| :: Below(floor, inputs[i])) ==>
                && Meant(inputs) && PlacedOnce(inputs)
    {
      assert base + EmitAll([]) == base;
      FinishBlobFile([]);
      assert base + EmitAll([]) == base;
      if Readable(finished, nextNumber) && forall i | 0 <= i < |inputs| :: Below(floor, inputs[i]) {
        AllMeant();
        AllPlacedOnce();
      }
    }

    /** Entry by entry the table means what was added. */
    ghost predicate Meant(es: seq<Entry>)
      reads this
    {
      |base| == |es| && forall i | 0 <= i < |es| :: SameMeaning(read, After(t, finished, read), es[i], base[i])
    }

    /** Each record of a new file is referred to once, and the entries that moved hold different bytes. */
    ghost predicate PlacedOnce(es: seq<Entry>)
      reads this
    {
      && |base| == |es|
      && (forall n, k: nat | n in finished && k < finished[n].entries :: ReferredOnce(base, Place(n, k)))
      && (forall i, j | 0 <= i < j < |es| && route(es[i]).Move? && route(es[j]).Move? :: base[i].value != base[j].value)
    }

    lemma AllMeant()
      requires blob == null && Sane() && Good(base) && Readable(finished, nextNumber)
      requires forall i | 0 <= i < |inputs| :: Below(floor, inputs[i])
      ensures Meant(inputs)
    {
      var at :| AllPlaced(route, contents, inputs, base, at);
      forall i | 0 <= i < |inputs|
        ensures SameMeaning(read, After(t, finished, read), inputs[i], base[i])
      {
        assert FaithfulAt(route, contents, inputs[i], base[i], at[i]);
        RouteSound(options, targetLevel, mergeLevel, metas, read, inputs[i]);
        MeaningKept(t, options.maxDict > 0, read, route, floor, nextNumber, contents, finished, inputs[i], base[i]);
      }
    }

    lemma AllPlacedOnce()
      requires blob == null && Sane() && Good(base) && Readable(finished, nextNumber)
      requires forall i | 0 <= i < |inputs| :: Below(floor, inputs[i])
      ensures PlacedOnce(inputs)
    {
      var hasDict := options.maxDict > 0;
      forall n, k: nat | n in finished && k < finished[n].entries
        ensures ReferredOnce(base, Place(n, k))
      {
        EachReferredOnce(t, hasDict, route, floor, nextNumber, contents, finished, inputs, base, Place(n, k));
      }
      forall i, j | 0 <= i < j < |inputs| && route(inputs[i]).Move? && route(inputs[j]).Move?
        ensures base[i].value != base[j].value
      {
        MovedApart(t, hasDict, route, floor, nextNumber, contents, finished, inputs, base, i, j);
      }
    }
  }

  // ---------------------------------------------------------------- what readers see

  /** Reading once the finished files are there too. */
  function After(t: Tools, finished: map<nat, Finished>, read: Reader): Reader {
    (n: nat, h: BlobHandle) => if n in finished then GetRecord(t, finished[n].image, h) else read(n, h)
  }

  /** Offsets and file numbers fit 64 bits. */
  ghost predicate Readable(finished: map<nat, Finished>, next: nat) {
    next <= U64 && forall n | n in finished :: |finished[n].image| < U64
  }

  /** An index in the entry points to a file numbered below `floor`. */
  predicate Below(floor: nat, e: Entry) {
    e.key.kind == Index && DecodeIndex(e.value).Some? ==> DecodeIndex(e.value).value.0.file < floor
  }

  /** Same key and sequence number, same value for the user, and untouched where there is no value. */
  ghost predicate SameMeaning(read: Reader, read': Reader, e: Entry, out: Entry) {
    && SameKey(e.key, out.key)
    && UserValue(read', out) == UserValue(read, e)
    && (UserValue(read, e).None? ==> out == e)
  }

  lemma StoredIndexOk(t: Tools, hasDict: bool, c: Contents, f: Finished, n: nat, i: nat)
    requires FileGood(t, hasDict, c, f) && i < |c.rs| && |f.image| < U64 && n < U64
    ensures IndexOk(BlobIndex(n, c.hs[i], 0, NO_HANDLE))
  {
    HandlePlace(t, c.dict, c.rs, i);
    BodyLength(t, c.dict, c.rs);
  }

  /** An index into a new file decodes to the file and handle it was given for. */
  lemma PointerDecodes(t: Tools, hasDict: bool, contents: Files, finished: map<nat, Finished>, out: Entry, p: Place)
    requires PointsTo(contents, out, p) && p.file in finished
    requires FileGood(t, hasDict, contents[p.file], finished[p.file])
    requires |finished[p.file].image| < U64 && p.file < U64
    ensures var h := contents[p.file].hs[p.index];
            DecodeIndex(out.value) == Some((BlobIndex(p.file, h, 0, NO_HANDLE), [])) && h.index == p.index
  {
    var (c, f) := (contents[p.file], finished[p.file]);
    StoredIndexOk(t, hasDict, c, f, p.file, p.index);
    IndexDecodes(BlobIndex(p.file, c.hs[p.index], 0, NO_HANDLE));
  }

  lemma StoredResolves(t: Tools, hasDict: bool, read: Reader, contents: Files, finished: map<nat, Finished>,
                       out: Entry, r: BlobRecord, p: Place)
    requires Stored(contents, out, r, p) && p.file in finished
    requires FileGood(t, hasDict, contents[p.file], finished[p.file])
    requires |finished[p.file].image| < U64 && p.file < U64
    ensures UserValue(After(t, finished, read), out) == Some(r.value)
  {
    var c := contents[p.file];
    PointerDecodes(t, hasDict, contents, finished, out, p);
    HandleResolves(t, hasDict, c.dict, c.rs, p.index);
    ReadsThrough(After(t, finished, read), out, BlobIndex(p.file, c.hs[p.index], 0, NO_HANDLE), r);
  }

  lemma ReadsThrough(read: Reader, e: Entry, x: BlobIndex, r: BlobRecord)
    requires e.key.kind == Index && DecodeIndex(e.value) == Some((x, [])) && read(x.file, x.handle) == Some(r)
    ensures UserValue(read, e) == Some(r.value)
  {}

  lemma MeaningKept(t: Tools, hasDict: bool, read: Reader, route: Policy, floor: nat, next: nat,
                    contents: Files, finished: map<nat, Finished>, e: Entry, out: Entry)
    requires AllSettled(t, hasDict, floor, next, contents, finished) && Readable(finished, next)
    requires Faithful(route, contents, e, out) && SoundFor(read, route, e) && Below(floor, e)
    ensures SameMeaning(read, After(t, finished, read), e, out)
  {
    if route(e).Move? {
      var p :| FaithfulAt(route, contents, e, out, p);
      StoredResolves(t, hasDict, read, contents, finished, out, BlobRecord(e.key.user, route(e).value), p);
    }
  }

  // ---------------------------------------------------------------- one reference for each record

  /** The index in the entry names the file and the record number of `p`. */
  predicate RefersTo(e: Entry, p: Place) {
    && e.key.kind == Index && DecodeIndex(e.value).Some?
    && DecodeIndex(e.value).value.0.file == p.file && DecodeIndex(e.value).value.0.handle.index == p.index
  }

  /** One entry refers to `p`, and no other. */
  ghost predicate ReferredOnce(outs: seq<Entry>, p: Place) {
    exists i :: 0 <= i < |outs| && RefersTo(outs[i], p) && forall j | 0 <= j < |outs| && RefersTo(outs[j], p) :: j == i
  }

  lemma PointerRefers(t: Tools, hasDict: bool, contents: Files, finished: map<nat, Finished>, out: Entry, p: Place)
    requires PointsTo(contents, out, p) && p.file in finished
    requires FileGood(t, hasDict, contents[p.file], finished[p.file])
    requires |finished[p.file].image| < U64 && p.file < U64
    ensures RefersTo(out, p)
  {
    PointerDecodes(t, hasDict, contents, finished, out, p);
  }

  /** An entry that refers to a new record is one whose value moved there. */
  lemma ReferrerMoved(t: Tools, hasDict: bool, route: Policy, floor: nat, next: nat,
                      contents: Files, finished: map<nat, Finished>, e: Entry, out: Entry, at: Place, p: Place)
    requires AllSettled(t, hasDict, floor, next, contents, finished) && Readable(finished, next) && Below(floor, e)
    requires FaithfulAt(route, contents, e, out, at) && IsPlace(contents, p) && RefersTo(out, p)
    ensures route(e).Move? && at == p
  {
    if route(e).Move? { PointerDecodes(t, hasDict, contents, finished, out, at); }
  }

  /** Each record of a new blob file is referred to by one entry of the table, and no other. */
  lemma EachReferredOnce(t: Tools, hasDict: bool, route: Policy, floor: nat, next: nat,
                         contents: Files, finished: map<nat, Finished>, inputs: seq<Entry>, outs: seq<Entry>, p: Place)
    requires AllSettled(t, hasDict, floor, next, contents, finished) && Readable(finished, next)
    requires InPlace(route, contents, inputs, outs) && IsPlace(contents, p)
    requires forall i | 0 <= i < |inputs| :: Below(floor, inputs[i])
    ensures ReferredOnce(outs, p)
  {
    var at :| AllPlaced(route, contents, inputs, outs, at);
    assert Taken(contents, outs, p);
    var i :| 0 <= i < |outs| && PointsTo(contents, outs[i], p);
    PointerRefers(t, hasDict, contents, finished, outs[i], p);
    forall j | 0 <= j < |outs| && RefersTo(outs[j], p)
      ensures route(inputs[j]).Move? && at[j] == p
    {
      ReferrerMoved(t, hasDict, route, floor, next, contents, finished, inputs[j], outs[j], at[j], p);
    }
    OneReferrer(route, inputs, outs, at, i, p);
  }

  lemma OneReferrer(route: Policy, inputs: seq<Entry>, outs: seq<Entry>, at: seq<Place>, i: nat, p: Place)
    requires Apart(route, inputs, at) && |at| == |outs| && i < |outs| && RefersTo(outs[i], p)
    requires forall j | 0 <= j < |outs| && RefersTo(outs[j], p) :: route(inputs[j]).Move? && at[j] == p
    ensures ReferredOnce(outs, p)
  {
    forall j | 0 <= j < |outs| && RefersTo(outs[j], p)
      ensures j == i
    {
      assert at[j] == at[i];
    }
  }

  /** Two entries whose values moved hold different bytes. */
  lemma MovedApart(t: Tools, hasDict: bool, route: Policy, floor: nat, next: nat,
                   contents: Files, finished: map<nat, Finished>, inputs: seq<Entry>, outs: seq<Entry>, i: nat, j: nat)
    requires AllSettled(t, hasDict, floor, next, contents, finished) && Readable(finished, next)
    requires AllFaithful(route, contents, inputs, outs) && i < j < |outs| <= |inputs|
    requires route(inputs[i]).Move? && route(inputs[j]).Move?
    ensures outs[i].value != outs[j].value
  {
    var at :| AllPlaced(route, contents, inputs, outs, at);
    PointerDecodes(t, hasDict, contents, finished, outs[i], at[i]);
    PointerDecodes(t, hasDict, contents, finished, outs[j], at[j]);
    assert at[i] != at[j];
  }

  // ---------------------------------------------------------------- whole runs

  predicate Breaks(b: TitanTableBuilder, raw: Raw) { Broken(b.options, b.targetLevel, b.mergeLevel, raw) }

  ghost predicate FitAt(b: TitanTableBuilder, e: Entry) {
    Below(b.floor, e) && (b.route(e).Move? ==> Storable(BlobRecord(e.key.user, b.route(e).value)))
  }

  ghost predicate Fit(b: TitanTableBuilder, es: seq<Raw>) {
    forall i | 0 <= i < |es| && es[i].key.Some? :: FitAt(b, EntryOf(es[i]))
  }

  /** The first `n` entries are taken up, all of them or all before the first that breaks the run. */
  ghost predicate TakenUp(b: TitanTableBuilder, es: seq<Raw>, n: nat) {
    && n <= |es| && (forall i | 0 <= i < n :: !Breaks(b, es[i])) && (n < |es| ==> Breaks(b, es[n]))
  }

  /** After `i` calls: all were taken up, or the last one broke the run. */
  ghost predicate SoFar(b: TitanTableBuilder, es: seq<Raw>, i: nat, ok: bool, inputs: seq<Entry>) {
    && i <= |es| && |inputs| <= i
    && (forall j | 0 <= j < |inputs| :: !Breaks(b, es[j]) && inputs[j] == EntryOf(es[j]))
    && (if ok then |inputs| == i else |inputs| < i && Breaks(b, es[|inputs|]))
  }

  lemma SoFarStep(b: TitanTableBuilder, es: seq<Raw>, i: nat, inputs: seq<Entry>)
    requires SoFar(b, es, i, true, inputs) && i < |es|
    ensures SoFar(b, es, i + 1, !Breaks(b, es[i]), if Breaks(b, es[i]) then inputs else inputs + [EntryOf(es[i])])
  {}

  method AddAll(b: TitanTableBuilder, es: seq<Raw>, gaps: seq<nat>)
    requires b.Valid() && b.ok && b.inputs == [] && b.blob == null && |gaps| == |es| && Fit(b, es)
    modifies b
    ensures b.Valid() && (b.blob == null || fresh(b.blob))
    ensures TakenUp(b, es, |b.inputs|) && b.ok == (|b.inputs| == |es|)
    ensures forall i | 0 <= i < |b.inputs| :: b.inputs[i] == EntryOf(es[i])
  {
    var i := 0;
    while i < |es| && b.ok
      invariant b.Valid() && (b.blob == null || fresh(b.blob))
      invariant SoFar(b, es, i, b.ok, b.inputs)
    {
      ghost var was := b.inputs;
      assert es[i].key.Some? ==> FitAt(b, EntryOf(es[i]));
      b.Add(es[i], gaps[i]);
      SoFarStep(b, es, i, was);
      i := i + 1;
    }
  }

  lemma AllAsAsked(b: TitanTableBuilder)
    requires b.route == PolicyOf(b.options, b.targetLevel, b.mergeLevel, b.metas, b.read)
    requires AllFaithful(b.route, b.contents, b.inputs, b.base)
    ensures |b.base| <= |b.inputs|
    ensures forall i | 0 <= i < |b.base| ::
              AsAsked(b.options, b.targetLevel, b.mergeLevel, b.metas, b.read, b.contents, b.inputs[i], b.base[i])
  {
    var at :| AllPlaced(b.route, b.contents, b.inputs, b.base, at);
    forall i | 0 <= i < |b.base|
      ensures AsAsked(b.options, b.targetLevel, b.mergeLevel, b.metas, b.read, b.contents, b.inputs[i], b.base[i])
    {
      assert FaithfulAt(b.route, b.contents, b.inputs[i], b.base[i], at[i]);
      FaithfulAsAsked(b.options, b.targetLevel, b.mergeLevel, b.metas, b.read, b.contents, b.inputs[i], b.base[i]);
    }
  }

  ghost function EntriesOf(es: seq<Raw>): (r: seq<Entry>)
    requires forall i | 0 <= i < |es| :: es[i].key.Some?
    ensures |r| == |es| && forall i | 0 <= i < |r| :: r[i] == EntryOf(es[i])
  {
    seq(|es|, i requires 0 <= i < |es| => EntryOf(es[i]))
  }

  /**
   * A whole run of `Add` calls on a new builder, then `Finish`. The table holds one entry for each
   * entry added before the first broken one, in the same order and with the same meaning; each record
   * of the new blob files is referred to by one entry of the table, and no other.
   */
  method BuildTable(b: TitanTableBuilder, es: seq<Raw>, gaps: seq<nat>)
    requires b.Valid() && b.ok && b.inputs == [] && b.blob == null && |gaps| == |es| && Fit(b, es)
    modifies b
    ensures TakenUp(b, es, |b.base|) && b.ok == (|b.base| == |es|)
    ensures b.route == PolicyOf(b.options, b.targetLevel, b.mergeLevel, b.metas, b.read)
    ensures InPlace(b.route, b.contents, EntriesOf(es[..|b.base|]), b.base)
    ensures forall i | 0 <= i < |b.base| ::
              AsAsked(b.options, b.targetLevel, b.mergeLevel, b.metas, b.read, b.contents, EntryOf(es[i]), b.base[i])
    ensures Readable(b.finished, b.nextNumber) ==>
              b.Meant(EntriesOf(es[..|b.base|])) && b.PlacedOnce(EntriesOf(es[..|b.base|]))
  {
    AddAll(b, es, gaps);
    b.Finish();
    forall i | 0 <= i < |b.base| ensures b.inputs[i] == EntryOf(es[i]) && Below(b.floor, b.inputs[i]) {
      assert !Breaks(b, es[i]) && FitAt(b, EntryOf(es[i]));
    }
    assert b.inputs == EntriesOf(es[..|b.base|]);
    AllAsAsked(b);
  }
}
