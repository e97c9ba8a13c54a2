/** Live data size and state of one blob file, under callbacks that may arrive out of order. */
module LiveData {
  import opened Wrappers
  import opened BlobFileMeta
  import opened Coding

  // ---------------------------------------------------------------- file states

  datatype FileEvent =
    | FlushCompleted | CompactionCompleted | GCCompleted | GCBegin | GCOutput
    | FlushOrCompactionOutput | DbRestart | Delete | NeedMerge | Reset

  /** What `FileStateTransit` asserts. */
  predicate Allowed(s: FileState, e: FileEvent) {
    match e
    case FlushCompleted => s == PendingLSM || s == PendingGC || s == Normal || s == BeingGC || s == Obsolete
    case GCCompleted => s == Obsolete || s == PendingGC || s == BeingGC
    case CompactionCompleted => s == PendingLSM
    case GCBegin => s == Normal
    case GCOutput => s == Init
    case FlushOrCompactionOutput => s == Init
    case DbRestart => s == Init
    case Delete => s != Obsolete
    case NeedMerge => s == ToMerge || s == Normal
    case Reset => true
  }

  function Transit(s: FileState, e: FileEvent): FileState
    requires Allowed(s, e)
  {
    match e
    case FlushCompleted => if s == PendingLSM then Normal else s
    case GCCompleted => if s == Obsolete then Obsolete else Normal
    case CompactionCompleted => Normal
    case GCBegin => BeingGC
    case GCOutput => PendingGC
    case FlushOrCompactionOutput => PendingLSM
    case DbRestart => Normal
    case Delete => Obsolete
    case NeedMerge => ToMerge
    case Reset => Normal
  }

  // ---------------------------------------------------------------- callbacks

  /** What a callback does to a file; `fault` is a failed assertion, a clamp or a wrap-around. */
  datatype Outcome = Outcome(meta: FileMeta, noLiveData: bool, fault: bool)

  /** `UpdateLiveDataSize`: clamped at zero. */
  function UpdateLive(f: FileMeta, delta: int): (r: (FileMeta, bool))
    ensures r.1 <==> f.live + delta >= 0
    ensures r.0 == f.(live := if r.1 then f.live + delta else 0)
  {
    if f.live + delta < 0 then (f.(live := 0), false) else (f.(live := f.live + delta), true)
  }

  /** The created size less what a pending file owes; as an unsigned number it wraps below zero. */
  function Settle(f: FileMeta, size: int, e: FileEvent): Outcome
    requires f.state == PendingLSM && (e == FlushCompleted || e == CompactionCompleted)
  {
    var rest := size - f.live;
    var live: nat := if rest >= 0 then rest else rest % U64;
    Outcome(f.(live := live, state := Transit(f.state, e)), live == 0, rest < 0)
  }

  /** `OnFlushCompleted` for one file. */
  function AfterFlush(f: FileMeta, delta: int): Outcome {
    if f.state != PendingLSM then Outcome(f, false, false)
    else if delta < 0 then Settle(f, 0, FlushCompleted).(fault := true)
    else Settle(f, delta, FlushCompleted)
  }

  /** `OnCompactionCompleted` for one file; `crowded` is whether level merge wants it merged. */
  function AfterCompaction(f: FileMeta, delta: int, levelMerge: bool, crowded: bool): Outcome {
    if f.state == PendingLSM then
      if delta <= 0 then Outcome(UpdateLive(f, -delta).0, false, false)
      else Settle(f, delta, CompactionCompleted)
    else if f.state == Normal || f.state == ToMerge then
      var (g, ok) := UpdateLive(f, delta);
      var marked := if levelMerge && g.live != 0 && crowded then g.(state := Transit(g.state, NeedMerge)) else g;
      Outcome(marked, levelMerge && g.live == 0, delta > 0 || !ok)
    else Outcome(f, false, false)
  }

  // ---------------------------------------------------------------- any order of arrival

  /** A creation event, from a flush or a compaction, or a compaction that dropped `size` bytes. */
  datatype Change = Created(size: nat, byFlush: bool) | Shrunk(size: nat)

  function Callback(f: FileMeta, c: Change, levelMerge: bool, crowded: bool): Outcome {
    match c
    case Created(size, byFlush) =>
      if byFlush then AfterFlush(f, size) else AfterCompaction(f, size, levelMerge, crowded)
    case Shrunk(size) => AfterCompaction(f, 0 - size, levelMerge, crowded)
  }

  function Shrinkage(cs: seq<Change>): nat {
    if cs == [] then 0
    else Shrinkage(cs[..|cs| - 1]) + SizeIn(cs[|cs| - 1])
  }

  function SizeIn(c: Change): nat {
    match c case Shrunk(size) => size case Created(_, _) => 0
  }

  function CallbackAll(f: FileMeta, cs: seq<Change>): Outcome {
    if cs == [] then Outcome(f, false, false)
    else
      var before := CallbackAll(f, cs[..|cs| - 1]);
      var after := Callback(before.meta, cs[|cs| - 1], false, false);
      after.(fault := before.fault || after.fault)
  }

  /** Before its creation event a pending file collects what it owes. */
  lemma {:induction false} DebtsCollect(f: FileMeta, cs: seq<Change>)
    requires f.state == PendingLSM && f.live == 0 && forall i | 0 <= i < |cs| :: cs[i].Shrunk?
    ensures CallbackAll(f, cs) == Outcome(f.(live := Shrinkage(cs)), false, false)
  {
    if cs != [] { DebtsCollect(f, cs[..|cs| - 1]); }
  }

  /**
   * One creation event of `S` bytes among compaction callbacks that drop at most `S` bytes in all:
   * in whatever order they arrive no step clamps and the file ends normal with the exact difference,
   * unless it was a compaction that reported no bytes at all, which leaves the file pending.
   */
  lemma {:induction false} AnyOrder(f: FileMeta, cs: seq<Change>, k: nat)
    requires f.state == PendingLSM && f.live == 0 && k < |cs| && cs[k].Created?
    requires (forall i | 0 <= i < |cs| && i != k :: cs[i].Shrunk?) && Shrinkage(cs) <= cs[k].size
    ensures var r := CallbackAll(f, cs);
            && !r.fault && r.meta.live == cs[k].size - Shrinkage(cs)
            && r.meta == f.(live := r.meta.live,
                            state := if cs[k].size > 0 || cs[k].byFlush then Normal else PendingLSM)
    decreases |cs|
  {
    var front := cs[..|cs| - 1];
    if k == |cs| - 1 {
      DebtsCollect(f, front);
    } else {
      AnyOrder(f, front, k);
    }
  }

  // ---------------------------------------------------------------- the listener's loops

  /** The blob sizes in the properties of one table: file number and bytes. */
  type Property = seq<(nat, nat)>

  function Sum(p: Property, n: nat): nat {
    if p == [] then 0 else Sum(p[..|p| - 1], n) + if p[|p| - 1].0 == n then p[|p| - 1].1 else 0
  }

  function SumAll(ps: seq<Property>, n: nat): nat {
    if ps == [] then 0 else SumAll(ps[..|ps| - 1], n) + Sum(ps[|ps| - 1], n)
  }

  type Diff = map<nat, int>

  function At(d: Diff, n: nat): int { if n in d then d[n] else 0 }

  function Signed(size: int, toAdd: bool): int { if toAdd then size else -size }

  /** `ExtractGCStatsFromTableProperty` on a decoded property. */
  method Extract(p: Property, toAdd: bool, diff: Diff) returns (d: Diff)
    ensures forall n: nat :: At(d, n) == At(diff, n) + Signed(Sum(p, n), toAdd)
    ensures diff.Keys <= d.Keys
  {
    d := diff;
    var i := 0;
    while i < |p|
      invariant i <= |p| && diff.Keys <= d.Keys
      invariant forall n: nat :: At(d, n) == At(diff, n) + Signed(Sum(p[..i], n), toAdd)
    {
      var (n, size) := p[i];
      assert p[..i + 1][..i] == p[..i];
      d := d[n := At(d, n) + Signed(size, toAdd)];
      i := i + 1;
    }
    assert p[..i] == p;
  }

  method ExtractAll(ps: seq<Property>, toAdd: bool, diff: Diff) returns (d: Diff)
    ensures forall n: nat :: At(d, n) == At(diff, n) + Signed(SumAll(ps, n), toAdd)
  {
    d := diff;
    var i := 0;
    while i < |ps|
      invariant i <= |ps|
      invariant forall n: nat :: At(d, n) == At(diff, n) + Signed(SumAll(ps[..i], n), toAdd)
    {
      assert ps[..i + 1][..i] == ps[..i];
      d := Extract(ps[i], toAdd, d);
      i := i + 1;
    }
    assert ps[..i] == ps;
  }

  /** What a compaction reports for a file: bytes in its outputs less bytes in its inputs. */
  method CompactionDiff(inputs: seq<Property>, outputs: seq<Property>) returns (d: Diff)
    ensures forall n: nat :: At(d, n) == SumAll(outputs, n) - SumAll(inputs, n)
  {
    d := ExtractAll(inputs, false, map[]);
    d := ExtractAll(outputs, true, d);
  }

  /** What `OnFlushCompleted` does with one file, branch by branch. */
  method FlushOne(f: FileMeta, delta: int) returns (after: FileMeta)
    ensures after == AfterFlush(f, delta).meta
  {
    after := f;
    if after.state == PendingLSM {
      var size := if delta < 0 then 0 else delta;
      if after.live != 0 { size := size - after.live; }
      after := after.(live := if size < 0 then size % U64 else size, state := Normal);
    }
  }

  /** What `OnCompactionCompleted` does with one file, branch by branch. */
  method CompactOne(f: FileMeta, delta: int, levelMerge: bool, heavy: bool) returns (after: FileMeta, empty: bool)
    ensures after == AfterCompaction(f, delta, levelMerge, heavy).meta
    ensures empty == AfterCompaction(f, delta, levelMerge, heavy).noLiveData
  {
    after, empty := f, false;
    if after.state == PendingLSM {
      if delta <= 0 {
        after := after.(live := after.live - delta);
        return;
      }
      var size := delta;
      if after.live != 0 { size := size - after.live; }
      after := after.(live := if size < 0 then size % U64 else size, state := Normal);
      empty := after.live == 0;
    } else if after.state == Normal || after.state == ToMerge {
      after := after.(live := if after.live + delta < 0 then 0 else after.live + delta);
      if levelMerge {
        if after.live == 0 {
          empty := true;
        } else if heavy {
          after := after.(state := ToMerge);
        }
      }
    }
  }

  type Metas = map<nat, FileMeta>

  predicate Distinct(ns: seq<nat>) { forall i, j | 0 <= i < j < |ns| :: ns[i] != ns[j] }

  /** `OnFlushCompleted`: every known file that is reported on is updated once, the others stay. */
  method OnFlushCompleted(files: Metas, diff: Diff, order: seq<nat>) returns (after: Metas)
    requires Distinct(order) && forall n: nat :: n in diff <==> n in order
    ensures after.Keys == files.Keys
    ensures forall n | n in files :: after[n] == if n in diff then AfterFlush(files[n], diff[n]).meta else files[n]
  {
    after := files;
    var i := 0;
    while i < |order|
      invariant i <= |order| && after.Keys == files.Keys
      invariant forall n | n in files ::
                  after[n] == if n in order[..i] then AfterFlush(files[n], diff[n]).meta else files[n]
    {
      var n := order[i];
      assert n in diff;
      if n in after {
        var f := FlushOne(after[n], diff[n]);
        after := after[n := f];
      }
      assert order[..i + 1] == order[..i] + [n];
      i := i + 1;
    }
    assert order[..i] == order;
  }

  /** The accounting loop of `OnCompactionCompleted`; `empty` are the files it finds without live data. */
  method OnCompactionCompleted(files: Metas, diff: Diff, order: seq<nat>, levelMerge: bool, crowded: nat -> bool)
    returns (after: Metas, empty: set<nat>)
    requires Distinct(order) && forall n: nat :: n in diff <==> n in order
    ensures after.Keys == files.Keys
    ensures forall n | n in files ::
              after[n] ==
              if n in diff then AfterCompaction(files[n], diff[n], levelMerge, crowded(n)).meta else files[n]
    ensures forall n: nat ::
              n in empty <==>
                n in files && n in diff && AfterCompaction(files[n], diff[n], levelMerge, crowded(n)).noLiveData
  {
    after, empty := files, {};
    var i := 0;
    while i < |order|
      invariant i <= |order| && after.Keys == files.Keys
      invariant forall n | n in files ::
                  after[n] ==
                  if n in order[..i] then AfterCompaction(files[n], diff[n], levelMerge, crowded(n)).meta else files[n]
      invariant forall n: nat ::
                  n in empty <==>
                    && n in files && n in order[..i]
                    && AfterCompaction(files[n], diff[n], levelMerge, crowded(n)).noLiveData
    {
      var n := order[i];
      assert n in diff;
      assert order[..i + 1] == order[..i] + [n];
      if n in after {
        var f, none := CompactOne(after[n], diff[n], levelMerge, crowded(n));
        after := after[n := f];
        if none { empty := empty + {n}; }
      }
      i := i + 1;
    }
    assert order[..i] == order;
  }

  // ---------------------------------------------------------------- references in the tree

  /**
   * One file and what the tree knows about it, in bytes. `refs` are referred to by tables and `mem`
   * by the memtable; `unplaced` has still to be rewritten by the GC job that made the file and
   * `busy` was found overwritten. `install` is a creation the tree has not yet seen, `pending` the
   * changes it has seen whose callbacks have not run. `exact` is off once a GC job touched the file.
   */
  datatype Account = Account(meta: FileMeta, refs: nat, mem: nat, unplaced: nat, busy: nat,
                             install: Option<Change>, pending: seq<Change>, exact: bool)

  datatype Step =
    | Install
    | Compact(dropped: nat)
    | Run(at: nat, levelMerge: bool, crowded: bool)
    | FlushMemtable(kept: nat, lost: nat)
    | Rewrite(size: nat, written: bool)
    | SettleBusy
    | BeginGC
    | EndGC
    | MarkForMerge
    | DeleteFile
    | Restart(kept: nat)

  ghost predicate Enabled(a: Account, step: Step) {
    match step
    case Install => a.install.Some?
    case Compact(dropped) => a.install.None? && dropped <= a.refs
    case Run(at, _, _) => at < |a.pending|
    case FlushMemtable(kept, lost) => kept + lost <= a.mem
    case Rewrite(size, _) => a.meta.state == PendingGC && size <= a.unplaced
    case SettleBusy => a.meta.state == PendingGC
    case BeginGC => a.meta.state == Normal
    case EndGC => a.meta.state == BeingGC || a.meta.state == PendingGC
    case MarkForMerge => a.meta.state == Normal || a.meta.state == ToMerge
    case DeleteFile => a.meta.state != Obsolete
    case Restart(kept) => a.meta.state != Obsolete && kept <= a.mem
  }

  function TakeOut(cs: seq<Change>, at: nat): seq<Change>
    requires at < |cs|
  {
    cs[..at] + cs[at + 1..]
  }

  /**
   * A flush of the memtable also reports sizes, but `OnFlushCompleted` ignores every file that is
   * not pending, so nothing is queued for it. A restart recovers part of the memtable, flushes it and
   * counts the tables.
   */
  function Apply(a: Account, step: Step): Account
    requires Enabled(a, step)
  {
    match step
    case Install => a.(refs := a.refs + a.install.value.size, pending := a.pending + [a.install.value], install := None)
    case Compact(dropped) => a.(refs := a.refs - dropped, pending := a.pending + [Shrunk(dropped)])
    case Run(at, levelMerge, crowded) =>
      a.(meta := Callback(a.meta, a.pending[at], levelMerge, crowded).meta, pending := TakeOut(a.pending, at))
    case FlushMemtable(kept, lost) => a.(mem := a.mem - kept - lost, refs := a.refs + kept)
    case Rewrite(size, written) =>
      if written then a.(unplaced := a.unplaced - size, mem := a.mem + size)
      else a.(unplaced := a.unplaced - size, busy := a.busy + size)
    case SettleBusy => a.(meta := UpdateLive(a.meta, 0 - a.busy).0, busy := 0)
    case BeginGC => a.(meta := a.meta.(state := Transit(a.meta.state, GCBegin)), exact := false)
    case EndGC => a.(meta := a.meta.(state := Transit(a.meta.state, GCCompleted)), unplaced := 0, busy := 0)
    case MarkForMerge => a.(meta := a.meta.(state := Transit(a.meta.state, NeedMerge)))
    case DeleteFile => a.(meta := a.meta.(state := Transit(a.meta.state, Delete)))
    case Restart(kept) =>
      var refs := a.refs + kept;
      Account(a.meta.(live := refs, state := Transit(Init, DbRestart)), refs, 0, 0, 0, None, [], true)
  }

  function NewByTable(f: FileMeta, size: nat, byFlush: bool): Account
    requires f.state == Init
  {
    Account(f.(state := Transit(Init, FlushOrCompactionOutput), live := 0), 0, 0, 0, 0,
            Some(Created(size, byFlush)), [], true)
  }

  function NewByGC(f: FileMeta, size: nat): Account
    requires f.state == Init
  {
    Account(f.(state := Transit(Init, GCOutput), live := size), 0, 0, size, 0, None, [], false)
  }

  ghost predicate AllShrunk(cs: seq<Change>) { forall i | 0 <= i < |cs| :: cs[i].Shrunk? }

  /** Exactly one creation is pending, at `k`. */
  ghost predicate OneCreated(cs: seq<Change>, k: nat) {
    k < |cs| && cs[k].Created? && cs[k].size > 0 && forall i | 0 <= i < |cs| && i != k :: cs[i].Shrunk?
  }

  /** Bytes that must still count as live. */
  function Owed(a: Account): nat { a.refs + a.mem + a.unplaced + a.busy + Shrinkage(a.pending) }

  /**
   * A pending file either waits for the tree, or the size of its pending creation is what is
   * referred to, what is still to be subtracted and what it owes already. Any other file has live
   * data for all it must count, and exactly that as long as no GC job touched it.
   */
  ghost predicate Inv(a: Account) {
    if a.meta.state == Obsolete then true
    else if a.meta.state == PendingLSM then
      && a.mem == a.unplaced == a.busy == 0 && a.exact
      && if a.install.Some? then
           && a.install.value.Created? && a.install.value.size > 0
           && a.pending == [] && a.refs == 0 && a.meta.live == 0
         else
           exists k: nat ::
             OneCreated(a.pending, k) && a.pending[k].size == a.refs + Shrinkage(a.pending) + a.meta.live
    else
      && a.meta.state != Init && a.install.None? && AllShrunk(a.pending)
      && a.meta.live >= Owed(a) && (a.exact ==> a.meta.live == Owed(a) && a.mem == a.unplaced == a.busy == 0)
      && (a.exact ==> a.meta.state == Normal || a.meta.state == ToMerge)
  }

  lemma ShrinkageSnoc(cs: seq<Change>, c: Change)
    ensures Shrinkage(cs + [c]) == Shrinkage(cs) + SizeIn(c)
  {
    assert (cs + [c])[..|cs|] == cs;
  }

  lemma {:induction false} ShrinkageTakeOut(cs: seq<Change>, at: nat)
    requires at < |cs|
    ensures Shrinkage(cs) == Shrinkage(TakeOut(cs, at)) + SizeIn(cs[at])
  {
    var n := |cs| - 1;
    var rest := TakeOut(cs, at);
    if at == n {
      assert rest == cs[..n];
    } else {
      ShrinkageTakeOut(cs[..n], at);
      assert rest[..n - 1] == TakeOut(cs[..n], at) && rest[n - 1] == cs[n];
    }
  }

  /** Where the one creation is after a callback that was not it. */
  lemma CreatedStays(cs: seq<Change>, at: nat, k: nat)
    requires OneCreated(cs, k) && at < |cs| && at != k
    ensures var j := if at < k then k - 1 else k;
            OneCreated(TakeOut(cs, at), j) && TakeOut(cs, at)[j] == cs[k]
  {}

  lemma NoneCreated(cs: seq<Change>, k: nat)
    requires OneCreated(cs, k)
    ensures AllShrunk(TakeOut(cs, k))
  {}

  /** A callback of a pending file. */
  lemma PendingRun(a: Account, at: nat, levelMerge: bool, crowded: bool)
    requires Inv(a) && a.meta.state == PendingLSM && Enabled(a, Run(at, levelMerge, crowded))
    ensures Inv(Apply(a, Run(at, levelMerge, crowded)))
    ensures !Callback(a.meta, a.pending[at], levelMerge, crowded).fault
  {
    var k: nat :| OneCreated(a.pending, k) && a.pending[k].size == a.refs + Shrinkage(a.pending) + a.meta.live;
    ShrinkageTakeOut(a.pending, at);
    if at == k {
      NoneCreated(a.pending, k);
    } else {
      CreatedStays(a.pending, at, k);
      var b := Apply(a, Run(at, levelMerge, crowded));
      var j: nat := if at < k then k - 1 else k;
      assert OneCreated(b.pending, j) && b.pending[j].size == b.refs + Shrinkage(b.pending) + b.meta.live;
    }
  }

  /** A callback of any other file. */
  lemma OtherRun(a: Account, at: nat, levelMerge: bool, crowded: bool)
    requires Inv(a) && a.meta.state != PendingLSM && Enabled(a, Run(at, levelMerge, crowded))
    ensures Inv(Apply(a, Run(at, levelMerge, crowded)))
    ensures a.meta.state != Obsolete ==> !Callback(a.meta, a.pending[at], levelMerge, crowded).fault
  {
    ShrinkageTakeOut(a.pending, at);
  }

  lemma TreeStep(a: Account, step: Step)
    requires Inv(a) && Enabled(a, step) && (step.Install? || step.Compact?)
    ensures Inv(Apply(a, step))
  {
    var b := Apply(a, step);
    var c := b.pending[|b.pending| - 1];
    ShrinkageSnoc(a.pending, c);
    if a.meta.state == PendingLSM {
      if a.install.Some? {
        assert OneCreated(b.pending, 0) && b.pending[0].size == b.refs + Shrinkage(b.pending) + b.meta.live;
      } else {
        var k: nat :| OneCreated(a.pending, k) && a.pending[k].size == a.refs + Shrinkage(a.pending) + a.meta.live;
        assert OneCreated(b.pending, k) && b.pending[k].size == b.refs + Shrinkage(b.pending) + b.meta.live;
      }
    }
  }

  /**
   * Every step keeps the account, and no callback of a file that is not obsolete clamps, wraps or
   * fails an assertion.
   */
  lemma StepInv(a: Account, step: Step)
    requires Inv(a) && Enabled(a, step)
    ensures Inv(Apply(a, step))
    ensures step.Run? && a.meta.state != Obsolete ==>
              !Callback(a.meta, a.pending[step.at], step.levelMerge, step.crowded).fault
    ensures step.SettleBusy? ==> a.meta.live >= a.busy
  {
    match step
    case Install => TreeStep(a, step);
    case Compact(dropped) => TreeStep(a, step);
    case Run(at, levelMerge, crowded) =>
      if a.meta.state == PendingLSM {
        PendingRun(a, at, levelMerge, crowded);
      } else {
        OtherRun(a, at, levelMerge, crowded);
      }
    case FlushMemtable(_, _) =>
    case Rewrite(_, _) =>
    case SettleBusy =>
    case BeginGC =>
    case EndGC =>
    case MarkForMerge =>
    case DeleteFile =>
    case Restart(_) =>
  }

  // ---------------------------------------------------------------- whole runs

  ghost predicate Runs(a: Account, steps: seq<Step>)
    decreases |steps|
  {
    steps == [] || (Enabled(a, steps[0]) && Runs(Apply(a, steps[0]), steps[1..]))
  }

  ghost function Exec(a: Account, steps: seq<Step>): Account
    requires Runs(a, steps)
    decreases |steps|
  {
    if steps == [] then a else Exec(Apply(a, steps[0]), steps[1..])
  }

  lemma {:induction false} RunInv(a: Account, steps: seq<Step>)
    requires Inv(a) && Runs(a, steps)
    ensures Inv(Exec(a, steps))
    decreases |steps|
  {
    if steps != [] {
      StepInv(a, steps[0]);
      RunInv(Apply(a, steps[0]), steps[1..]);
    }
  }

  /** How a file comes to be: written by a flush or a compaction, or by a GC job. */
  ghost predicate New(a: Account) {
    || (exists f: FileMeta, size: nat, byFlush: bool ::
        f.state == Init && size > 0 && a == NewByTable(f, size, byFlush))
    || (exists f: FileMeta, size: nat :: f.state == Init && a == NewByGC(f, size))
  }

  lemma NewInv(a: Account)
    requires New(a)
    ensures Inv(a)
  {}

  /** A file that counts no live data, and is not pending, is referred to by nothing. */
  lemma NoLiveDataNoReferences(a: Account, steps: seq<Step>)
    requires New(a) && Runs(a, steps)
    ensures var b := Exec(a, steps);
            b.meta.state != PendingLSM && b.meta.state != Obsolete ==>
              b.meta.live >= b.refs + b.mem && (b.meta.live == 0 ==> b.refs == 0 && b.mem == 0)
  {
    NewInv(a);
    RunInv(a, steps);
  }

  /**
   * Untouched by GC, a file whose callbacks have all run is normal, or marked, and counts exactly what
   * is referred to.
   */
  lemma QuietFilesExact(a: Account, steps: seq<Step>)
    requires New(a) && Runs(a, steps)
    ensures var b := Exec(a, steps);
            b.exact && b.install.None? && b.pending == [] && b.meta.state != Obsolete ==>
              b.meta.live == b.refs && (b.meta.state == Normal || b.meta.state == ToMerge)
  {
    NewInv(a);
    RunInv(a, steps);
  }

  /** The callback that finds no live data does so only when no reference is left. */
  lemma DeletedWithoutReferences(a: Account, steps: seq<Step>, at: nat, levelMerge: bool, crowded: bool)
    requires New(a) && Runs(a, steps) && at < |Exec(a, steps).pending|
    requires var b := Exec(a, steps);
             b.meta.state != Obsolete && Callback(b.meta, b.pending[at], levelMerge, crowded).noLiveData
    ensures var b := Exec(a, steps); b.refs == 0 && b.mem == 0 && b.unplaced == 0
  {
    NewInv(a);
    RunInv(a, steps);
    var b := Exec(a, steps);
    StepInv(b, Run(at, levelMerge, crowded));
  }

  // ---------------------------------------------------------------- what is never reported

  /**
   * The bytes that a step takes from the references without the live data following: entries overwritten
   * in the memtable, what a job leaves behind, and what a compaction drops while a job holds the file.
   */
  function LeakOf(a: Account, step: Step): nat
    requires Enabled(a, step)
  {
    match step
    case FlushMemtable(_, lost) => lost
    case EndGC => a.unplaced + a.busy
    case Run(at, _, _) => if a.meta.state == BeingGC || a.meta.state == PendingGC then SizeIn(a.pending[at]) else 0
    case _ => 0
  }

  /** All the leaks of a run since the last restart, which counts anew. */
  ghost function Leaked(a: Account, steps: seq<Step>, before: nat): nat
    requires Runs(a, steps)
    decreases |steps|
  {
    if steps == [] then before
    else Leaked(Apply(a, steps[0]), steps[1..], if steps[0].Restart? then 0 else before + LeakOf(a, steps[0]))
  }

  ghost predicate Balanced(a: Account, leak: nat) {
    if a.meta.state == Obsolete then true
    else if a.meta.state == PendingLSM then leak == 0
    else a.meta.live == Owed(a) + leak
  }

  lemma RunBalance(a: Account, leak: nat, at: nat, levelMerge: bool, crowded: bool)
    requires Inv(a) && Balanced(a, leak) && Enabled(a, Run(at, levelMerge, crowded))
    ensures var step := Run(at, levelMerge, crowded); Balanced(Apply(a, step), leak + LeakOf(a, step))
  {
    StepInv(a, Run(at, levelMerge, crowded));
    ShrinkageTakeOut(a.pending, at);
  }

  lemma StepBalance(a: Account, leak: nat, step: Step)
    requires Inv(a) && Balanced(a, leak) && Enabled(a, step)
    ensures Balanced(Apply(a, step), if step.Restart? then 0 else leak + LeakOf(a, step))
  {
    match step
    case Run(at, levelMerge, crowded) => RunBalance(a, leak, at, levelMerge, crowded);
    case Compact(dropped) => ShrinkageSnoc(a.pending, Shrunk(dropped));
    case _ =>
  }

  lemma {:induction false} RunsBalance(a: Account, leak: nat, steps: seq<Step>)
    requires Inv(a) && Balanced(a, leak) && Runs(a, steps)
    ensures Balanced(Exec(a, steps), Leaked(a, steps, leak))
    decreases |steps|
  {
    if steps != [] {
      StepBalance(a, leak, steps[0]);
      StepInv(a, steps[0]);
      RunsBalance(Apply(a, steps[0]), if steps[0].Restart? then 0 else leak + LeakOf(a, steps[0]), steps[1..]);
    }
  }

  /**
   * Conservation: over every run the live data of a file is what tables, memtable and due rewrites refer
   * to, what callbacks will still subtract, and what was lost without a report, to the byte.
   */
  lemma LiveDataConserved(a: Account, steps: seq<Step>)
    requires New(a) && Runs(a, steps)
    ensures var b := Exec(a, steps);
            b.meta.state != PendingLSM && b.meta.state != Obsolete ==>
              b.meta.live == b.refs + b.mem + b.unplaced + b.busy + Shrinkage(b.pending) + Leaked(a, steps, 0)
  {
    NewInv(a);
    assert Balanced(a, 0);
    RunsBalance(a, 0, steps);
  }

  /** A flush settles a pending file at what it reports less what the file owes, and leaves every other alone. */
  lemma FlushSettles(f: FileMeta, delta: int)
    ensures var r := AfterFlush(f, delta).meta;
            if f.state != PendingLSM then r == f
            else r.state == Normal && (0 <= delta && f.live <= delta ==> r.live == delta - f.live) &&
                 (delta < 0 && f.live == 0 ==> r.live == 0)
  {}

  /** What each step makes of the state of a file, callbacks aside. */
  lemma StatesFollow(a: Account, step: Step)
    requires Enabled(a, step) && !step.Run?
    ensures Apply(a, step).meta.state ==
            match step
            case BeginGC => BeingGC
            case EndGC => Normal
            case MarkForMerge => ToMerge
            case DeleteFile => Obsolete
            case Restart(_) => Normal
            case _ => a.meta.state
  {}

  /** A callback marks a file for merge exactly if level merge is on, it is normal, not empty, and crowded. */
  lemma CompactionMarksIff(f: FileMeta, delta: int, levelMerge: bool, crowded: bool)
    requires f.state != ToMerge
    ensures AfterCompaction(f, delta, levelMerge, crowded).meta.state == ToMerge <==>
              levelMerge && crowded && f.state == Normal && f.live + delta > 0
  {}

  /**
   * Untouched by GC, a file is found empty by the last callback that is due exactly if no table refers
   * to it: always by the one that settles it, and after that with level merge on.
   */
  lemma LastCallbackFinds(a: Account, steps: seq<Step>, levelMerge: bool, crowded: bool)
    requires New(a) && Runs(a, steps)
    ensures var b := Exec(a, steps);
            b.exact && b.install.None? && |b.pending| == 1 && b.meta.state != Obsolete &&
            (levelMerge || b.meta.state == PendingLSM) ==>
              (Callback(b.meta, b.pending[0], levelMerge, crowded).noLiveData <==> b.refs == 0)
  {
    NewInv(a);
    RunInv(a, steps);
    var b := Exec(a, steps);
    if b.exact && b.install.None? && |b.pending| == 1 && b.meta.state != Obsolete {
      StepInv(b, Run(0, levelMerge, crowded));
      assert TakeOut(b.pending, 0) == [];
    }
  }
}
