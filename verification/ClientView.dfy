/**
 What a client sees of a whole run.  The specification is computed from the steps: a map for each
 sequence number, the maps that snapshots hold, and how far the log is synced.
 */
module ClientView {
  import opened Wrappers
  import opened GcProtocol
  import opened GcInvariant
  import opened GcBits
  import opened GcTheorems

  type Store = map<Key, Value>

  /** `maps[s]` is what the user has stored as of sequence number `s`. */
  datatype Told = Told(maps: seq<Store>, held: seq<Store>, synced: SeqNo)

  const NOTHING := Told([map[]], [], 0)

  function Latest(t: Told): Store { if t.maps == [] then map[] else t.maps[|t.maps| - 1] }

  function Cut<T>(s: seq<T>, n: nat): seq<T> { if n <= |s| then s[..n] else s }

  function Without<T>(s: seq<T>, i: nat): seq<T> { if i < |s| then s[..i] + s[i + 1..] else s }

  /** `took` says whether the step took a sequence number, which the client cannot know of a GC rewrite. */
  function Tell(t: Told, step: Step, took: bool): Told {
    match step
    case UserPut(k, v) => t.(maps := t.maps + [Latest(t)[k := v]])
    case UserDelete(k) => t.(maps := t.maps + [Latest(t) - {k}])
    case SyncLog(n) => t.(synced := n)
    case TakeSnapshot => t.(held := t.held + [Latest(t)])
    case ReleaseSnapshot(i) => t.(held := Without(t.held, i))
    case GcRewrite(_) => if took then t.(maps := t.maps + [Latest(t)]) else t
    case GcSync(_) => if t.maps == [] then t else t.(synced := |t.maps| - 1)
    case Crash(n) => Told(Cut(t.maps, n + 1), [], n)
    case _ => t
  }

  ghost predicate Took(st: State, step: Step)
    requires Enabled(st, step)
  {
    |Apply(st, step).log| > |st.log|
  }

  ghost function TellAll(st: State, t: Told, steps: seq<Step>): Told
    requires Runs(st, steps)
    decreases |steps|
  {
    if steps == [] then t
    else TellAll(Apply(st, steps[0]), Tell(t, steps[0], Took(st, steps[0])), steps[1..])
  }

  function Lookup(m: Store, k: Key): Option<Value> { if k in m then Some(m[k]) else None }

  function ReadOf(m: Store, k: Key): ReadResult { if k in m then Found(m[k]) else NotFound }

  // ---------------------------------------------------------------- the history agrees

  ghost predicate HistoryTold(log: seq<Op>, maps: seq<Store>) {
    && |maps| == |log| + 1
    && forall k: Key, s: SeqNo | s <= |log| :: UserValue(log, k, s) == Lookup(maps[s], k)
  }

  ghost predicate HeldTold(snapshots: seq<SeqNo>, maps: seq<Store>, held: seq<Store>) {
    && |held| == |snapshots|
    && forall i | 0 <= i < |held| :: snapshots[i] < |maps| && held[i] == maps[snapshots[i]]
  }

  ghost predicate Matches(st: State, t: Told) {
    HistoryTold(st.log, t.maps) && HeldTold(st.snapshots, t.maps, t.held) && t.synced == st.durable
  }

  /** One more operation and the map after it. */
  lemma HistoryGrows(log: seq<Op>, maps: seq<Store>, op: Op, m: Store)
    requires HistoryTold(log, maps)
    requires forall k ::
               Lookup(m, k) == match op
                 case Put(k', v) => if k' == k then Some(v) else Lookup(maps[|log|], k)
                 case Delete(k') => if k' == k then None else Lookup(maps[|log|], k)
                 case Moved(_) => Lookup(maps[|log|], k)
    ensures HistoryTold(log + [op], maps + [m])
  {
    var (log', n) := (log + [op], |log|);
    forall k: Key, s: SeqNo | s <= |log'|
      ensures UserValue(log', k, s) == Lookup((maps + [m])[s], k)
    {
      UserValueExtends(log, [op], k, if s <= n then s else n);
    }
  }

  lemma HistoryCut(log: seq<Op>, maps: seq<Store>, n: SeqNo)
    requires HistoryTold(log, maps) && n <= |log|
    ensures HistoryTold(log[..n], maps[..n + 1])
  {
    forall k: Key, s: SeqNo | s <= n
      ensures UserValue(log[..n], k, s) == Lookup(maps[..n + 1][s], k)
    {
      assert log == log[..n] + log[n..];
      UserValueExtends(log[..n], log[n..], k, s);
    }
  }

  lemma HeldGrows(snapshots: seq<SeqNo>, maps: seq<Store>, held: seq<Store>, m: Store)
    requires HeldTold(snapshots, maps, held)
    ensures HeldTold(snapshots, maps + [m], held)
  {}

  lemma WriteMatches(st: State, t: Told, op: Op, e: Entry, m: Store)
    requires Matches(st, t)
    requires forall k ::
               Lookup(m, k) == match op
                 case Put(k', v) => if k' == k then Some(v) else Lookup(t.maps[|st.log|], k)
                 case Delete(k') => if k' == k then None else Lookup(t.maps[|st.log|], k)
                 case Moved(_) => Lookup(t.maps[|st.log|], k)
    ensures Matches(Append(st, op, e), t.(maps := t.maps + [m]))
  {
    HistoryGrows(st.log, t.maps, op, m);
    HeldGrows(st.snapshots, t.maps, t.held, m);
  }

  lemma RewriteMatches(st: State, t: Told, j: nat)
    requires Matches(st, t) && Enabled(st, GcRewrite(j))
    ensures Matches(RewriteNext(st, j), Tell(t, GcRewrite(j), |RewriteNext(st, j).log| > |st.log|))
  {
    var b := st.jobs[j].batches[0];
    if PointsAt(st, b.key, b.from) {
      WriteMatches(st, t, Moved(b.key), b.entry, Latest(t));
    }
  }

  lemma SnapshotMatches(st: State, t: Told, step: Step)
    requires Matches(st, t) && Enabled(st, step) && (step.TakeSnapshot? || step.ReleaseSnapshot?)
    ensures Matches(Apply(st, step), Tell(t, step, false))
  {}

  /** Every other step leaves history, snapshots and durability alone. */
  lemma OthersMatch(st: State, t: Told, step: Step)
    requires Matches(st, t) && Enabled(st, step) && !IsUserStep(step)
    requires !step.TakeSnapshot? && !step.ReleaseSnapshot? && !step.GcRewrite?
    ensures Matches(Apply(st, step), Tell(t, step, false))
  {
    var st' := Apply(st, step);
    assert st'.log == st.log && st'.snapshots == st.snapshots;
  }

  lemma StepMatches(st: State, t: Told, step: Step)
    requires Matches(st, t) && Enabled(st, step)
    ensures Matches(Apply(st, step), Tell(t, step, Took(st, step)))
  {
    match step
    case UserPut(k, v) => WriteMatches(st, t, Put(k, v), Inline(v), Latest(t)[k := v]);
    case UserDelete(k) => WriteMatches(st, t, Delete(k), Tombstone, Latest(t) - {k});
    case Crash(n) => HistoryCut(st.log, t.maps, n);
    case GcRewrite(j) => RewriteMatches(st, t, j);
    case TakeSnapshot => SnapshotMatches(st, t, step);
    case ReleaseSnapshot(_) => SnapshotMatches(st, t, step);
    case _ => OthersMatch(st, t, step);
  }

  lemma {:induction false} RunMatches(st: State, t: Told, steps: seq<Step>)
    requires Matches(st, t) && Runs(st, steps)
    ensures Matches(Exec(st, steps), TellAll(st, t, steps))
    decreases |steps|
  {
    if steps != [] {
      StepMatches(st, t, steps[0]);
      RunMatches(Apply(st, steps[0]), Tell(t, steps[0], Took(st, steps[0])), steps[1..]);
    }
  }

  // ---------------------------------------------------------------- the theorems

  /**
   The database is what its client was told.  After any run a read at the head gives what the steps
   stored last, a read at the i-th snapshot gives what was stored when it was taken, and a crash that
   keeps `n` sequence numbers, at least as many as were synced, gives what was stored as of the n-th.
   */
  lemma RunReadsAsTold(steps: seq<Step>, k: Key)
    requires Runs(INITIAL, steps)
    ensures var (st, t) := (Exec(INITIAL, steps), TellAll(INITIAL, NOTHING, steps));
            && |t.maps| == |st.log| + 1 && |t.held| == |st.snapshots| && t.synced == st.durable
            && Get(st, k, |st.log|) == ReadOf(Latest(t), k)
            && (forall i | 0 <= i < |t.held| :: Get(st, k, st.snapshots[i]) == ReadOf(t.held[i], k))
            && forall n | t.synced <= n < |t.maps| ::
                 Enabled(st, Crash(n)) && Get(Apply(st, Crash(n)), k, n) == ReadOf(t.maps[n], k)
  {
    var (st, t) := (Exec(INITIAL, steps), TellAll(INITIAL, NOTHING, steps));
    assert Matches(INITIAL, NOTHING);
    RunMatches(INITIAL, NOTHING, steps);
    HeadReadsExact(st, k);
    forall i | 0 <= i < |t.held| ensures Get(st, k, st.snapshots[i]) == ReadOf(t.held[i], k) {
      SnapshotReadsExact(st, k, st.snapshots[i]);
    }
    forall n | t.synced <= n < |t.maps|
      ensures Enabled(st, Crash(n)) && Get(Apply(st, Crash(n)), k, n) == ReadOf(t.maps[n], k)
    {
      CrashReadsExact(st, n, k);
    }
  }

  /** A write is seen at once, by its key alone, and by no snapshot that was there. */
  lemma WritesTakeEffect(st: State, k: Key, v: Value, other: Key)
    requires Reachable(st)
    ensures var (put, del) := (Apply(st, UserPut(k, v)), Apply(st, UserDelete(k)));
            && Get(put, k, |put.log|) == Found(v) && Get(del, k, |del.log|) == NotFound
            && (other != k ==> Get(put, other, |put.log|) == Get(del, other, |del.log|) == Get(st, other, |st.log|))
            && put.snapshots == st.snapshots == del.snapshots
            && forall s | s in st.snapshots :: Get(put, other, s) == Get(del, other, s) == Get(st, other, s)
  {
    ReachableInv(st);
    WriteReads(st, UserPut(k, v), Put(k, v), k);
    WriteReads(st, UserPut(k, v), Put(k, v), other);
    WriteReads(st, UserDelete(k), Delete(k), k);
    WriteReads(st, UserDelete(k), Delete(k), other);
  }

  lemma WriteReads(st: State, step: Step, op: Op, k: Key)
    requires Inv(st) && Enabled(st, step) && Apply(st, step).log == st.log + [op]
    requires Apply(st, step).snapshots == st.snapshots
    ensures var st' := Apply(st, step);
            && Get(st', k, |st'.log|) == AsRead(UserValue(st.log + [op], k, |st.log| + 1))
            && UserValue(st.log + [op], k, |st.log|) == UserValue(st.log, k, |st.log|)
            && Get(st, k, |st.log|) == AsRead(UserValue(st.log, k, |st.log|))
            && forall s | s in st.snapshots :: Get(st', k, s) == Get(st, k, s)
  {
    var st' := Apply(st, step);
    StepInv(st, step);
    ReadExact(st, k, |st.log|);
    ReadExact(st', k, |st'.log|);
    UserValueExtends(st.log, [op], k, |st.log|);
    forall s | s in st.snapshots ensures Get(st', k, s) == Get(st, k, s) {
      ReadExact(st, k, s);
      ReadExact(st', k, s);
      UserValueExtends(st.log, [op], k, s);
    }
  }
}
