/** Which entries of a blob file are invalid: the bitmap against the references in the tree. */
module InvalidEntries {
  import opened BitMaps

  // ---------------------------------------------------------------- callbacks

  /**
   * What changes the bitmap of one file. A compaction gives the indices in its input tables and
   * those in its output tables; a GC job gives the records it wrote for keys overwritten meanwhile.
   */
  datatype Event = Compacted(ins: seq<nat>, outs: seq<nat>) | Dropped(indices: seq<nat>)

  predicate Invalidates(e: Event, i: nat) {
    match e
    case Compacted(ins, outs) => i in ins && i !in outs
    case Dropped(indices) => i in indices
  }

  /** Sets or clears one bit after another; an index out of range is reported and skipped. */
  method SetBits(bm: BitMap, indices: seq<nat>, on: int)
    requires bm.Valid() && (on == 0 || on == 1)
    modifies bm.bits
    ensures bm.Valid()
    ensures forall i: nat | i <= bm.validBits :: bm.Bit(i) == if i in indices then on == 1 else old(bm.Bit(i))
  {
    var n := 0;
    while n < |indices|
      invariant n <= |indices| && bm.Valid()
      invariant forall i: nat | i <= bm.validBits :: bm.Bit(i) == if i in indices[..n] then on == 1 else old(bm.Bit(i))
    {
      var _ := bm.SetBit(indices[n], on);
      assert indices[..n + 1] == indices[..n] + [indices[n]];
      n := n + 1;
    }
    assert indices[..n] == indices;
  }

  /** One callback: the bits it invalidates are set in a new bitmap, which is then or-ed in. */
  method Update(bm: BitMap, e: Event)
    requires bm.Valid() && bm.Whole()
    modifies bm.bits
    ensures bm.Valid()
    ensures forall i: nat | i <= bm.validBits :: bm.Bit(i) == (old(bm.Bit(i)) || Invalidates(e, i))
  {
    var diff := new BitMap(bm.validBits);
    match e {
      case Compacted(ins, outs) =>
        SetBits(diff, ins, 1);
        SetBits(diff, outs, 0);
      case Dropped(indices) =>
        SetBits(diff, indices, 1);
    }
    assert forall i: nat | i <= bm.validBits :: diff.Bit(i) == Invalidates(e, i);
    var _ := bm.BitOps(BitOr, diff);
  }

  /** Any callbacks in any order: a bit is set exactly if it was or one of them invalidates it. */
  method UpdateAll(bm: BitMap, es: seq<Event>)
    requires bm.Valid() && bm.Whole()
    modifies bm.bits
    ensures bm.Valid()
    ensures forall i: nat | i <= bm.validBits ::
              bm.Bit(i) == (old(bm.Bit(i)) || exists e | e in es :: Invalidates(e, i))
  {
    var n := 0;
    while n < |es|
      invariant n <= |es| && bm.Valid()
      invariant forall i: nat | i <= bm.validBits ::
                  bm.Bit(i) == (old(bm.Bit(i)) || exists e | e in es[..n] :: Invalidates(e, i))
    {
      Update(bm, es[n]);
      assert es[..n + 1] == es[..n] + [es[n]];
      n := n + 1;
    }
    assert es[..n] == es;
  }

  // ---------------------------------------------------------------- the tree

  /** Tables of the tree, each with the entries of this file it refers to. */
  type Tables = map<nat, set<nat>>

  function Refs(t: Tables): set<nat> { set id, i | id in t && i in t[id] :: i }

  /** No entry is referred to by two tables. */
  predicate Single(t: Tables) { forall a, b | a in t && b in t && a != b :: t[a] !! t[b] }

  function Part(t: Tables, ids: set<nat>): Tables { map id | id in t && id in ids :: t[id] }

  function Rest(t: Tables, ids: set<nat>): Tables { map id | id in t && id !in ids :: t[id] }

  /** A compaction whose callback has not arrived. */
  datatype Change = Change(ins: set<nat>, outs: set<nat>)

  /**
   * The entries of one file: not yet in a table, in tables, lost without a callback (overwritten
   * in the memtable, or in a table deleted by range), and those whose bit is set.
   */
  datatype State = State(unplaced: set<nat>, tables: Tables, lost: set<nat>, pending: seq<Change>, bitmap: set<nat>)

  datatype Step =
    | Flush(id: nat, entries: set<nat>)
    | Compact(inputs: set<nat>, outputs: Tables)
    | Callback(at: nat)
    | Drop(entry: nat)
    | Overwrite(entry: nat)
    | DeleteTables(ids: set<nat>)

  /** A compaction keeps some of the references of its inputs, each in one output. */
  ghost predicate Enabled(s: State, step: Step) {
    match step
    case Flush(id, entries) => id !in s.tables && entries <= s.unplaced
    case Compact(inputs, outputs) =>
      && inputs <= s.tables.Keys && outputs.Keys !! Rest(s.tables, inputs).Keys
      && Refs(outputs) <= Refs(Part(s.tables, inputs)) && Single(outputs)
    case Callback(at) => at < |s.pending|
    case Drop(entry) => entry in s.unplaced
    case Overwrite(entry) => entry in s.unplaced
    case DeleteTables(ids) => ids <= s.tables.Keys
  }

  function Apply(s: State, step: Step): State {
    match step
    case Flush(id, entries) => s.(unplaced := s.unplaced - entries, tables := s.tables[id := entries])
    case Compact(inputs, outputs) =>
      s.(tables := Rest(s.tables, inputs) + outputs,
         pending := s.pending + [Change(Refs(Part(s.tables, inputs)), Refs(outputs))])
    case Callback(at) =>
      if at < |s.pending| then
        s.(bitmap := s.bitmap + (s.pending[at].ins - s.pending[at].outs),
           pending := s.pending[..at] + s.pending[at + 1..])
      else s
    case Drop(entry) => s.(unplaced := s.unplaced - {entry}, bitmap := s.bitmap + {entry})
    case Overwrite(entry) => s.(unplaced := s.unplaced - {entry}, lost := s.lost + {entry})
    case DeleteTables(ids) =>
      s.(tables := Rest(s.tables, ids), lost := s.lost + Refs(Part(s.tables, ids)))
  }

  /** What the pending callbacks will invalidate. */
  function Announced(pending: seq<Change>): set<nat> {
    if pending == [] then {} else Announced(pending[1..]) + (pending[0].ins - pending[0].outs)
  }

  lemma {:induction false} AnnouncedAppend(p: seq<Change>, q: seq<Change>)
    ensures Announced(p + q) == Announced(p) + Announced(q)
  {
    if p == [] {
      assert p + q == q;
    } else {
      AnnouncedAppend(p[1..], q);
      assert (p + q)[1..] == p[1..] + q;
    }
  }

  lemma AnnouncedTake(p: seq<Change>, at: nat)
    requires at < |p|
    ensures Announced(p) == Announced(p[..at] + p[at + 1..]) + (p[at].ins - p[at].outs)
  {
    assert p == p[..at] + p[at..];
    assert p[at..][0] == p[at] && p[at..][1..] == p[at + 1..];
    AnnouncedAppend(p[..at], p[at..]);
    AnnouncedAppend(p[..at], p[at + 1..]);
  }

  /** The bitmap, with what the pending callbacks will add. */
  function Gone(s: State): set<nat> { s.bitmap + Announced(s.pending) }

  /** Every entry of `all` is in exactly one of four places, and referred to at most once. */
  ghost predicate Inv(all: set<nat>, s: State) {
    && Single(s.tables)
    && s.unplaced !! Refs(s.tables) && s.unplaced !! s.lost && s.unplaced !! Gone(s)
    && Refs(s.tables) !! s.lost && Refs(s.tables) !! Gone(s) && s.lost !! Gone(s)
    && s.unplaced + Refs(s.tables) + s.lost + Gone(s) == all
  }

  lemma RefsSplit(t: Tables, ids: set<nat>)
    requires ids <= t.Keys
    ensures Refs(t) == Refs(Part(t, ids)) + Refs(Rest(t, ids))
    ensures Single(t) ==> Refs(Part(t, ids)) !! Refs(Rest(t, ids)) && Single(Rest(t, ids))
  {
    forall i | i in Refs(t)
      ensures i in Refs(Part(t, ids)) || i in Refs(Rest(t, ids))
    {
      var id :| id in t && i in t[id];
      if id in ids { assert id in Part(t, ids); } else { assert id in Rest(t, ids); }
    }
  }

  lemma RefsJoin(a: Tables, b: Tables)
    requires a.Keys !! b.Keys
    ensures Refs(a + b) == Refs(a) + Refs(b)
    ensures Single(a) && Single(b) && Refs(a) !! Refs(b) ==> Single(a + b)
  {
    forall i | i in Refs(a) + Refs(b)
      ensures i in Refs(a + b)
    {
      if i in Refs(a) {
        var id :| id in a && i in a[id];
        assert id in a + b && (a + b)[id] == a[id];
      } else {
        var id :| id in b && i in b[id];
        assert id in a + b && (a + b)[id] == b[id];
      }
    }
    if Single(a) && Single(b) && Refs(a) !! Refs(b) {
      forall x, y | x in a + b && y in a + b && x != y
        ensures (a + b)[x] !! (a + b)[y]
      {
        if i :| i in (a + b)[x] && i in (a + b)[y] {
          assert (x in b && i in Refs(b)) || (x in a && i in Refs(a));
          assert (y in b && i in Refs(b)) || (y in a && i in Refs(a));
        }
      }
    }
  }

  lemma CompactInv(all: set<nat>, s: State, inputs: set<nat>, outputs: Tables)
    requires Inv(all, s) && Enabled(s, Compact(inputs, outputs))
    ensures Inv(all, Apply(s, Compact(inputs, outputs)))
  {
    RefsSplit(s.tables, inputs);
    RefsJoin(Rest(s.tables, inputs), outputs);
    var change := Change(Refs(Part(s.tables, inputs)), Refs(outputs));
    AnnouncedAppend(s.pending, [change]);
    assert Announced([change]) == change.ins - change.outs;
  }

  lemma FlushInv(all: set<nat>, s: State, id: nat, entries: set<nat>)
    requires Inv(all, s) && Enabled(s, Flush(id, entries))
    ensures Inv(all, Apply(s, Flush(id, entries)))
  {
    RefsJoin(s.tables, map[id := entries]);
    assert s.tables + map[id := entries] == s.tables[id := entries];
    assert Refs(map[id := entries]) == entries;
  }

  lemma StepInv(all: set<nat>, s: State, step: Step)
    requires Inv(all, s) && Enabled(s, step)
    ensures Inv(all, Apply(s, step)) && s.bitmap <= Apply(s, step).bitmap
  {
    match step
    case Flush(id, entries) => FlushInv(all, s, id, entries);
    case Compact(inputs, outputs) => CompactInv(all, s, inputs, outputs);
    case Callback(at) => AnnouncedTake(s.pending, at);
    case Drop(entry) =>
    case Overwrite(entry) =>
    case DeleteTables(ids) => RefsSplit(s.tables, ids);
  }

  // ---------------------------------------------------------------- whole runs

  function Start(all: set<nat>): State { State(all, map[], {}, [], {}) }

  ghost predicate Runs(s: State, steps: seq<Step>)
    decreases |steps|
  {
    steps == [] || (Enabled(s, steps[0]) && Runs(Apply(s, steps[0]), steps[1..]))
  }

  function Exec(s: State, steps: seq<Step>): State
    decreases |steps|
  {
    if steps == [] then s else Exec(Apply(s, steps[0]), steps[1..])
  }

  lemma {:induction false} RunInv(all: set<nat>, s: State, steps: seq<Step>)
    requires Inv(all, s) && Runs(s, steps)
    ensures Inv(all, Exec(s, steps)) && s.bitmap <= Exec(s, steps).bitmap
    decreases |steps|
  {
    if steps != [] {
      StepInv(all, s, steps[0]);
      RunInv(all, Apply(s, steps[0]), steps[1..]);
    }
  }

  /**
   * However flushes, compactions and their callbacks interleave: a set bit means that nothing in
   * the tree refers to the entry, and once no callback is pending the bits are exactly the entries
   * that were dropped by a compaction or by GC.
   */
  lemma BitsAreSound(all: set<nat>, steps: seq<Step>)
    requires Runs(Start(all), steps)
    ensures var s := Exec(Start(all), steps);
            && s.bitmap !! Refs(s.tables) && s.bitmap !! s.unplaced
            && (s.pending == [] ==> s.bitmap == all - s.unplaced - Refs(s.tables) - s.lost)
  {
    RunInv(all, Start(all), steps);
  }

  /** What `Update` does to the bits is what the steps of the tree do: a compaction's callback, and a dropped record. */
  lemma UpdateIsTheStep(s: State, at: nat, ins: seq<nat>, outs: seq<nat>, entry: nat, i: nat)
    requires at < |s.pending| && s.pending[at] == Change(set x | x in ins, set x | x in outs)
    ensures i in Apply(s, Callback(at)).bitmap <==> i in s.bitmap || Invalidates(Compacted(ins, outs), i)
    ensures i in Apply(s, Drop(entry)).bitmap <==> i in s.bitmap || Invalidates(Dropped([entry]), i)
  {}

  /** A step that takes a reference away without a callback. */
  predicate Loses(step: Step) { step.Overwrite? || step.DeleteTables? }

  lemma {:induction false} LostBySteps(s: State, steps: seq<Step>)
    requires Runs(s, steps) && forall i | 0 <= i < |steps| :: !Loses(steps[i])
    ensures Exec(s, steps).lost == s.lost
    decreases |steps|
  {
    if steps != [] { LostBySteps(Apply(s, steps[0]), steps[1..]); }
  }

  /**
   * If no entry is overwritten in the memtable or deleted by range, then once no callback is pending the
   * bits are exact: an entry's bit is set if and only if it has been placed and nothing refers to it.
   */
  lemma BitsAreExact(all: set<nat>, steps: seq<Step>, i: nat)
    requires Runs(Start(all), steps) && (forall k | 0 <= k < |steps| :: !Loses(steps[k]))
    requires i in all && Exec(Start(all), steps).pending == []
    ensures var s := Exec(Start(all), steps);
            i in s.bitmap <==> i !in s.unplaced && i !in Refs(s.tables)
  {
    RunInv(all, Start(all), steps);
    LostBySteps(Start(all), steps);
  }

  /**
   * Without the assumption that entries have one reference: a compaction and its callback leave the
   * bits sound exactly if no other table refers to an entry that the compaction dropped.
   */
  lemma CompactionSoundIff(s: State, inputs: set<nat>, outputs: Tables)
    requires inputs <= s.tables.Keys && outputs.Keys !! Rest(s.tables, inputs).Keys
    requires Refs(outputs) <= Refs(Part(s.tables, inputs)) && s.bitmap !! Refs(s.tables)
    ensures var t := Apply(Apply(s, Compact(inputs, outputs)), Callback(|s.pending|));
            t.bitmap !! Refs(t.tables) <==> Refs(Part(s.tables, inputs)) - Refs(outputs) !! Refs(Rest(s.tables, inputs))
  {
    var t := Apply(Apply(s, Compact(inputs, outputs)), Callback(|s.pending|));
    RefsSplit(s.tables, inputs);
    RefsJoin(Rest(s.tables, inputs), outputs);
    assert t.bitmap == s.bitmap + (Refs(Part(s.tables, inputs)) - Refs(outputs));
  }

  /** With a second reference to an entry, compacting away the first sets the bit of a live entry. */
  lemma TwoReferencesBreakIt()
    ensures var s := State({}, map[1 := {0}, 2 := {0}], {}, [], {});
            var steps := [Compact({1}, map[]), Callback(0)];
            && !Single(s.tables) && Runs(s, steps)
            && 0 in Exec(s, steps).bitmap && 0 in Refs(Exec(s, steps).tables)
  {
    var s := State({}, map[1 := {0}, 2 := {0}], {}, [], {});
    var s1 := Apply(s, Compact({1}, map[]));
    var s2 := Apply(s1, Callback(0));
    assert s.tables[1] == {0} && s.tables[2] == {0};
    assert 1 in Part(s.tables, {1}) && 0 in Refs(Part(s.tables, {1}));
    assert 2 in s2.tables && 0 in Refs(s2.tables);
    var steps := [Compact({1}, map[]), Callback(0)];
    assert steps[1..] == [Callback(0)] && steps[1..][1..] == [];
    assert Exec(s1, [Callback(0)]) == Exec(s2, []);
    assert Runs(s2, []) && Runs(s1, [Callback(0)]);
  }
}
