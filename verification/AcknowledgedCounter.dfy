/** The benchmark's acknowledged counter: a low-water mark over a ring of flags. */
module AckCounter {
  const WINDOW: int := 65536

  /** Different values of one window have different slots; a window apart they share one. */
  lemma SlotsDiffer(a: int, b: int)
    requires 0 <= a < b <= a + WINDOW
    ensures a % WINDOW == b % WINDOW <==> b == a + WINDOW
  {
    assert a == a / WINDOW * WINDOW + a % WINDOW;
    assert b == b / WINDOW * WINDOW + b % WINDOW;
  }

  /** The one value of the window after `limit` that has the slot of `v`; that is `v` if `v` is in the window. */
  function InWindow(limit: int, v: int): (x: int)
    ensures limit < x <= limit + WINDOW && x % WINDOW == v % WINDOW
    ensures limit < v <= limit + WINDOW ==> x == v
  {
    limit + 1 + (v - limit - 1) % WINDOW
  }

  /** The values after `limit` up to `last` are all in `s`. */
  predicate Run(s: set<int>, limit: int, last: int) { forall x :: limit < x <= last ==> x in s }

  /** The slots of the ring say which values of the window after `limit` are in `s`. */
  ghost predicate Agrees(ring: seq<bool>, limit: int, s: set<int>) {
    && |ring| == WINDOW
    && forall x {:trigger ring[x % WINDOW]} :: limit < x <= limit + WINDOW ==> (ring[x % WINDOW] <==> x in s)
  }

  lemma SetInWindow(ring: seq<bool>, limit: int, s: set<int>, v: int)
    requires limit >= -1 && Agrees(ring, limit, s) && limit < v <= limit + WINDOW
    ensures Agrees(ring[v % WINDOW := true], limit, s + {v})
  {
    var r := ring[v % WINDOW := true];
    forall x | limit < x <= limit + WINDOW
      ensures r[x % WINDOW] <==> x in s + {v}
    {
      if x < v { SlotsDiffer(x, v); } else if v < x { SlotsDiffer(v, x); }
    }
  }

  /** Clearing the slot of the value after the limit makes room for the value a window later. */
  lemma ClearOldest(ring: seq<bool>, limit: int, s: set<int>)
    requires limit >= -1 && Agrees(ring, limit, s) && limit + 1 + WINDOW !in s
    ensures Agrees(ring[(limit + 1) % WINDOW := false], limit + 1, s)
  {
    var v := limit + 1;
    var r := ring[v % WINDOW := false];
    forall x | limit + 1 < x <= limit + 1 + WINDOW
      ensures r[x % WINDOW] <==> x in s
    {
      SlotsDiffer(v, x);
    }
  }

  class AcknowledgedCounter {
    const start: nat
    const ring: array<bool>
    var limit: int
    /** Everything acknowledged so far, a value outside the window counting as the one whose slot it takes. */
    ghost var acked: set<int>

    /** The slots agree with what is acknowledged above the limit; nothing lies beyond the window. */
    ghost predicate Valid()
      reads this, ring
    {
      && limit >= start - 1 && Agrees(ring[..], limit, acked)
      && Run(acked, start - 1, limit)
      && forall x | x in acked :: start <= x <= limit + WINDOW
    }

    /** `Last()` is the greatest value up to which everything is acknowledged. */
    ghost predicate Exact()
      reads this
    {
      Run(acked, start - 1, limit) && limit + 1 !in acked
    }

    constructor (start: nat)
      ensures Valid() && Exact() && acked == {} && limit == start - 1 && this.start == start && fresh(ring)
    {
      this.start := start;
      ring := new bool[WINDOW](_ => false);
      limit := start - 1;
      acked := {};
    }

    function Last(): int
      reads this
    {
      limit
    }

    /**
     * Acknowledges a value, or the value of the window whose slot it shares. The exception (`!ok`) is
     * raised exactly when that was acknowledged before. The limit moves to the end of the run of
     * acknowledged values, but never a whole window at once.
     */
    method Acknowledge(value: nat) returns (ok: bool)
      requires Valid()
      modifies this`limit, this`acked, ring
      ensures Valid() && (ok <==> InWindow(old(limit), value) !in old(acked))
      ensures acked == old(acked) + {InWindow(old(limit), value)}
      ensures old(limit) <= limit && Run(acked, old(limit), limit) && (!ok ==> limit == old(limit))
      ensures ok ==> (Exact() <==> !Run(acked, old(limit), old(limit) + WINDOW))
      ensures ok && !Exact() ==> limit == old(limit) + WINDOW - 1
      ensures old(Exact()) && InWindow(old(limit), value) < old(limit) + WINDOW &&
              (forall x | x in old(acked) :: x < old(limit) + WINDOW) ==>
                Exact() && forall x | x in acked :: x < limit + WINDOW
    {
      ghost var x := InWindow(limit, value);
      var slot := value % WINDOW;
      assert ring[..][x % WINDOW] == ring[slot];
      if ring[slot] {
        return false;
      }
      ok := true;
      SetInWindow(ring[..], limit, acked, x);
      ring[slot] := true;
      acked := acked + {x};
      assert ring[..] == old(ring[..])[slot := true];
      limit := Scan();
    }

    /** The scanning loop: clears the slots of the run after the limit and returns its last value. */
    method Scan() returns (last: int)
      requires limit >= -1 && Agrees(ring[..], limit, acked) && forall x | x in acked :: x <= limit + WINDOW
      modifies ring
      ensures limit <= last < limit + WINDOW && Run(acked, limit, last) && Agrees(ring[..], last, acked)
      ensures last + 1 in acked ==> last == limit + WINDOW - 1
    {
      var i := limit + 1;
      while i < limit + WINDOW && ring[i % WINDOW]
        invariant limit < i <= limit + WINDOW
        invariant Run(acked, limit, i - 1) && Agrees(ring[..], i - 1, acked)
      {
        assert ring[..][i % WINDOW];
        ClearOldest(ring[..], i - 1, acked);
        ghost var was := ring[..];
        ring[i % WINDOW] := false;
        assert ring[..] == was[i % WINDOW := false];
        i := i + 1;
      }
      assert i < limit + WINDOW ==> !ring[..][i % WINDOW];
      return i - 1;
    }
  }

  /** One value short of a full window: everything but the first has been acknowledged. */
  method AllButFirst(start: nat) returns (c: AcknowledgedCounter)
    ensures fresh(c) && fresh(c.ring) && c.Valid() && c.start == start && c.Last() == start - 1
    ensures Run(c.acked, start, start + WINDOW - 1) && start !in c.acked
  {
    c := new AcknowledgedCounter(start);
    for v := start + 1 to start + WINDOW
      invariant fresh(c) && fresh(c.ring) && c.Valid() && c.start == start && c.limit == start - 1
      invariant Run(c.acked, start, v - 1) && start !in c.acked
    {
      var ok := c.Acknowledge(v);
      assert start !in c.acked;
    }
  }

  /** The first value comes last: all up to `start + WINDOW - 1` are acknowledged, and `Last()` is one less. */
  method OneBehind(start: nat) returns (c: AcknowledgedCounter)
    ensures fresh(c) && c.Valid() && c.start == start
    ensures Run(c.acked, start - 1, start + WINDOW - 1) && c.Last() == start + WINDOW - 2
  {
    c := AllButFirst(start);
    var ok := c.Acknowledge(start);
    assert Run(c.acked, start - 1, start + WINDOW - 1);
  }
}
