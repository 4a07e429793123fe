/**
 * The three-field switch filter, against the history of readings it stands for.
 */
module Debounce {

  const Count: nat := 5

  datatype Filter = Filter(stable: bool, raw: bool, count: nat)

  const Zero := Filter(false, false, 0)

  /** Boot seeds a filter from the switch; it reads the brew and steam switches once per field. */
  function Boot(first: bool, second: bool): Filter { Filter(first, second, Count) }

  function Seeded(level: bool): Filter { Boot(level, level) }

  function Counted(f: Filter, reading: bool): Filter {
    if reading == f.raw then f.(count := if f.count < Count then f.count + 1 else f.count)
    else f.(raw := reading, count := 1)
  }

  function Next(f: Filter, reading: bool): Filter {
    var g := Counted(f, reading);
    if g.count >= Count then g.(stable := g.raw) else g
  }

  function Run(f: Filter, h: seq<bool>): Filter {
    if h == [] then f else Next(Run(f, h[..|h| - 1]), h[|h| - 1])
  }

  /** The five readings before position e are all v. */
  predicate RunAt(h: seq<bool>, e: int, v: bool) {
    Count <= e <= |h| && forall k | e - Count <= k < e :: h[k] == v
  }

  /** A run of v ends at e, and no run of another value ends later. */
  ghost predicate Latest(h: seq<bool>, e: int, v: bool) {
    RunAt(h, e, v) && forall d, w | RunAt(h, d, w) && e < d :: w == v
  }

  /** v is the value of the latest run of five in h, or the seed if there is none. */
  ghost predicate Settled(seed: bool, h: seq<bool>, v: bool) {
    (exists e :: Latest(h, e, v)) || (v == seed && forall d, w :: !RunAt(h, d, w))
  }

  /** The raw value has been read count times running; a full count may go back to the seed. */
  ghost predicate Trailing(seed: bool, h: seq<bool>, f: Filter) {
    && 1 <= f.count <= Count
    && (forall k | 0 <= k < |h| && |h| - f.count <= k :: h[k] == f.raw)
    && (f.count > |h| ==> f.count == Count && f.raw == seed)
    && (f.count < Count ==> |h| > f.count ==> h[|h| - f.count - 1] != f.raw)
    && (f.count < Count && |h| == f.count ==> f.raw != seed)
    && (f.count == Count ==> f.stable == f.raw)
  }

  lemma {:induction false} TrailingKept(seed: bool, h: seq<bool>)
    ensures Trailing(seed, h, Run(Seeded(seed), h))
    decreases |h|
  {
    hide Trailing, Next;
    if h == [] {
      SeedTrails(seed);
    } else {
      TrailingKept(seed, h[..|h| - 1]);
      TrailingStep(seed, h, Run(Seeded(seed), h[..|h| - 1]));
    }
  }

  lemma SeedTrails(seed: bool)
    ensures Trailing(seed, [], Seeded(seed))
  {
  }

  lemma TrailingStep(seed: bool, h: seq<bool>, f: Filter)
    requires h != [] && Trailing(seed, h[..|h| - 1], f)
    ensures Trailing(seed, h, Next(f, h[|h| - 1]))
  {
    var n := |h| - 1;
    var g := Next(f, h[n]);
    if h[n] == f.raw {
      forall k | 0 <= k < |h| && |h| - g.count <= k ensures h[k] == g.raw {
        if k < n { assert h[..n][k] == h[k]; }
      }
      if g.count < Count && |h| > g.count { assert h[..n][n - f.count - 1] == h[n - f.count - 1]; }
    } else if n > 0 {
      assert f.count <= n ==> h[..n][n - 1] == h[n - 1] == f.raw;
    }
  }

  /** After any readings the filter holds the value of the latest run of five. */
  lemma {:induction false} StableIsLatestRun(seed: bool, h: seq<bool>)
    ensures Settled(seed, h, Run(Seeded(seed), h).stable)
    decreases |h|
  {
    if h != [] {
      var n := |h| - 1;
      var f := Run(Seeded(seed), h[..n]);
      StableIsLatestRun(seed, h[..n]);
      TrailingKept(seed, h[..n]);
      TrailingKept(seed, h);
      SettledStep(seed, h, f.stable, Run(Seeded(seed), h));
    }
  }

  /** One more reading either completes a run or leaves the latest run where it was. */
  lemma SettledStep(seed: bool, h: seq<bool>, before: bool, g: Filter)
    requires h != [] && Settled(seed, h[..|h| - 1], before)
    requires Trailing(seed, h, g) && (g.count < Count ==> g.stable == before)
    ensures Settled(seed, h, g.stable)
  {
    var n := |h| - 1;
    if g.count >= Count {
      if |h| >= Count {
        assert Latest(h, |h|, g.stable);
      }
    } else {
      forall d, w | RunAt(h, d, w)
        ensures RunAt(h[..n], d, w)
      {
        NoRunYet(seed, h, g, w);
      }
      if e :| Latest(h[..n], e, before) {
        assert RunAt(h, e, before);
        assert Latest(h, e, before);
      }
    }
  }

  lemma NoRunYet(seed: bool, h: seq<bool>, g: Filter, v: bool)
    requires Trailing(seed, h, g) && g.count < Count
    ensures !RunAt(h, |h|, v)
  {
    if |h| > g.count {
      assert h[|h| - g.count - 1] != h[|h| - g.count];
    }
  }

  /** At most one value can be settled. */
  lemma SettledOnce(seed: bool, h: seq<bool>)
    ensures !(Settled(seed, h, true) && Settled(seed, h, false))
  {
    if d :| Latest(h, d, true) {
      assert h[d - 1];
      forall e
        ensures !Latest(h, e, false)
      {
        assert e < d || e > d || !RunAt(h, e, false);
      }
    }
  }

  /** If a switch moves between the two boot reads, a single reading can flip the filter: agreement is exactly
      what is needed. */
  lemma SeedMustAgree(first: bool, second: bool)
    ensures (forall h :: Settled(first, h, Run(Boot(first, second), h).stable)) <==> first == second
  {
    if first == second {
      forall h ensures Settled(first, h, Run(Boot(first, second), h).stable) {
        StableIsLatestRun(first, h);
      }
    } else {
      var h := [second];
      assert h[..0] == [];
      assert forall d, w :: !RunAt(h, d, w);
      assert !Settled(first, h, Run(Boot(first, second), h).stable);
    }
  }

  // ----- reported changes -----

  predicate Reports(f: Filter, reading: bool) { Next(f, reading).stable != f.stable }

  /** The new values reported, in order. */
  function Reported(f: Filter, h: seq<bool>): seq<bool> {
    if h == [] then []
    else
      var n := |h| - 1;
      Reported(f, h[..n]) + if Reports(Run(f, h[..n]), h[n]) then [h[n]] else []
  }

  /** A change is reported exactly when a reading completes a run of the other value. */
  lemma ReportsOnRun(seed: bool, h: seq<bool>)
    requires h != []
    ensures var f := Run(Seeded(seed), h[..|h| - 1]);
            Reports(f, h[|h| - 1]) <==> RunAt(h, |h|, !f.stable)
  {
    TrailingKept(seed, h[..|h| - 1]);
    TrailingKept(seed, h);
    var f := Run(Seeded(seed), h[..|h| - 1]);
    var g := Run(Seeded(seed), h);
    if g.count < Count { NoRunYet(seed, h, g, !f.stable); }
    if RunAt(h, |h|, !f.stable) { assert h[|h| - 1] == !f.stable; }
  }

  /** Reported values alternate, the first differs from the seed, and the last is the stable value. */
  lemma {:induction false} ReportsAlternate(seed: bool, h: seq<bool>)
    ensures var r := Reported(Seeded(seed), h);
            && (forall k | 0 <= k < |r| :: r[k] == if k % 2 == 0 then !seed else seed)
            && Run(Seeded(seed), h).stable == if r == [] then seed else r[|r| - 1]
    decreases |h|
  {
    if h != [] {
      ReportsAlternate(seed, h[..|h| - 1]);
    }
  }

  /** Two reports are at least five readings apart. */
  lemma ReportsApart(seed: bool, h: seq<bool>, i: nat, j: nat)
    requires i < j < |h|
    requires Reports(Run(Seeded(seed), h[..i]), h[i]) && Reports(Run(Seeded(seed), h[..j]), h[j])
    requires forall k | i < k < j :: !Reports(Run(Seeded(seed), h[..k]), h[k])
    ensures j >= i + Count && Count == 5
  {
    StableBetween(seed, h, i, j);
    RunUpTo(seed, h, i);
    RunUpTo(seed, h, j);
  }

  /** The run a report completes. */
  lemma RunUpTo(seed: bool, h: seq<bool>, i: nat)
    requires i < |h| && Reports(Run(Seeded(seed), h[..i]), h[i])
    ensures i + 1 >= Count && forall k | i + 1 - Count <= k <= i :: h[k] == h[i]
    ensures h[i] != Run(Seeded(seed), h[..i]).stable && Run(Seeded(seed), h[..i + 1]).stable == h[i]
  {
    assert h[..i + 1][..i] == h[..i];
    ReportsOnRun(seed, h[..i + 1]);
  }

  lemma {:induction false} StableBetween(seed: bool, h: seq<bool>, i: nat, j: nat)
    requires i < j < |h| && forall k | i < k < j :: !Reports(Run(Seeded(seed), h[..k]), h[k])
    ensures Run(Seeded(seed), h[..j]).stable == Run(Seeded(seed), h[..i + 1]).stable
    decreases j
  {
    hide Next;
    if i + 1 < j {
      assert h[..j][..j - 1] == h[..j - 1] && h[..j][j - 1] == h[j - 1];
      StableBetween(seed, h, i, j - 1);
    }
  }

  /** debounce_t and debounce_update. */
  class Input {
    var stable: bool
    var raw: bool
    var count: nat

    ghost function Abs(): Filter
      reads this
    {
      Filter(stable, raw, count)
    }

    constructor ()
      ensures Abs() == Zero
    {
      stable, raw, count := false, false, 0;
    }

    /** As if the level had already been read long enough. */
    method Seed(first: bool, second: bool)
      modifies this
      ensures Abs() == Boot(first, second)
    {
      stable, raw, count := first, second, Count;
    }

    method Update(reading: bool) returns (changed: bool)
      modifies this
      ensures Abs() == Next(old(Abs()), reading)
      ensures changed == Reports(old(Abs()), reading) && (changed <==> stable != old(stable))
    {
      if reading == raw {
        if count < Count { count := count + 1; }
      } else {
        raw := reading;
        count := 1;
      }
      if count >= Count && stable != raw {
        stable := raw;
        return true;
      }
      return false;
    }
  }
}
