/**
 * Corrosion status of the water probe: a classification that must persist
 * before it is committed, timed on a 32-bit millisecond clock; and the level
 * classification that depends on it.
 */
module Corrosion {
  import opened Basics
  import opened WaterProbe

  datatype Status = Ok | ServiceSoon | Fault

  datatype Level = LevelOk | LowConfirmed | Unknown

  datatype Monitor = Monitor(status: Status, pending: Status, since: nat)

  datatype Thresholds = Thresholds(warn: u16, fault: u16, consistency: nat)

  /** One wet reading, at a time that does not wrap. */
  datatype Reading = Reading(mv: u16, t: nat)

  function Classify(mv: u16, warn: u16, fault: u16): Status {
    if fault > 0 && mv >= fault then Fault
    else if warn > 0 && mv >= warn then ServiceSoon
    else Ok
  }

  function Severity(v: Status): nat {
    match v
    case Ok => 0
    case ServiceSoon => 1
    case Fault => 2
  }

  /** The voltage reaches the threshold of v; a threshold of 0 is never reached. */
  predicate Reaches(mv: u16, warn: u16, fault: u16, v: Status) {
    match v
    case Ok => true
    case ServiceSoon => 0 < warn <= mv
    case Fault => 0 < fault <= mv
  }

  /** The status is the most severe whose threshold is reached, so a higher voltage is never less severe. */
  lemma MostSevereReached(mv: u16, warn: u16, fault: u16)
    ensures Reaches(mv, warn, fault, Classify(mv, warn, fault))
    ensures forall v | Reaches(mv, warn, fault, v) :: Severity(v) <= Severity(Classify(mv, warn, fault))
    ensures forall higher: u16 | higher >= mv ::
              Severity(Classify(mv, warn, fault)) <= Severity(Classify(higher, warn, fault))
  {
  }

  const Healthy := Monitor(Ok, Ok, 0)

  /** Unsigned 32-bit subtraction. */
  function Elapsed(now: nat, since: nat): nat { (now - since) % U32 }

  function Update(m: Monitor, target: Status, now: nat, consistency: nat): Monitor {
    if target == m.status then m.(pending := m.status, since := now)
    else if target != m.pending then m.(pending := target, since := now)
    else if Elapsed(now, m.since) >= consistency then m.(status := target, since := now)
    else m
  }

  function Target(c: Thresholds, r: Reading): Status { Classify(r.mv, c.warn, c.fault) }

  function Run(c: Thresholds, h: seq<Reading>): Monitor {
    if h == [] then Healthy
    else Update(Run(c, h[..|h| - 1]), Target(c, h[|h| - 1]), h[|h| - 1].t % U32, c.consistency)
  }

  predicate InOrder(h: seq<Reading>) { forall i, j | 0 <= i <= j < |h| :: h[i].t <= h[j].t }

  /** From reading j on, all are classified to v. */
  predicate AllTo(c: Thresholds, h: seq<Reading>, j: nat, v: Status) {
    j < |h| && forall k | j <= k < |h| :: Target(c, h[k]) == v
  }

  /** Wrapping both ends of an interval keeps its length, up to whole turns of the clock. */
  lemma ElapsedWraps(a: nat, b: nat)
    requires a <= b
    ensures Elapsed(b % U32, a % U32) == (b - a) % U32 <= b - a
    ensures b - a < U32 ==> Elapsed(b % U32, a % U32) == b - a
  {
    assert (b % U32 - a % U32) % U32 == (b - a) % U32;
  }

  /** A pending status dates from a reading since when all have been classified to it. */
  lemma {:induction false} PendingSince(c: Thresholds, h: seq<Reading>) returns (j: nat)
    requires Run(c, h).pending != Run(c, h).status
    ensures AllTo(c, h, j, Run(c, h).pending) && Run(c, h).since == h[j].t % U32
    decreases |h|
  {
    var n := |h| - 1;
    var p, q := Run(c, h[..n]), Run(c, h);
    if p.pending == q.pending && p.pending != p.status {
      j := PendingSince(c, h[..n]);
    } else {
      j := n;
    }
  }

  /** A new status is committed only after every reading over the consistency time was classified to it. */
  lemma CommitNeedsSpan(c: Thresholds, h: seq<Reading>) returns (j: nat)
    requires h != [] && InOrder(h) && Run(c, h).status != Run(c, h[..|h| - 1]).status
    ensures AllTo(c, h, j, Run(c, h).status) && j < |h| - 1
    ensures h[|h| - 1].t - h[j].t >= c.consistency
  {
    var n := |h| - 1;
    j := PendingSince(c, h[..n]);
    assert h[..n][j] == h[j];
    ElapsedWraps(h[j].t, h[n].t);
  }

  /** Through a span not yet committed the status is pending, from no later than its start. */
  lemma {:induction false} PendingFrom(c: Thresholds, h: seq<Reading>, j: nat, v: Status) returns (s: nat)
    requires AllTo(c, h, j, v) && Run(c, h).status != v
    ensures s <= j && Run(c, h).pending == v && Run(c, h).since == h[s].t % U32
    decreases |h|
  {
    var n := |h| - 1;
    var p := Run(c, h[..n]);
    if j < n {
      s := PendingFrom(c, h[..n], j, v);
    } else if p.pending == v {
      s := PendingSince(c, h[..n]);
    } else {
      s := n;
    }
  }

  /** The other way: two or more readings in a row spanning the consistency time always commit. */
  lemma SpanCommits(c: Thresholds, h: seq<Reading>, j: nat, v: Status)
    requires InOrder(h) && AllTo(c, h, j, v) && j < |h| - 1
    requires h[|h| - 1].t - h[j].t >= c.consistency && h[|h| - 1].t - h[0].t < U32
    ensures Run(c, h).status == v
  {
    var n := |h| - 1;
    var p := Run(c, h[..n]);
    if p.status != v {
      var s := PendingFrom(c, h[..n], j, v);
      assert h[..n][s] == h[s];
      ElapsedWraps(h[s].t, h[n].t);
    }
  }

  // ----- level -----

  function ClassifyLevel(trusted: bool, submerged: bool): Level {
    if !trusted then Unknown else if submerged then LevelOk else LowConfirmed
  }

  /** An ADC fault is never trusted; a corroded probe is not while the guard is on. */
  predicate Trusted(adcOk: bool, status: Status, guard: bool) {
    if !adcOk then false else !(guard && status == Fault)
  }

  /** corrosion_monitor_t. */
  class CorrosionMonitor {
    var status: Status
    var pending: Status
    var since: nat

    ghost function Abs(): Monitor
      reads this
    {
      Monitor(status, pending, since)
    }

    constructor ()
      ensures Abs() == Healthy
    {
      status, pending, since := Ok, Ok, 0;
    }

    method Reset()
      modifies this
      ensures Abs() == Healthy
    {
      status, pending, since := Ok, Ok, 0;
    }

    method Observe(mv: u16, c: Thresholds, now: nat) returns (committed: Status)
      modifies this
      ensures Abs() == Update(old(Abs()), Classify(mv, c.warn, c.fault), now, c.consistency) && committed == status
    {
      var target := Classify(mv, c.warn, c.fault);
      if target == status {
        pending := status;
        since := now;
      } else if target != pending {
        pending := target;
        since := now;
      } else if Elapsed(now, since) >= c.consistency {
        status := target;
        since := now;
      }
      committed := status;
    }
  }
}
