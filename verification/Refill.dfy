/**
 * The boiler refill state machine: its timers, its hysteresis and its latch.
 * Timestamps are 64-bit milliseconds; the stability timer is a 32-bit tick
 * count that uses 0 for "not running". Thresholds may change between calls.
 */
module Refill {
  import opened Basics

  datatype State = Unknown | Starting | Idle | Active | Error

  datatype Cfg = Cfg(startDelay: u16, lowHysteresis: u16, okHysteresis: u16, maxRefill: u16)

  datatype Machine = Machine(state: State, begin: u64, stable: nat, levelOk: bool)

  /** boiler_refill_states_init. */
  const Off := Machine(Unknown, 0, 0, false)

  /** One call of boiler_refill_states_process, with the thresholds in force. */
  datatype Call = Call(t: u64, ok: bool, err: bool, cfg: Cfg)

  /** Unsigned 64-bit subtraction. */
  function Since(t: u64, begin: nat): nat { (t - begin) % U64 }

  function Tick(t: u64): nat { t % U32 }

  /** state_machine_init: the timer keeps whatever it held. */
  function Init(m: Machine): Machine { m.(state := Unknown, begin := 0) }

  /** state_machine_transition with the enter handlers of each state. */
  function Transition(m: Machine, t: u64, s: State): Machine {
    var n := m.(begin := t, state := s);
    match s
    case Idle => n.(stable := 0)
    case Active => n.(levelOk := false, stable := 0)
    case _ => n
  }

  /** The stability timer, started if it is not running. */
  function Started(m: Machine, t: u64): Machine {
    if m.stable == 0 then m.(stable := Tick(t)) else m
  }

  function Process(m0: Machine, c: Call): Machine {
    var m := m0.(levelOk := c.ok);
    match m.state
    case Unknown =>
      if c.cfg.startDelay == 0 then Transition(m, c.t, if m.levelOk then Idle else Active)
      else Transition(m, c.t, Starting)
    case Starting =>
      if Since(c.t, m.begin) > c.cfg.startDelay then Transition(m, c.t, if m.levelOk then Idle else Active) else m
    case Idle =>
      if c.err then Transition(m, c.t, Error)
      else if !m.levelOk then
        var n := Started(m, c.t);
        if Since(c.t, n.stable) > c.cfg.lowHysteresis then Transition(n, c.t, Active) else n
      else m.(stable := 0)
    case Active =>
      if c.err || Since(c.t, m.begin) > c.cfg.maxRefill then Transition(m, c.t, Error)
      else if m.levelOk then
        var n := Started(m, c.t);
        if Since(c.t, n.stable) > c.cfg.okHysteresis then Transition(n, c.t, Idle) else n
      else m.(stable := 0)
    case Error => m
  }

  function Run(m: Machine, h: seq<Call>): Machine {
    if h == [] then m else Process(Run(m, h[..|h| - 1]), h[|h| - 1])
  }

  /** Timestamps never go back. */
  predicate InOrder(h: seq<Call>) { forall i, j | 0 <= i <= j < |h| :: h[i].t <= h[j].t }

  lemma InOrderAt(h: seq<Call>, i: nat, j: nat)
    requires InOrder(h) && i <= j < |h|
    ensures h[i].t <= h[j].t
  {
  }

  lemma InOrderPrefix(h: seq<Call>, n: nat)
    requires InOrder(h) && n <= |h|
    ensures InOrder(h[..n])
  {
  }

  /** Timestamps the 32-bit timer can hold. */
  predicate Ticks(h: seq<Call>) { forall k | 0 <= k < |h| :: h[k].t < U32 }

  /** The machine as call k found it. */
  function Before(m: Machine, h: seq<Call>, k: nat): Machine
    requires k <= |h|
  {
    Run(m, h[..k])
  }

  /** Idle waits for a low level, active for a full one. */
  predicate Timed(s: State) { s.Idle? || s.Active? }

  predicate Asks(s: State, c: Call) { if s.Idle? then !c.ok else c.ok }

  function Hysteresis(s: State, c: Call): nat { if s.Idle? then c.cfg.lowHysteresis else c.cfg.okHysteresis }

  /** Calls j to the end all found state s and reported the level it waits for. */
  ghost predicate AskedSince(m: Machine, h: seq<Call>, j: nat, s: State) {
    j < |h| && forall k | j <= k < |h| :: Before(m, h, k).state == s && Asks(s, h[k])
  }

  // ----- the stability timer -----

  lemma BeforePrefix(m: Machine, h: seq<Call>, n: nat, k: nat)
    requires k <= n <= |h|
    ensures Before(m, h[..n], k) == Before(m, h, k)
  {
    assert h[..n][..k] == h[..k];
  }

  lemma AskedPrefix(m: Machine, h: seq<Call>, j: nat, s: State)
    requires h != [] && AskedSince(m, h[..|h| - 1], j, s) && Run(m, h[..|h| - 1]).state == s && Asks(s, h[|h| - 1])
    ensures AskedSince(m, h, j, s)
  {
    var n := |h| - 1;
    forall k | j <= k < |h| ensures Before(m, h, k).state == s && Asks(s, h[k]) {
      if k < n { BeforePrefix(m, h, n, k); assert h[..n][k] == h[k]; }
    }
  }

  /** A running timer holds the time of a call since when every call has asked for the change. */
  lemma {:induction false} TimerRemembers(m: Machine, h: seq<Call>) returns (j: nat)
    requires Ticks(h)
    requires !Timed(m.state) && Timed(Run(m, h).state) && Run(m, h).stable != 0
    ensures AskedSince(m, h, j, Run(m, h).state) && h[j].t == Run(m, h).stable
    decreases |h|
  {
    hide AskedSince;
    var n := |h| - 1;
    var p, q := Run(m, h[..n]), Run(m, h);
    if p.state == q.state && p.stable != 0 {
      j := TimerRemembers(m, h[..n]);
      AskedBound(m, h[..n], j, q.state);
      AskedPrefix(m, h, j, q.state);
    } else {
      j := n;
      AskedLast(m, h, q.state);
    }
  }

  /** Hysteresis: leaving Idle for Active, or Active for Idle, takes a stretch of unbroken asking longer than
      the threshold. */
  lemma ChangeNeedsStretch(m: Machine, h: seq<Call>) returns (j: nat)
    requires h != [] && InOrder(h) && Ticks(h) && !Timed(m.state)
    requires var p := Run(m, h[..|h| - 1]).state; Timed(p) && Timed(Run(m, h).state) && p != Run(m, h).state
    ensures AskedSince(m, h, j, Run(m, h[..|h| - 1]).state)
    ensures h[|h| - 1].t - h[j].t > Hysteresis(Run(m, h[..|h| - 1]).state, h[|h| - 1])
  {
    hide Run, Process, AskedSince, InOrder;
    var n := |h| - 1;
    var p := Run(m, h[..n]);
    RunLast(m, h);
    ChangedAfter(p, h[n]);
    if p.stable != 0 {
      j := TimerRemembers(m, h[..n]);
      AskedPrefix(m, h, j, p.state);
      assert j < n by { AskedBound(m, h[..n], j, p.state); }
      assert h[..n][j] == h[j];
      InOrderAt(h, j, n);
    } else {
      j := n;
      AskedLast(m, h, p.state);
    }
  }

  /** A call that changes between Idle and Active asks for it, and finds the timer past the threshold. */
  lemma ChangedAfter(p: Machine, c: Call)
    requires Timed(p.state) && Timed(Process(p, c).state) && Process(p, c).state != p.state
    ensures Asks(p.state, c) && Since(c.t, Started(p, c.t).stable) > Hysteresis(p.state, c)
  {
  }

  lemma AskedBound(m: Machine, h: seq<Call>, j: nat, s: State)
    requires AskedSince(m, h, j, s)
    ensures j < |h|
  {
  }

  lemma AskedLast(m: Machine, h: seq<Call>, s: State)
    requires h != [] && Run(m, h[..|h| - 1]).state == s && Asks(s, h[|h| - 1])
    ensures AskedSince(m, h, |h| - 1, s)
  {
  }

  /** Through a stretch of asking the timer runs, and from no later than its first call. */
  lemma {:induction false} TimerRuns(m: Machine, h: seq<Call>, j: nat, s: State)
    requires InOrder(h) && Ticks(h) && AskedSince(m, h, j, s)
    requires Timed(s) && Run(m, h).state == s && Before(m, h, j).stable <= h[j].t && 0 < h[j].t
    ensures 0 < Run(m, h).stable <= h[j].t
    decreases |h|
  {
    hide InOrder, Process;
    var n := |h| - 1;
    InOrderAt(h, j, n);
    RunLast(m, h);
    if j < n {
      InOrderPrefix(h, n);
      AskedShorter(m, h, j, s);
      BeforePrefix(m, h, n, j);
      TimerRuns(m, h[..n], j, s);
    }
    TimerKept(Run(m, h[..n]), h[n], h[j].t);
  }

  lemma AskedShorter(m: Machine, h: seq<Call>, j: nat, s: State)
    requires AskedSince(m, h, j, s) && j < |h| - 1
    ensures AskedSince(m, h[..|h| - 1], j, s) && Run(m, h[..|h| - 1]).state == s
  {
    hide Run;
    var n := |h| - 1;
    forall k | j <= k <= n ensures Before(m, h[..n], k) == Before(m, h, k) {
      BeforePrefix(m, h, n, k);
    }
    assert Before(m, h, n).state == s;
  }

  lemma TimerKept(p: Machine, c: Call, first: nat)
    requires Timed(p.state) && Asks(p.state, c) && Process(p, c).state == p.state && 0 < c.t < U32
    requires p.stable <= first && (p.stable == 0 ==> first == c.t)
    ensures 0 < Process(p, c).stable <= first
  {
  }

  /** The timer never holds a time still to come. */
  lemma {:induction false} TimerIsPast(m: Machine, h: seq<Call>)
    requires InOrder(h) && Ticks(h) && !Timed(m.state)
    ensures Timed(Run(m, h).state) ==> h != [] && Run(m, h).stable <= h[|h| - 1].t
    decreases |h|
  {
    hide InOrder, Process;
    if h != [] {
      var n := |h| - 1;
      InOrderPrefix(h, n);
      TimerIsPast(m, h[..n]);
      RunLast(m, h);
      if n > 0 { InOrderAt(h, n - 1, n); }
      TimerPast(Run(m, h[..n]), h[n]);
    }
  }

  lemma TimerPast(p: Machine, c: Call)
    requires Timed(p.state) ==> p.stable <= c.t
    requires c.t < U32
    ensures Timed(Process(p, c).state) ==> Process(p, c).stable <= c.t
  {
  }

  /** The other way: an unbroken stretch of asking longer than the threshold never leaves the state unchanged. */
  lemma StretchForcesChange(m: Machine, h: seq<Call>, j: nat, s: State)
    requires InOrder(h) && Ticks(h) && !Timed(m.state)
    requires Timed(s) && AskedSince(m, h, j, s) && 0 < h[j].t
    requires h[|h| - 1].t - h[j].t > Hysteresis(s, h[|h| - 1])
    ensures Run(m, h).state != s
  {
    hide Run, Process, InOrder, Hysteresis;
    var n := |h| - 1;
    if Run(m, h).state == s {
      TimerWasPast(m, h, j);
      assert Before(m, h, j).state == s && Before(m, h, n).state == s && Asks(s, h[n]);
      TimerRuns(m, h, j, s);
      RunLast(m, h);
      StayedWithin(Run(m, h[..n]), h[n], s);
    }
  }

  lemma TimerWasPast(m: Machine, h: seq<Call>, j: nat)
    requires InOrder(h) && Ticks(h) && !Timed(m.state) && j < |h|
    ensures Timed(Before(m, h, j).state) ==> Before(m, h, j).stable <= h[j].t
  {
    hide Run, InOrder;
    InOrderPrefix(h, j);
    TimerIsPast(m, h[..j]);
    if j > 0 { InOrderAt(h, j - 1, j); }
  }

  /** A call that asks and changes nothing is still within the threshold. */
  lemma StayedWithin(p: Machine, c: Call, s: State)
    requires Timed(s) && p.state == s && Asks(s, c) && Process(p, c).state == s
    ensures Since(c.t, Process(p, c).stable) <= Hysteresis(s, c)
  {
  }

  lemma RunLast(m: Machine, h: seq<Call>)
    requires h != []
    ensures Run(m, h) == Process(Run(m, h[..|h| - 1]), h[|h| - 1])
  {
  }

  /** Without the 32-bit limit the first low reading trips at once: exactly from 2^32 ms on. */
  lemma FirstLowTrips(m: Machine, c: Call)
    requires m.state.Idle? && m.stable == 0 && !c.ok && !c.err
    ensures Process(m, c).state.Active? <==> c.t >= U32
  {
    if c.t >= U32 {
      assert c.t - Tick(c.t) >= U32;
    }
  }

  lemma FirstFullTrips(m: Machine, c: Call)
    requires m.state.Active? && m.stable == 0 && c.ok && !c.err && Since(c.t, m.begin) <= c.cfg.maxRefill
    ensures Process(m, c).state.Idle? <==> c.t >= U32
  {
    if c.t >= U32 {
      assert c.t - Tick(c.t) >= U32;
    }
  }

  // ----- one call -----

  /** Error is entered on a reported error, and from Active once more than the maximum has passed since it was
      entered; and nothing else enters it. */
  lemma ErrorIff(m: Machine, c: Call)
    requires m.state.Active? ==> m.begin <= c.t
    ensures Process(m, c).state.Error?
            <==> m.state.Error? || (Timed(m.state) && c.err) || (m.state.Active? && c.t - m.begin > c.cfg.maxRefill)
  {
  }

  /** The machine settles no sooner than the start delay after the first call, and then as the level says. */
  lemma StartsByLevel(m: Machine, c: Call)
    requires !Timed(m.state) && !m.state.Error? && m.begin <= c.t
    ensures var n := Process(m, c);
            && (Timed(n.state)
                <==> if m.state.Unknown? then c.cfg.startDelay == 0 else c.t - m.begin > c.cfg.startDelay)
            && (Timed(n.state) ==> (n.state.Active? <==> !c.ok))
            && (!Timed(n.state) ==> n.state.Starting? && n.begin == if m.state.Unknown? then c.t else m.begin)
  {
  }

  /** A call that does not ask for the change stops the timer and leaves a timed state as it is; a change of state,
      and nothing else, restarts the clock that time limits are measured by, and clears the timer. */
  lemma CallMoves(m: Machine, c: Call)
    requires m.begin <= c.t
    ensures var n := Process(m, c);
            && (n.state != m.state ==> n.begin == c.t) && (n.state == m.state ==> n.begin == m.begin)
            && (Timed(n.state) && n.state != m.state ==> n.stable == 0)
            && (Timed(m.state) && !Asks(m.state, c) && !n.state.Error? ==> n.state == m.state && n.stable == 0)
            && (n.levelOk <==> c.ok && !(n.state.Active? && !m.state.Active?))
  {
  }

  /** A power change starts over, but for the stability timer. */
  lemma PowerStartsOver(m: Machine, c: Call)
    ensures !Init(m).state.Error? && !Timed(Init(m).state) && Init(m).stable == m.stable
    ensures Process(Init(m), c).state == if c.cfg.startDelay > 0 then Starting else if c.ok then Idle else Active
  {
  }

  // ----- the time bound and the latch -----

  /** Active was entered at call j and has held since. */
  ghost predicate ActiveSince(m: Machine, h: seq<Call>, j: nat) {
    && j < |h| && !Before(m, h, j).state.Active?
    && (forall k | j < k <= |h| :: Before(m, h, k).state.Active?)
    && Run(m, h).begin == h[j].t
  }

  /** While the machine asks for water, no more than the maximum has passed since it began to. */
  lemma {:induction false} RefillIsBounded(m: Machine, h: seq<Call>) returns (j: nat)
    requires InOrder(h) && !Timed(m.state) && Run(m, h).state.Active?
    ensures ActiveSince(m, h, j) && Run(m, h).begin == h[j].t
    ensures h[|h| - 1].t - h[j].t <= h[|h| - 1].cfg.maxRefill
    decreases |h|
  {
    hide InOrder, Process, Run, ActiveSince;
    var n := |h| - 1;
    assert h != [] by { RunNothing(m); }
    RunLast(m, h);
    ActiveWithin(Run(m, h[..n]), h[n]);
    InOrderPrefix(h, n);
    if Run(m, h[..n]).state.Active? {
      j := RefillIsBounded(m, h[..n]);
      ActiveLonger(m, h, j);
      InOrderAt(h, j, n);
    } else {
      j := n;
      ActiveFromNow(m, h);
    }
  }

  lemma RunNothing(m: Machine)
    ensures Run(m, []) == m
  {
  }

  /** Staying active is being within the bound; entering it starts the clock. */
  lemma ActiveWithin(p: Machine, c: Call)
    requires Process(p, c).state.Active?
    ensures if p.state.Active? then Process(p, c).begin == p.begin && Since(c.t, p.begin) <= c.cfg.maxRefill
            else Process(p, c).begin == c.t
  {
  }

  lemma ActiveLonger(m: Machine, h: seq<Call>, j: nat)
    requires h != [] && ActiveSince(m, h[..|h| - 1], j)
    requires Run(m, h).state.Active? && Run(m, h).begin == Run(m, h[..|h| - 1]).begin
    ensures ActiveSince(m, h, j) && j < |h| - 1 && h[j] == h[..|h| - 1][j]
  {
    hide Run;
    var n := |h| - 1;
    assert h[..|h|] == h;
    forall k | j <= k <= n ensures Before(m, h[..n], k) == Before(m, h, k) {
      BeforePrefix(m, h, n, k);
    }
  }

  lemma ActiveFromNow(m: Machine, h: seq<Call>)
    requires h != [] && !Run(m, h[..|h| - 1]).state.Active?
    requires Run(m, h).state.Active? && Run(m, h).begin == h[|h| - 1].t
    ensures ActiveSince(m, h, |h| - 1)
  {
    assert h[..|h|] == h;
  }

  /** Only a power change leaves Error. */
  lemma {:induction false} ErrorLatches(m: Machine, h: seq<Call>)
    requires m.state.Error?
    ensures Run(m, h).state.Error?
    decreases |h|
  {
    if h != [] {
      ErrorLatches(m, h[..|h| - 1]);
    }
  }

  /** The file's static variables, driven in place through state_machine.h. */
  class RefillMachine {
    var state: State
    var begin: u64
    var stable: nat
    var levelOk: bool
    var inError: bool

    ghost function Abs(): Machine
      reads this
    {
      Machine(state, begin, stable, levelOk)
    }

    /** boiler_refill_states_init: the first use of the timer is always after it has been cleared. */
    constructor ()
      ensures Abs() == Off
    {
      state, begin, stable, levelOk, inError := Unknown, 0, 0, false, false;
    }

    /** boiler_refill_states_power_on and boiler_refill_states_power_standby. */
    method PowerChanged()
      modifies this
      ensures Abs() == Init(old(Abs()))
    {
      begin := 0;
      state := Unknown;
    }

    method MoveTo(t: u64, s: State)
      modifies this
      ensures Abs() == Transition(old(Abs()), t, s) && inError == old(inError)
    {
      begin := t;
      state := s;
      match s
      case Idle => stable := 0;
      case Active =>
        levelOk := false;
        stable := 0;
      case _ =>
    }

    method Drive(c: Call)
      modifies this
      ensures Abs() == Process(old(Abs()), c)
    {
      levelOk := c.ok;
      inError := c.err;
      match state
      case Unknown =>
        if c.cfg.startDelay == 0 {
          MoveTo(c.t, if levelOk then Idle else Active);
        } else {
          MoveTo(c.t, Starting);
        }
      case Starting =>
        if Since(c.t, begin) > c.cfg.startDelay {
          MoveTo(c.t, if levelOk then Idle else Active);
        }
      case Idle =>
        if inError {
          MoveTo(c.t, Error);
        } else if !levelOk {
          if stable == 0 { stable := Tick(c.t); }
          if Since(c.t, stable) > c.cfg.lowHysteresis { MoveTo(c.t, Active); }
        } else {
          stable := 0;
        }
      case Active =>
        if inError || Since(c.t, begin) > c.cfg.maxRefill {
          MoveTo(c.t, Error);
        } else if levelOk {
          if stable == 0 { stable := Tick(c.t); }
          if Since(c.t, stable) > c.cfg.okHysteresis { MoveTo(c.t, Idle); }
        } else {
          stable := 0;
        }
      case Error =>
    }
  }
}
