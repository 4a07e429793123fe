/** The boiler control step: inhibits, setpoint trim, over-temperature cutoff and duty limits. */
module BoilerTemp {
  import opened Basics
  import opened Pid
  import P = ProcessImage

  const MaxValid: real := 140.0
  const MinTrimmed: real := 102.0

  datatype Cfg = Cfg(pid: Pid.Cfg, restartSec: nat, fullDuty: nat)

  datatype Trim = Trim(active: bool, value: real)

  datatype Stats = Stats(overLimit: nat, readErrors: nat, outOfRange: nat)

  datatype Boiler = Boiler(pid: State, trimmed: real, errorSec: real, stats: Stats, statsChanged: bool)

  /** What the step reads from the process image. */
  datatype Env = Env(power: bool, descale: bool, waterOk: bool)

  datatype Reading = Reading(value: real, fault: nat)

  /** One call of boiler_temp_process. */
  datatype Sample = Sample(env: Env, cfg: Cfg, trim: Trim, now: nat, reading: Reading, divByZero: real)

  /** restart: esp_restart was called. */
  datatype Outcome = Outcome(boiler: Boiler, duty: int, restart: bool)

  predicate Primary(c: Cfg) { c.pid.active == 0 }

  predicate Inhibited(e: Env) { !e.power || e.descale || !e.waterOk }

  predicate OutOfRange(r: Reading) { r.value > MaxValid || r.value < 0.0 }

  predicate Regulating(x: Sample) { !Inhibited(x.env) && x.reading.fault == 0 && !OutOfRange(x.reading) }

  /** The trimmed setpoint before it is capped. */
  function Proposed(trimmed: real, s: real, trim: Trim): real {
    (if trimmed == 0.0 then s else trimmed) + if trim.active then trim.value else 0.0
  }

  function Capped(proposed: real, s: real): real {
    if proposed > s then s else if proposed < MinTrimmed then MinTrimmed else proposed
  }

  function Trimmed(b: Boiler, x: Sample): real {
    if Primary(x.cfg) then Capped(Proposed(b.trimmed, x.cfg.pid.Setpoint(), x.trim), x.cfg.pid.Setpoint())
    else b.trimmed
  }

  /** The setpoint the PID regulates to. */
  function Target(b: Boiler, x: Sample): real {
    if Primary(x.cfg) then Trimmed(b, x) else x.cfg.pid.Setpoint()
  }

  /** round() of a duty from 0 to 100, as an int. */
  function Rounded(duty: real): int { (duty + 0.5).Floor }

  function LimitDuty(duty: real): real { if duty < 0.0 then 0.0 else if duty > 100.0 then 100.0 else duty }

  function Regulation(b: Boiler, x: Sample): Outcome {
    var r := Process(b.pid, x.cfg.pid.WithSetpoint(Target(b, x)), x.now, x.reading.value, x.divByZero);
    var duty := if r.1.over then 0.0 else if r.0.error > x.cfg.fullDuty as real then 100.0 else r.1.duty;
    var t := b.(pid := r.0, trimmed := Trimmed(b, x), errorSec := 0.0);
    Outcome(if r.1.over
            then t.(stats := t.stats.(overLimit := (t.stats.overLimit + 1) % U32), statsChanged := true)
            else t,
            Rounded(LimitDuty(duty)), false)
  }

  /** A faulted reading: count it, and restart if faults have lasted too long. */
  function SensorError(b: Boiler, x: Sample): Outcome {
    var sec := if b.pid.lastTime != 0 then b.errorSec + ((x.now - b.pid.lastTime) % U64) as real / 1000000.0
      else b.errorSec;
    var t := b.(errorSec := sec, stats := b.stats.(readErrors := (b.stats.readErrors + 1) % U32), statsChanged := true);
    if x.cfg.restartSec != 0 && sec > x.cfg.restartSec as real then Outcome(t, 0, true)
    else Outcome(t.(pid := t.pid.(lastTime := x.now)), 0, false)
  }

  function Step(b: Boiler, x: Sample): Outcome {
    if Inhibited(x.env) then Outcome(b, 0, false)
    else if x.reading.fault != 0 then SensorError(b, x)
    else if OutOfRange(x.reading) then
      Outcome(b.(stats := b.stats.(outOfRange := (b.stats.outOfRange + 1) % U32), statsChanged := true), 0, false)
    else Regulation(b, x)
  }

  /** POWER_STANDBY and POWER_ACTIVE. */
  function PowerEvent(b: Boiler): Boiler { b.(pid := Reset, errorSec := 0.0) }

  /** A power event forgets the PID and the error time, and nothing else. */
  lemma PowerEventForgets(b: Boiler)
    ensures var t := PowerEvent(b);
            && t.errorSec == 0.0 && t.pid.lastTime == 0 && t.pid.integral == t.pid.error == 0.0
            && t.trimmed == b.trimmed && t.stats == b.stats && t.statsChanged == b.statsChanged
  {
  }

  // ----- duty -----

  /** Whatever the PID asks for, the desired duty is a percentage; and it is positive only while regulating. */
  lemma DutyInRange(b: Boiler, x: Sample)
    ensures 0 <= Step(b, x).duty <= 100
    ensures Step(b, x).duty > 0 ==>
              && Regulating(x) && x.env.power && !x.env.descale && x.env.waterOk
              && x.reading.fault == 0 && 0.0 <= x.reading.value <= 140.0
  {
    hide Process, Target, Trimmed;
  }

  /** The whole number nearest to what was asked for, within 0 to 100. */
  predicate NearestDuty(duty: int, asked: real) {
    && (asked <= 0.0 ==> duty == 0) && (asked >= 100.0 ==> duty == 100)
    && (0.0 <= asked <= 100.0 ==> asked - 0.5 <= duty as real <= asked + 0.5)
  }

  lemma RoundedIsNearest(asked: real)
    ensures NearestDuty(Rounded(LimitDuty(asked)), asked)
  {
  }

  /** A regulating step runs the PID on the target: above its cutoff it heats no more, further below it than the
      configured distance it heats fully, and else it heats by what the PID asks for. */
  lemma RegulatedDuty(b: Boiler, x: Sample)
    requires x.env.power && !x.env.descale && x.env.waterOk && x.reading.fault == 0 && 0.0 <= x.reading.value <= 140.0
    ensures var o, r := Step(b, x),
                        Process(b.pid, x.cfg.pid.WithSetpoint(Target(b, x)), x.now, x.reading.value, x.divByZero);
            && o.boiler.pid == r.0 && o.boiler.errorSec == 0.0 && !o.restart
            && (r.1.over ==> o.duty == 0)
            && (!r.1.over && r.0.error > x.cfg.fullDuty as real ==> o.duty == 100)
            && (!r.1.over && r.0.error <= x.cfg.fullDuty as real ==> NearestDuty(o.duty, r.1.duty))
            && o.boiler.stats == if r.1.over then b.stats.(overLimit := (b.stats.overLimit + 1) % U32) else b.stats
  {
    hide Process, Target, Trimmed, Rounded, LimitDuty;
    var r := Process(b.pid, x.cfg.pid.WithSetpoint(Target(b, x)), x.now, x.reading.value, x.divByZero);
    RoundedIsNearest(r.1.duty);
    RoundedIsNearest(0.0);
    RoundedIsNearest(100.0);
  }

  /** With nothing to regulate the controller is left alone, and only a reading that was looked at is counted. */
  lemma IdleSteps(b: Boiler, x: Sample)
    requires !Regulating(x)
    ensures var o := Step(b, x);
            && o.duty == 0
            && (!x.env.power || x.env.descale || !x.env.waterOk ==> o.boiler == b && !o.restart)
            && (x.reading.fault == 0 ==> o.boiler.pid == b.pid && o.boiler.errorSec == b.errorSec && !o.restart)
            && (x.env.power && !x.env.descale && x.env.waterOk ==>
                  o.boiler.stats == if x.reading.fault != 0 then b.stats.(readErrors := (b.stats.readErrors + 1) % U32)
                                    else b.stats.(outOfRange := (b.stats.outOfRange + 1) % U32))
  {
    hide Process, Regulation;
  }

  /** The PID's invariant holds over every run, so long as the clock has started. */
  lemma StepKeepsPidInv(b: Boiler, x: Sample)
    requires Inv(b.pid) && x.now > 0
    ensures Inv(Step(b, x).boiler.pid)
  {
    hide Process, Inv, Target, Trimmed;
    assert Inv(Reset) && Inv(b.pid.(lastTime := x.now)) by { PidInvBasics(b.pid, x.now); }
    ProcessKeepsInv(b.pid, x.cfg.pid.WithSetpoint(Target(b, x)), x.now, x.reading.value, x.divByZero);
  }

  lemma PowerKeepsPidInv(b: Boiler)
    ensures Inv(PowerEvent(b).pid)
  {
  }

  lemma PidInvBasics(s: State, now: nat)
    requires Inv(s) && now > 0
    ensures Inv(Reset) && Inv(s.(lastTime := now))
  {
  }

  // ----- runs -----

  datatype Act = Sampled(x: Sample) | PowerChanged

  function After(b: Boiler, a: Act): Boiler {
    match a
    case Sampled(x) => Step(b, x).boiler
    case PowerChanged => PowerEvent(b)
  }

  function Run(b: Boiler, acts: seq<Act>): Boiler {
    if acts == [] then b else After(Run(b, acts[..|acts| - 1]), acts[|acts| - 1])
  }

  /** boiler_temp_init. */
  function Boot(setpoint: real): Boiler { Boiler(Reset, setpoint, 0.0, Stats(0, 0, 0), false) }

  predicate ClockStarted(acts: seq<Act>) { forall k | 0 <= k < |acts| && acts[k].Sampled? :: acts[k].x.now > 0 }

  /** Every sample is taken on a legal configuration, after the clock has started. */
  predicate Configured(acts: seq<Act>) {
    ClockStarted(acts) && forall k | 0 <= k < |acts| && acts[k].Sampled? :: InRange(acts[k].x.cfg.pid)
  }

  lemma {:induction false} RunKeepsPidInv(b: Boiler, acts: seq<Act>)
    requires ClockStarted(acts) && Inv(b.pid)
    ensures Inv(Run(b, acts).pid)
    decreases |acts|
  {
    hide Step, Inv;
    if acts != [] {
      var n := |acts| - 1;
      RunKeepsPidInv(b, acts[..n]);
      if acts[n].Sampled? {
        StepKeepsPidInv(Run(b, acts[..n]), acts[n].x);
      } else {
        PowerKeepsPidInv(Run(b, acts[..n]));
      }
    }
  }

  // ----- trim -----

  /** Trim can only lower the setpoint, and never below 102, if the setpoint is at least 102. */
  lemma TrimStaysBelow(b: Boiler, x: Sample)
    requires Regulating(x) && Primary(x.cfg) && x.cfg.pid.Setpoint() >= MinTrimmed
    ensures MinTrimmed <= Step(b, x).boiler.trimmed <= x.cfg.pid.Setpoint() && Target(b, x) == Step(b, x).boiler.trimmed
  {
    hide Process;
  }

  /** Below 102 the floor lifts the trimmed setpoint above the configured one, unless the cap is hit first. */
  lemma TrimExact(b: Boiler, x: Sample)
    requires Regulating(x) && Primary(x.cfg)
    ensures var s, t := x.cfg.pid.Setpoint(), Step(b, x).boiler.trimmed;
            && (t <= s <==> s >= MinTrimmed || Proposed(b.trimmed, s, x.trim) > s)
            && (s < MinTrimmed ==> t == if Proposed(b.trimmed, s, x.trim) > s then s else MinTrimmed)
            && (t == s || MinTrimmed <= t <= s || t == MinTrimmed) && Target(b, x) == t
  {
    hide Process;
  }

  /** A trim is added to the trimmed setpoint, as far as floor and cap leave room; none leaves it where it is; and a
      controller without one starts from the setpoint. */
  lemma TrimIsAdded(b: Boiler, x: Sample)
    requires Regulating(x) && Primary(x.cfg) && x.cfg.pid.Setpoint() >= MinTrimmed
    ensures var s, t := x.cfg.pid.Setpoint(), Step(b, x).boiler.trimmed;
            var from := if b.trimmed == 0.0 then s else b.trimmed;
            && (x.trim.active && 102.0 <= from + x.trim.value <= s ==> t - from == x.trim.value)
            && (!x.trim.active && 102.0 <= from <= s ==> t == from)
            && (x.trim.active && from + x.trim.value < 102.0 ==> t == 102.0)
            && (x.trim.active && from + x.trim.value > s ==> t == s)
  {
    hide Process;
  }

  /** Without a PID step nothing touches the trimmed setpoint. */
  lemma TrimUntouched(b: Boiler, x: Sample)
    requires !Regulating(x) || !Primary(x.cfg)
    ensures Step(b, x).boiler.trimmed == b.trimmed && PowerEvent(b).trimmed == b.trimmed
  {
    hide Process;
  }

  /** Acts that leave the primary setpoint alone. */
  predicate Quiet(acts: seq<Act>) {
    forall k | 0 <= k < |acts| && acts[k].Sampled? :: !Regulating(acts[k].x) || !Primary(acts[k].x.cfg)
  }

  lemma {:induction false} QuietKeepsTrim(b: Boiler, acts: seq<Act>)
    requires Quiet(acts)
    ensures Run(b, acts).trimmed == b.trimmed
    decreases |acts|
  {
    hide Step;
    if acts != [] {
      var n := |acts| - 1;
      QuietKeepsTrim(b, acts[..n]);
      if acts[n].Sampled? { TrimUntouched(Run(b, acts[..n]), acts[n].x); }
    }
  }

  /** In every configured run the trimmed setpoint stays where setpoints may be: it is never found unset. */
  lemma {:induction false} TrimmedInRange(setpoint: real, acts: seq<Act>)
    requires 50.0 <= setpoint <= 140.0 && Configured(acts)
    ensures 50.0 <= Run(Boot(setpoint), acts).trimmed <= 140.0
    decreases |acts|
  {
    hide Step;
    if acts != [] {
      var n := |acts| - 1;
      var b := Run(Boot(setpoint), acts[..n]);
      TrimmedInRange(setpoint, acts[..n]);
      if acts[n].Sampled? {
        var x := acts[n].x;
        if Regulating(x) && Primary(x.cfg) { TrimExact(b, x); } else { TrimUntouched(b, x); }
      }
    }
  }

  /** With a setpoint below 102 and no trim, each PID step moves the target to the other of the setpoint and 102. */
  lemma TrimAlternates(b: Boiler, x: Sample, quiet: seq<Act>, y: Sample)
    requires AlikeBelowFloor(x, y) && Quiet(quiet)
    ensures var s, t := x.cfg.pid.Setpoint(), Step(b, x).boiler;
            && (t.trimmed == s || t.trimmed == MinTrimmed)
            && Target(b, x) == t.trimmed && Target(Run(t, quiet), y) == if t.trimmed == s then MinTrimmed else s
  {
    hide Step;
    TrimExact(b, x);
    QuietKeepsTrim(Step(b, x).boiler, quiet);
  }

  /** Two PID steps on the primary setpoint, the same and below 102 for both, with no trim. */
  predicate AlikeBelowFloor(x: Sample, y: Sample) {
    && Regulating(x) && Regulating(y) && Primary(x.cfg) && Primary(y.cfg) && !x.trim.active && !y.trim.active
    && 0.0 < x.cfg.pid.Setpoint() == y.cfg.pid.Setpoint() < MinTrimmed
  }

  // ----- the over-temperature cutoff -----

  /** The reading is above the configured setpoint by more than the configured percentage. */
  predicate TooHot(c: Pid.Cfg, value: real) { c.over > 0.0 && value > c.Setpoint() + c.over * c.Setpoint() / 100.0 }

  lemma OverIsMonotone(over: real, target: real, s: real)
    requires over > 0.0 && target <= s
    ensures over * target / 100.0 <= over * s / 100.0
  {
    assert over * (s - target) >= 0.0;
  }

  /** A target no higher than the setpoint cuts off no later. */
  lemma LowerTargetCutsSooner(b: Boiler, x: Sample)
    requires Inv(b.pid) && Regulating(x) && Target(b, x) <= x.cfg.pid.Setpoint() && TooHot(x.cfg.pid, x.reading.value)
    ensures Step(b, x).duty == 0
  {
    hide Process, Target, Trimmed, Rounded;
    var c := x.cfg.pid.WithSetpoint(Target(b, x));
    ProcessYields(b.pid, c, x.now, x.reading.value, x.divByZero);
    OverIsMonotone(c.over, Target(b, x), x.cfg.pid.Setpoint());
    assert Rounded(0.0) == 0 by { ZeroRounds(); }
  }

  lemma ZeroRounds()
    ensures Rounded(0.0) == 0
  {
  }

  /** A PID step on the primary setpoint of a legal configuration, with a reading that is too hot for it. */
  predicate HotStep(x: Sample) {
    Regulating(x) && Primary(x.cfg) && InRange(x.cfg.pid) && TooHot(x.cfg.pid, x.reading.value)
  }

  /** The guarantee for a primary setpoint s: in every run from boot on legal configurations, whatever the trims,
      gains and readings before, a reading too far above s heats no more. */
  ghost predicate CutoffHolds(s: real) {
    forall boot: real, acts: seq<Act>, x: Sample |
      50.0 <= boot <= 140.0 && Configured(acts) && HotStep(x) && x.cfg.pid.setpoint0 == s ::
      Step(Run(Boot(boot), acts), x).duty == 0
  }

  /** One reading, too hot for s, at a given second, on a fixed configuration and with no trim. */
  function Witness(s: real, second: nat): Sample
    requires 50.0 <= s < MinTrimmed
  {
    var over := 100.0 * (MinTrimmed - s) / (3.0 * s);
    var cfg := Cfg.Cfg(Pid.Cfg.Cfg(7.0, 0.0, 0.0, 5.0, s, 140.0, 0, over), 60, 0);
    Sample(Env(true, false, true), cfg, Trim(false, 0.0), 1000000 * second, Reading(s + (MinTrimmed - s) / 2.0, 0), 0.0)
  }

  /** The same reading twice, a second apart, from boot with s configured. */
  function WitnessRun(s: real): seq<Act>
    requires 50.0 <= s < MinTrimmed
  {
    [Sampled(Witness(s, 1)), Sampled(Witness(s, 2))]
  }

  lemma WitnessLimits(s: real)
    requires 50.0 <= s < MinTrimmed
    ensures var over := 100.0 * (MinTrimmed - s) / (3.0 * s);
            0.0 < over < 40.0 && over * s / 100.0 == (MinTrimmed - s) / 3.0
  {
    var over := 100.0 * (MinTrimmed - s) / (3.0 * s);
    assert over * s == 100.0 * (MinTrimmed - s) / 3.0;
    assert 40.0 * s >= 2000.0 > 100.0 * (MinTrimmed - s) / 3.0;
    ScaleKeepsOrder(40.0, over, s);
    ScaleKeepsOrder(over, 0.0, s);
  }

  lemma ScaleKeepsOrder(a: real, b: real, s: real)
    requires s > 0.0
    ensures a <= b ==> a * s <= b * s
  {
    if a <= b { assert (b - a) * s >= 0.0; }
  }

  lemma WitnessIsHot(s: real, second: nat)
    requires 50.0 <= s < MinTrimmed
    ensures var x := Witness(s, second); HotStep(x) && x.cfg.pid.Setpoint() == x.cfg.pid.setpoint0 == s
    ensures var x := Witness(s, second); !x.trim.active && x.now == 1000000 * second
  {
    WitnessLimits(s);
  }

  lemma RunTwo(b: Boiler, x: Sample, y: Sample)
    ensures Run(b, [Sampled(x), Sampled(y)]) == Step(Step(b, x).boiler, y).boiler
  {
    hide Step;
    var acts := [Sampled(x), Sampled(y)];
    var one := acts[..1];
    assert one == [Sampled(x)] && one[..0] == [];
    assert Run(b, one) == After(Run(b, one[..0]), one[0]);
    assert Run(b, acts) == After(Run(b, one), acts[1]);
  }

  lemma StepTakesTime(b: Boiler, x: Sample)
    requires Regulating(x)
    ensures Step(b, x).boiler.pid.lastTime == x.now
  {
    hide Regulate, Target, Trimmed, DeltaT;
  }

  /** From boot with a setpoint s below 102, two such steps end with s as the trimmed setpoint. */
  lemma TwoStepsBelowFloor(s: real, x: Sample, y: Sample)
    requires AlikeBelowFloor(x, y) && x.cfg.pid.Setpoint() == s
    ensures var b := Step(Step(Boot(s), x).boiler, y).boiler; b.trimmed == s && b.pid.lastTime == y.now
  {
    hide Step;
    TrimExact(Boot(s), x);
    TrimExact(Step(Boot(s), x).boiler, y);
    StepTakesTime(Step(Boot(s), x).boiler, y);
  }

  /** After two such readings the trimmed setpoint is s and the controller has a sample a second old. */
  lemma WitnessReached(s: real)
    requires 50.0 <= s < MinTrimmed
    ensures Configured(WitnessRun(s))
    ensures var b := Run(Boot(s), WitnessRun(s)); b.trimmed == s && b.pid.lastTime == 2000000
  {
    hide Witness, Step, TooHot;
    var x, y := Witness(s, 1), Witness(s, 2);
    WitnessIsHot(s, 1);
    WitnessIsHot(s, 2);
    TwoStepsBelowFloor(s, x, y);
    RunTwo(Boot(s), x, y);
    assert WitnessRun(s) == [Sampled(x), Sampled(y)];
  }

  /** For every lower setpoint, a run from boot on one legal configuration, with the same reading three times and no
      trim: though the reading is too hot, the third step heats at full power. */
  lemma BelowFloorHeats(s: real)
    requires 50.0 <= s < MinTrimmed
    ensures Configured(WitnessRun(s)) && HotStep(Witness(s, 3)) && Witness(s, 3).cfg.pid.setpoint0 == s
    ensures Step(Run(Boot(s), WitnessRun(s)), Witness(s, 3)).duty == 100
  {
    WitnessReached(s);
    WitnessIsHot(s, 3);
    WitnessLimits(s);
    var b, x := Run(Boot(s), WitnessRun(s)), Witness(s, 3);
    hide Run, Configured;
    assert Target(b, x) == MinTrimmed;
    assert x.cfg.pid.over * MinTrimmed / 100.0 >= 0.0;
  }

  /** The cutoff at the configured setpoint holds in every run exactly when the setpoint is at least 102. */
  lemma CutoffIffAboveFloor(s: real)
    requires 50.0 <= s <= 140.0
    ensures CutoffHolds(s) <==> s >= MinTrimmed
  {
    hide Step;
    if s >= MinTrimmed {
      forall boot: real, acts: seq<Act>, x: Sample |
        50.0 <= boot <= 140.0 && Configured(acts) && HotStep(x) && x.cfg.pid.setpoint0 == s
        ensures Step(Run(Boot(boot), acts), x).duty == 0
      {
        EveryRunCutsOff(boot, acts, x);
      }
    } else {
      BelowFloorHeats(s);
    }
  }

  /** Below 102 the cutoff is late, not lost: of two successive PID steps, with anything else in between,
      at least one heats no more. */
  lemma EverySecondStepCuts(b: Boiler, x: Sample, quiet: seq<Act>, y: Sample)
    requires AlikeBelowFloor(x, y) && Quiet(quiet) && ClockStarted(quiet) && Inv(b.pid) && x.now > 0
    requires TooHot(x.cfg.pid, x.reading.value) && TooHot(y.cfg.pid, y.reading.value)
    ensures Step(b, x).duty == 0 || Step(Run(Step(b, x).boiler, quiet), y).duty == 0
  {
    hide Step, TooHot, Target, Inv;
    TrimAlternates(b, x, quiet, y);
    StepKeepsPidInv(b, x);
    RunKeepsPidInv(Step(b, x).boiler, quiet);
    if Step(b, x).boiler.trimmed == x.cfg.pid.Setpoint() {
      LowerTargetCutsSooner(b, x);
    } else {
      LowerTargetCutsSooner(Run(Step(b, x).boiler, quiet), y);
    }
  }

  /** The steam setpoint is never trimmed, and cuts off at itself whatever it is. */
  lemma SteamCutoff(b: Boiler, x: Sample)
    requires Inv(b.pid) && Regulating(x) && !Primary(x.cfg) && TooHot(x.cfg.pid, x.reading.value)
    ensures Step(b, x).duty == 0
  {
    LowerTargetCutsSooner(b, x);
  }

  /** In every run, whatever the trims and however configuration and power change between steps: a setpoint of
      at least 102 is never exceeded by its trim, and a reading too hot for the setpoint in force yields duty 0. */
  lemma EveryRunCutsOff(setpoint: real, acts: seq<Act>, x: Sample)
    requires ClockStarted(acts) && Regulating(x)
    ensures var b := Run(Boot(setpoint), acts);
            var s := x.cfg.pid.Setpoint();
            && (Primary(x.cfg) && s >= MinTrimmed ==> MinTrimmed <= Step(b, x).boiler.trimmed <= s)
            && (TooHot(x.cfg.pid, x.reading.value) && (s >= MinTrimmed || !Primary(x.cfg)) ==> Step(b, x).duty == 0)
  {
    hide Step, TooHot;
    var b := Run(Boot(setpoint), acts);
    RunKeepsPidInv(Boot(setpoint), acts);
    if Primary(x.cfg) {
      if x.cfg.pid.Setpoint() >= MinTrimmed { TrimStaysBelow(b, x); }
    }
    if TooHot(x.cfg.pid, x.reading.value) && (x.cfg.pid.Setpoint() >= MinTrimmed || !Primary(x.cfg)) {
      LowerTargetCutsSooner(b, x);
    }
  }

  // ----- successive sensor errors -----

  /** Faulted readings one after another, none of which restarts the controller. */
  predicate Faulted(b: Boiler, xs: seq<Sample>)
    decreases |xs|
  {
    xs == [] || (!Inhibited(xs[0].env) && xs[0].reading.fault != 0 && !Step(b, xs[0]).restart
                 && b.pid.lastTime <= xs[0].now < U64 && 0 < xs[0].now && Faulted(Step(b, xs[0]).boiler, xs[1..]))
  }

  function StepAll(b: Boiler, xs: seq<Sample>): Boiler
    decreases |xs|
  {
    if xs == [] then b else StepAll(Step(b, xs[0]).boiler, xs[1..])
  }

  /** The error time is exactly the time since the last good sample, however the faults were spaced. */
  lemma {:induction false} ErrorTimeAdds(b: Boiler, xs: seq<Sample>)
    requires Faulted(b, xs) && b.pid.lastTime > 0 && xs != []
    ensures var last := xs[|xs| - 1].now;
            StepAll(b, xs).errorSec == b.errorSec + (last - b.pid.lastTime) as real / 1000000.0
            && StepAll(b, xs).pid.lastTime == last
    decreases |xs|
  {
    var t := Step(b, xs[0]).boiler;
    assert (xs[0].now - b.pid.lastTime) % U64 == xs[0].now - b.pid.lastTime;
    if |xs| > 1 {
      ErrorTimeAdds(t, xs[1..]);
    } else {
      assert StepAll(t, xs[1..]) == t;
    }
  }

  /** The controller restarts on a fault exactly when restarting is on and the error time has passed its limit. */
  lemma RestartIff(b: Boiler, x: Sample)
    requires b.pid.lastTime != 0 && b.pid.lastTime <= x.now < U64
    ensures Step(b, x).restart <==>
      && !Inhibited(x.env) && x.reading.fault != 0 && x.cfg.restartSec != 0
      && b.errorSec + (x.now - b.pid.lastTime) as real / 1000000.0 > x.cfg.restartSec as real
  {
    hide Process, Trimmed, Target;
    assert (x.now - b.pid.lastTime) % U64 == x.now - b.pid.lastTime;
  }

  /** boiler_temp.cpp's static variables, driven in place. */
  class Control {
    const img: P.Shared
    const pid: Controller
    var trimmed: real
    var errorSec: real
    var stats: Stats
    var statsChanged: bool

    ghost function Abs(): Boiler
      reads this, pid
    {
      Boiler(pid.Abs(), trimmed, errorSec, stats, statsChanged)
    }

    ghost function EnvNow(): Env
      reads img
    {
      Env(img.power, img.descale, img.waterOk)
    }

    /** boiler_temp_init. */
    constructor (img: P.Shared, setpoint: real)
      ensures Abs() == Boot(setpoint) && this.img == img && fresh(pid)
    {
      this.img := img;
      pid := new Controller();
      trimmed, errorSec, stats, statsChanged := setpoint, 0.0, Stats(0, 0, 0), false;
    }

    /** POWER_STANDBY and POWER_ACTIVE; standby also takes the desired duty back. */
    method OnPower(active: bool)
      modifies this`errorSec, pid, img`desired
      ensures Abs() == PowerEvent(old(Abs())) && img.desired == if active then old(img.desired) else 0
    {
      pid.Clear();
      if !active { img.desired := 0; }
      errorSec := 0.0;
    }

    /** boiler_temp_process; the caller restarts the controller when told to. */
    method Run(cfg: Cfg, trim: Trim, now: nat, reading: Reading, divByZero: real) returns (restart: bool)
      modifies this, pid, img`desired
      ensures var x := Sample(old(EnvNow()), cfg, trim, now, reading, divByZero);
              Outcome(Abs(), img.desired, restart) == Step(old(Abs()), x)
    {
      hide Pid.Process, Regulation, SensorError;
      restart := false;
      if !img.power || img.descale || !img.waterOk {
        img.desired := 0;
      } else if reading.fault != 0 {
        restart := OnSensorError(Sample(EnvNow(), cfg, trim, now, reading, divByZero), cfg.restartSec, now);
      } else if OutOfRange(reading) {
        stats := stats.(outOfRange := (stats.outOfRange + 1) % U32);
        statsChanged := true;
        img.desired := 0;
      } else {
        Regulate(Sample(EnvNow(), cfg, trim, now, reading, divByZero), cfg, trim, now, reading, divByZero);
      }
    }

    method OnSensorError(ghost x: Sample, restartSec: nat, now: nat) returns (restart: bool)
      requires x.now == now && x.cfg.restartSec == restartSec
      modifies this, pid`lastTime, img`desired
      ensures Outcome(Abs(), img.desired, restart) == SensorError(old(Abs()), x)
    {
      stats := stats.(readErrors := (stats.readErrors + 1) % U32);
      statsChanged := true;
      img.desired := 0;
      if pid.lastTime != 0 { errorSec := errorSec + ((now - pid.lastTime) % U64) as real / 1000000.0; }
      if restartSec != 0 && errorSec > restartSec as real { return true; }
      pid.lastTime := now;
      return false;
    }

    method Regulate(ghost x: Sample, cfg: Cfg, trim: Trim, now: nat, reading: Reading, divByZero: real)
      requires x == Sample(x.env, cfg, trim, now, reading, divByZero)
      modifies this, pid, img`desired
      ensures Outcome(Abs(), img.desired, false) == Regulation(old(Abs()), x)
    {
      hide Pid.Process;
      errorSec := 0.0;
      var setpoint := cfg.pid.Setpoint();
      if cfg.pid.active == 0 {
        if trimmed == 0.0 { trimmed := setpoint; }
        if trim.active { trimmed := trimmed + trim.value; }
        if trimmed > setpoint {
          trimmed := setpoint;
        } else if trimmed < MinTrimmed {
          trimmed := MinTrimmed;
        }
        setpoint := trimmed;
      }
      var result := pid.Sample(cfg.pid.WithSetpoint(setpoint), now, reading.value, divByZero);
      var duty := result.duty;
      if result.over {
        stats := stats.(overLimit := (stats.overLimit + 1) % U32);
        statsChanged := true;
        duty := 0.0;
      } else if pid.error > cfg.fullDuty as real {
        duty := 100.0;
      }
      img.desired := Rounded(LimitDuty(duty));
    }
  }
}
