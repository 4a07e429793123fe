/**
 * All tasks together, one step at a time: scans, remote power commands, published
 * temperatures, level readings, control steps and power events, in any order.
 * A scan is one step; so is every write of another task.
 */
module MachineRuns {
  import opened Basics
  import opened ProcessImage
  import opened IoScan
  import opened IoScanSafety
  import Debounce
  import Refill
  import SensorTask
  import BoilerTemp

  /** What a scan detects, for telling the story of a run. */
  datatype Event = PoweredOn | PoweredOff | Pressed | Released

  datatype System = System(
    scan: Scanner,
    boiler: BoilerTemp.Boiler,
    sensor: SensorTask.Sensor,
    published: seq<Temp>,   // boiler temperatures the seqlock has published; [0] is the boot default
    controlPick: nat,       // the newest of them the control loop has been given
    lastUs: nat,            // when the last scan was
    entered: nat,           // when the refill machine last became active, in ms
    events: seq<Event>,
    halted: bool)           // the controller has been restarted: the run is over

  datatype Step =
    | ScanStep(switches: Inputs, edgeUs: nat, nowUs: u64, endUs: nat, cfg: Refill.Cfg)
    | Remote(on: bool)
    | Publish(temp: Temp)
    | ReadLevel(levels: SensorTask.Cfg, probe: SensorTask.Probe)
    | Control(control: BoilerTemp.Cfg, trim: BoilerTemp.Trim, now: nat, pick: nat, divByZero: real)
    | PowerEvent(active: bool)

  const NeverPublished := Temp(0.0, 1)

  function Boot(x: Inputs, brew2: bool, steam2: bool, setpoint: real): System {
    System(AtBoot(x, brew2, steam2, Refill.Off), BoilerTemp.Boot(setpoint), SensorTask.Fresh, [NeverPublished], 0, 0, 0,
           if x.power then [PoweredOn] else [], false)
  }

  /** What a scan is given; SharedRuns derives it from the words the scan reads. */
  function Newest(s: System): Temp {
    if s.published == [] then NeverPublished else s.published[|s.published| - 1]
  }

  /** The control loop reads before it computes: a published pair no older than the last one it was given. */
  predicate MayPick(s: System, pick: nat) { s.controlPick <= pick < |s.published| }

  predicate Enabled(s: System, step: Step) {
    !s.halted &&
    match step
    case ScanStep(_, _, nowUs, _, _) => s.lastUs <= nowUs
    case Control(_, _, _, pick, _) => MayPick(s, pick)
    case ReadLevel(_, _) => s.scan.img.power && !s.scan.img.descale
    case _ => true
  }

  function ReadingOf(s: System, step: Step): Reading
    requires step.ScanStep? && Enabled(s, step)
  {
    ReadingWith(step, Newest(s))
  }

  function ReadingWith(step: Step, boiler: Temp): Reading
    requires step.ScanStep?
  {
    Reading(step.switches, step.edgeUs, step.nowUs, step.cfg, boiler)
  }

  /** What the scan from s to t detected: power first, then the brew switch. */
  function Detected(s: Scanner, t: Scanner): seq<Event> {
    (if s.prevPower == t.prevPower then [] else if t.prevPower then [PoweredOn] else [PoweredOff])
    + (if s.brewDb.stable == t.brewDb.stable then [] else if t.brewDb.stable then [Pressed] else [Released])
  }

  function AfterScan(s: System, step: Step): System
    requires step.ScanStep? && Enabled(s, step)
  {
    ScanGiven(s, step, Newest(s))
  }

  /** A scan that has read this boiler temperature. */
  function ScanGiven(s: System, step: Step, boiler: Temp): System
    requires step.ScanStep?
  {
    var t := Scan(s.scan, ReadingWith(step, boiler), step.endUs);
    s.(scan := t, lastUs := step.nowUs, events := s.events + Detected(s.scan, t),
       entered := if t.refill.state.Active? && !s.scan.refill.state.Active? then step.nowUs / 1000 else s.entered)
  }

  function SampleOf(s: System, step: Step): BoilerTemp.Sample
    requires step.Control? && Enabled(s, step)
  {
    SampleWith(s, step, s.published[step.pick])
  }

  function SampleWith(s: System, step: Step, t: Temp): BoilerTemp.Sample
    requires step.Control?
  {
    var img := s.scan.img;
    BoilerTemp.Sample(BoilerTemp.Env(img.power, img.descale, img.waterOk), step.control, step.trim, step.now,
                      BoilerTemp.Reading(t.value, t.fault), step.divByZero)
  }

  /** A control step that has read this boiler temperature. */
  function ControlGiven(s: System, step: Step, t: Temp): System
    requires step.Control?
  {
    var o := BoilerTemp.Step(s.boiler, SampleWith(s, step, t));
    WithImage(s, s.scan.img.(desired := o.duty)).(boiler := o.boiler, controlPick := step.pick, halted := o.restart)
  }

  function WithImage(s: System, img: Image): System { s.(scan := s.scan.(img := img)) }

  /** One step; a step that is not enabled changes nothing. */
  function Next(s: System, step: Step): System {
    if !Enabled(s, step) then s
    else
      match step
      case ScanStep(_, _, _, _, _) => AfterScan(s, step)
      case Remote(on) => WithImage(s, s.scan.img.(power := on))
      case Publish(temp) => s.(published := s.published + [temp])
      case ReadLevel(c, p) =>
        WithImage(s, SensorTask.ImageAfter(s.sensor, s.scan.img, c, p))
        .(sensor := SensorTask.SensorAfter(s.sensor, c, p))
      case Control(_, _, _, pick, _) => ControlGiven(s, step, s.published[pick])
      case PowerEvent(active) =>
        WithImage(s, s.scan.img.(desired := if active then s.scan.img.desired else 0))
        .(boiler := BoilerTemp.PowerEvent(s.boiler))
  }

  function Run(s: System, steps: seq<Step>): System {
    if steps == [] then s else Next(Run(s, steps[..|steps| - 1]), steps[|steps| - 1])
  }

  // ----- invariants of every run -----

  /** After position i power has not changed. */
  predicate PowerSettled(e: seq<Event>, i: int) {
    0 <= i < |e| && e[i].PoweredOn? && forall k | i < k < |e| :: e[k].Pressed? || e[k].Released?
  }

  /** Since the power-on at i the brew switch has been released, and then pressed. */
  predicate ReleasedAt(e: seq<Event>, i: int, j: int) { i < j < |e| && 0 <= j && e[j].Released? }
  predicate PressedAfter(e: seq<Event>, j: int, k: int) { j < k < |e| && 0 <= k && e[k].Pressed? }

  ghost predicate ReleasedSince(e: seq<Event>, i: int, pumping: bool) {
    exists j :: ReleasedAt(e, i, j) && (pumping ==> exists k :: PressedAfter(e, j, k))
  }

  /** Power came on at i and has stayed on; since then the switch has been released if not locked out,
      and then pressed if pumping. */
  ghost predicate StoryAt(e: seq<Event>, i: int, lockout: bool, pumping: bool) {
    PowerSettled(e, i) && (lockout || ReleasedSince(e, i, pumping))
  }

  ghost predicate DescaleStory(s: System) {
    s.scan.img.descale ==> exists i :: StoryAt(s.events, i, s.scan.lockout, s.scan.img.brewActive)
  }

  predicate LastIsPress(e: seq<Event>) { e != [] && e[|e| - 1].Pressed? }

  /** A brew runs exactly from a press to the next release, or the next power change. */
  predicate BrewStory(s: System) { BrewHeld(s.scan, LastIsPress(s.events)) }

  predicate RefillClock(s: System) {
    s.scan.refill.state.Active? ==> s.scan.refill.begin == s.entered <= s.lastUs / 1000
  }

  predicate ReadersBehind(s: System) {
    s.published != [] && s.published[0] == NeverPublished && s.controlPick < |s.published|
  }

  ghost predicate SysInv(s: System) {
    IoScan.Inv(s.scan) && OthersWell(s) && RefillClock(s) && DescaleStory(s) && BrewStory(s)
  }

  lemma BootInv(x: Inputs, brew2: bool, steam2: bool, setpoint: real)
    ensures SysInv(Boot(x, brew2, steam2, setpoint))
  {
    BootKeeps(x, brew2, steam2);
  }

  /** Between scans only the image fields of the other tasks change, and power. */
  predicate OwnedByOthers(a: Image, b: Image) {
    b == a.(power := b.power, levelMv := b.levelMv, medianMv := b.medianMv, corrosion := b.corrosion,
            level := b.level, waterOk := b.waterOk, desired := b.desired)
  }

  predicate BetweenScans(s: System, t: System) {
    && OwnedByOthers(s.scan.img, t.scan.img) && t.scan == s.scan.(img := t.scan.img)
    && t.events == s.events && t.lastUs == s.lastUs && t.entered == s.entered
  }

  lemma OtherKeepsScanInv(s: Scanner, img: Image)
    requires IoScan.Inv(s) && OwnedByOthers(s.img, img)
    ensures IoScan.Inv(s.(img := img))
  {
  }

  lemma NotAScan(s: System, step: Step)
    requires !step.ScanStep?
    ensures BetweenScans(s, Next(s, step))
  {
    hide BoilerTemp.Step, SensorTask.SensorAfter, SensorTask.Shown, SensorTask.Wet;
  }

  /** The fields of other tasks are in range, and the readers behind what is published. */
  predicate OthersWell(s: System) {
    0 <= s.scan.img.desired <= 100 && SensorTask.Coherent(s.scan.img) && ReadersBehind(s)
  }

  lemma LevelWell(s: System, c: SensorTask.Cfg, p: SensorTask.Probe)
    requires OthersWell(s)
    ensures OthersWell(Next(s, ReadLevel(c, p)))
  {
    hide SensorTask.SensorAfter, SensorTask.ImageAfter, SensorTask.Coherent;
    SensorTask.ReadingIsCoherent(s.sensor, s.scan.img, c, p);
    LevelLeavesDuty(s.sensor, s.scan.img, c, p);
  }

  lemma ControlWell(s: System, step: Step)
    requires OthersWell(s) && step.Control?
    ensures OthersWell(Next(s, step))
  {
    hide BoilerTemp.Step, SampleWith;
    if Enabled(s, step) { BoilerTemp.DutyInRange(s.boiler, SampleOf(s, step)); }
  }

  lemma RestWell(s: System, step: Step)
    requires OthersWell(s) && (step.Remote? || step.Publish? || step.PowerEvent?)
    ensures OthersWell(Next(s, step))
  {
  }

  /** What the other tasks write is in range. */
  lemma OthersWriteWell(s: System, step: Step)
    requires !step.ScanStep? && OthersWell(s)
    ensures OthersWell(Next(s, step))
  {
    hide Next, OthersWell;
    match step
    case ReadLevel(c, p) => LevelWell(s, c, p);
    case Control(_, _, _, _, _) => ControlWell(s, step);
    case _ => RestWell(s, step);
  }

  lemma LevelLeavesDuty(s: SensorTask.Sensor, img: Image, c: SensorTask.Cfg, p: SensorTask.Probe)
    ensures SensorTask.ImageAfter(s, img, c, p).desired == img.desired
  {
  }

  lemma OtherStepKeepsInv(s: System, step: Step)
    requires SysInv(s) && !step.ScanStep?
    ensures SysInv(Next(s, step)) && BetweenScans(s, Next(s, step))
  {
    hide IoScan.Inv, Next, OthersWell, DescaleStory;
    var t := Next(s, step);
    NotAScan(s, step);
    OthersWriteWell(s, step);
    StoryKept(s, t);
    OtherKeepsScanInv(s.scan, t.scan.img);
  }

  lemma StoryKept(s: System, t: System)
    requires DescaleStory(s) && t.events == s.events && t.scan.lockout == s.scan.lockout
    requires t.scan.img.descale == s.scan.img.descale && t.scan.img.brewActive == s.scan.img.brewActive
    ensures DescaleStory(t)
  {
  }

  // ----- scans -----

  lemma Extends(e: seq<Event>, more: seq<Event>, i: int, j: int, k: int)
    requires forall m | 0 <= m < |more| :: more[m].Pressed? || more[m].Released?
    ensures PowerSettled(e, i) ==> PowerSettled(e + more, i)
    ensures ReleasedAt(e, i, j) ==> ReleasedAt(e + more, i, j)
    ensures PressedAfter(e, j, k) ==> PressedAfter(e + more, j, k)
  {
  }

  /** One more brew event, or none, continues the story as the lockout and the brew path do. */
  lemma StoryContinues(e: seq<Event>, more: seq<Event>, i: int, lockout: bool, pumping: bool, lockout': bool,
                       pumping': bool)
    requires StoryAt(e, i, lockout, pumping)
    requires more == [] ==> lockout' == lockout && pumping' == pumping
    requires more == [] || (more == [Released] && !lockout' && !pumping')
      || (more == [Pressed] && !lockout && !lockout')
    ensures StoryAt(e + more, i, lockout', pumping')
  {
    Extends(e, more, i, 0, 0);
    if more == [] {
      assert e + more == e;
    } else if more == [Released] {
      assert ReleasedAt(e + more, i, |e|);
    } else {
      var j :| ReleasedAt(e, i, j);
      Extends(e, more, i, j, 0);
      assert PressedAfter(e + more, j, |e|);
    }
  }

  /** A descale begins with the power-on just detected. */
  lemma StoryBegins(e: seq<Event>, more: seq<Event>)
    requires more == [PoweredOn] || more == [PoweredOn, Pressed] || more == [PoweredOn, Released]
    ensures StoryAt(e + more, |e|, true, false)
  {
  }

  lemma ScanKeepsStory(s: System, step: Step)
    requires step.ScanStep? && Enabled(s, step) && IoScan.Inv(s.scan) && DescaleStory(s)
    ensures DescaleStory(AfterScan(s, step))
  {
    hide Scan, IoScan.Inv, StoryAt;
    var t := AfterScan(s, step);
    var more := Detected(s.scan, t.scan);
    ScanInDescale(s.scan, ReadingOf(s, step), step.endUs);
    if t.scan.img.descale {
      if s.scan.prevPower {
        var i :| StoryAt(s.events, i, s.scan.lockout, s.scan.img.brewActive);
        StoryContinues(s.events, more, i, s.scan.lockout, s.scan.img.brewActive, t.scan.lockout, t.scan.img.brewActive);
      } else {
        StoryBegins(s.events, more);
      }
    }
  }

  lemma ScanKeepsClock(s: System, step: Step)
    requires step.ScanStep? && Enabled(s, step) && RefillClock(s) && IoScan.Inv(s.scan)
    ensures RefillClock(AfterScan(s, step))
    ensures var t := AfterScan(s, step).scan;
            t.refill.state.Active? && t.img.power && !t.img.descale
            ==> step.nowUs / 1000 - t.refill.begin <= step.cfg.maxRefill
  {
    hide Gate, Debounce.Next, Refill.Process, RefillOutputs;
    var x := ReadingOf(s, step);
    var u := ScanInputs(s.scan, x);
    InputsKeep(s.scan, x);
    assert u.refill == s.scan.refill || u.refill == Refill.Init(s.scan.refill);
    var m := Refill.Process(u.refill, RefillCall(u.img, x));
    if m.state.Active? { Refill.ActiveWithin(u.refill, RefillCall(u.img, x)); }
  }

  lemma ScanKeepsBrewStory(s: System, step: Step)
    requires step.ScanStep? && Enabled(s, step) && IoScan.Inv(s.scan) && BrewStory(s)
    ensures BrewStory(AfterScan(s, step))
  {
    hide Scan, IoScan.Inv, BrewHeld;
    BrewFollowsSwitch(s.scan, ReadingOf(s, step), step.endUs, LastIsPress(s.events));
  }

  lemma ScanKeepsSysInv(s: System, step: Step)
    requires SysInv(s) && step.ScanStep? && Enabled(s, step)
    ensures SysInv(AfterScan(s, step))
  {
    hide DescaleStory, RefillClock, IoScan.Inv, BrewStory;
    ScanKeepsInv(s.scan, ReadingOf(s, step), step.endUs);
    ScanKeepsBrewStory(s, step);
    ScanKeepsStory(s, step);
    ScanKeepsClock(s, step);
    ScanLeavesOthers(s.scan, ReadingOf(s, step), step.endUs);
  }

  lemma {:induction false} RunKeepsInv(s: System, steps: seq<Step>)
    requires SysInv(s)
    ensures SysInv(Run(s, steps))
    decreases |steps|
  {
    hide SysInv;
    if steps != [] {
      var n := |steps| - 1;
      RunKeepsInv(s, steps[..n]);
      NextKeepsInv(Run(s, steps[..n]), steps[n]);
    }
  }

  lemma NextKeepsInv(s: System, step: Step)
    requires SysInv(s)
    ensures SysInv(Next(s, step))
  {
    hide SysInv, AfterScan;
    if step.ScanStep? {
      if Enabled(s, step) { ScanKeepsSysInv(s, step); }
    } else {
      OtherStepKeepsInv(s, step);
    }
  }

  // ----- what every run guarantees -----

  /** The state of a run's first n steps, then one scan. */
  ghost predicate ScannedTo(x: Inputs, brew2: bool, steam2: bool, setpoint: real, steps: seq<Step>, step: Step,
                            s: System, t: System) {
    s == Run(Boot(x, brew2, steam2, setpoint), steps) && step.ScanStep? && Enabled(s, step) && t == AfterScan(s, step)
  }

  /** In every run, a scan that drives the heater does so with the desired duty, and only while every condition
      for heating holds. */
  lemma HeatsOnlyWhenSafe(x: Inputs, brew2: bool, steam2: bool, setpoint: real, steps: seq<Step>, step: Step,
                          s: System, t: System)
    requires ScannedTo(x, brew2, steam2, setpoint, steps, step, s, t) && t.scan.img.applied != 0
    ensures var img, seen := t.scan.img, Newest(s);
            && img.applied == img.desired == s.scan.img.desired && 1 <= img.applied <= 100
            && img.power && img.waterOk && img.level.LevelOk? && !img.refill.Error? && !t.scan.refill.state.Error?
            && !img.descale
            && |s.published| > 1 && seen.fault == 0 && seen.value <= OverTempLimit
  {
    hide Scan, IoScan.Inv, DescaleStory, RefillClock;
    BootInv(x, brew2, steam2, setpoint);
    RunKeepsInv(Boot(x, brew2, steam2, setpoint), steps);
    ScanKeepsSysInv(s, step);
    ScanKeepsInv(s.scan, ReadingOf(s, step), step.endUs);
    ScanLeavesOthers(s.scan, ReadingOf(s, step), step.endUs);
    AppliedIsGated(s.scan, ReadingOf(s, step), step.endUs);
    if t.scan.refill.state.Error? { ErrorIsShown(t.scan); }
  }

  /** And whenever they all hold it does: what is applied is the desired duty, or 0 when any of them fails. */
  lemma HeatsExactlyWhenSafe(x: Inputs, brew2: bool, steam2: bool, setpoint: real, steps: seq<Step>, step: Step,
                             s: System, t: System)
    requires ScannedTo(x, brew2, steam2, setpoint, steps, step, s, t)
    ensures var img, seen := t.scan.img, Newest(s);
            img.applied == if img.power && img.waterOk && img.level.LevelOk? && !img.refill.Error? && !img.descale
                              && seen.fault == 0 && seen.value <= 140.0
                           then img.desired else 0
  {
    hide Scan, IoScan.Inv, DescaleStory, RefillClock, BrewStory;
    BootInv(x, brew2, steam2, setpoint);
    RunKeepsInv(Boot(x, brew2, steam2, setpoint), steps);
    ScanKeepsSysInv(s, step);
    AppliedIsGated(s.scan, ReadingOf(s, step), step.endUs);
  }

  /** What the scan task hands to the relays and the heater. */
  function OutputsOf(s: System, step: Step): Outputs
    requires step.ScanStep? && Enabled(s, step)
  {
    var x := ReadingOf(s, step);
    Gate(ScanRefill(ScanInputs(s.scan, x), x).img, x.boiler)
  }

  /** After every scan of every run: the three-way valve is driven exactly for a brew, the pump for a brew or an open
      solenoid; the solenoid opens exactly for a running refill at a known level, or in a descale for the brew path;
      and in standby everything is off. */
  lemma OutputsAgree(x: Inputs, brew2: bool, steam2: bool, setpoint: real, steps: seq<Step>, step: Step, s: System,
                     t: System)
    requires ScannedTo(x, brew2, steam2, setpoint, steps, step, s, t)
    ensures var out, img := OutputsOf(s, step), t.scan.img;
            && (out.threeWay <==> img.brewActive) && (out.pump <==> img.brewActive || out.solenoid)
            && (!img.descale ==> (out.solenoid <==> img.power && t.scan.refill.state.Active? && !img.level.Unknown?))
            && (img.descale ==> (out.solenoid <==> img.brewActive))
            && (out.aux <==> img.power) && out.duty == img.applied
            && (!img.power ==> !out.pump && !out.solenoid && !out.threeWay && !out.aux && out.duty == 0)
  {
    hide Scan, IoScan.Inv, DescaleStory, RefillClock, BrewStory;
    var r := ReadingOf(s, step);
    BootInv(x, brew2, steam2, setpoint);
    RunKeepsInv(Boot(x, brew2, steam2, setpoint), steps);
    ActuatorsAgree(x, brew2, steam2, setpoint, steps, step, s, t);
    RefillFollowsLevel(s.scan, r, step.endUs);
    ScanKeepsInv(s.scan, r, step.endUs);
    ScanLeavesOthers(s.scan, r, step.endUs);
    GatedImage(s.scan, r, step.endUs);
  }

  /** The gate sees the image a scan leaves, but for what the scan then reports. */
  lemma GatedImage(s: Scanner, x: Reading, endUs: nat)
    ensures var img, t := ScanRefill(ScanInputs(s, x), x).img, Scan(s, x, endUs).img;
            && t == img.(applied := Gate(img, x.boiler).duty, lastScan := endUs)
            && (Gate(img, x.boiler).threeWay <==> t.power && t.threeWay)
            && (Gate(img, x.boiler).pump <==> t.power && t.pump)
            && (Gate(img, x.boiler).solenoid <==> t.power && t.solenoid)
            && (Gate(img, x.boiler).aux <==> t.power && t.aux) && (!t.power ==> Gate(img, x.boiler).duty == 0)
  {
    GateGives(ScanRefill(ScanInputs(s, x), x).img, x.boiler);
    hide Gate, ScanInputs, ScanRefill;
  }

  /** In every run with power on: a brew is running exactly if the last event was a press, after a release if a descale
      began with the switch held. */
  lemma BrewRunsFromPressToRelease(x: Inputs, brew2: bool, steam2: bool, setpoint: real, steps: seq<Step>)
    ensures var s := Run(Boot(x, brew2, steam2, setpoint), steps);
            && (s.scan.prevPower ==> (s.scan.img.brewActive <==> LastIsPress(s.events) && !s.scan.lockout))
            && (!s.scan.prevPower ==> !s.scan.img.brewActive) && (s.scan.lockout ==> s.scan.img.descale)
  {
    hide Run, DescaleStory, RefillClock;
    BootInv(x, brew2, steam2, setpoint);
    RunKeepsInv(Boot(x, brew2, steam2, setpoint), steps);
  }

  /** A refill that has run longer than its maximum is an error at the next scan, and nothing else is: the heater is
      off then, and the solenoid closed. */
  lemma RefillTimesOut(x: Inputs, brew2: bool, steam2: bool, setpoint: real, steps: seq<Step>, step: Step,
                       s: System, t: System)
    requires ScannedTo(x, brew2, steam2, setpoint, steps, step, s, t)
    requires s.scan.prevPower && t.scan.prevPower && !s.scan.refill.state.Error?
    ensures t.scan.refill.state.Error?
            <==> s.scan.refill.state.Active? && step.nowUs / 1000 - s.entered > step.cfg.maxRefill
    ensures t.scan.refill.state.Error? ==> t.scan.img.refill.Error? && t.scan.img.applied == 0 && !t.scan.img.solenoid
  {
    hide Scan, DescaleStory, BrewStory;
    var r := ReadingOf(s, step);
    BootInv(x, brew2, steam2, setpoint);
    RunKeepsInv(Boot(x, brew2, steam2, setpoint), steps);
    ScanTimesOut(s.scan, r, step.endUs);
    ScanKeepsInv(s.scan, r, step.endUs);
    ErrorScanOff(s.scan, r, step.endUs);
  }

  lemma ErrorScanOff(s: Scanner, x: Reading, endUs: nat)
    ensures var t := Scan(s, x, endUs);
            IoScan.Inv(t) && t.refill.state.Error? ==> t.img.refill.Error? && t.img.applied == 0 && !t.img.solenoid
  {
    hide Scan;
    if IoScan.Inv(Scan(s, x, endUs)) && Scan(s, x, endUs).refill.state.Error? {
      ErrorIsShown(Scan(s, x, endUs));
      AppliedIsGated(s, x, endUs);
    }
  }

  lemma ScanTimesOut(s: Scanner, x: Reading, endUs: nat)
    requires IoScan.Inv(s) && s.prevPower && Scan(s, x, endUs).prevPower && !s.refill.state.Error?
    requires s.refill.state.Active? ==> s.refill.begin <= x.nowUs / 1000
    ensures Scan(s, x, endUs).refill.state.Error?
            <==> s.refill.state.Active? && x.nowUs / 1000 - s.refill.begin > x.cfg.maxRefill
  {
    hide Gate, Debounce.Next, Refill.Process, RefillOutputs;
    var u := ScanInputs(s, x);
    InputsKeep(s, x);
    assert u.refill == s.refill && u.img.descale == s.img.descale;
    Refill.ErrorIff(u.refill, RefillCall(u.img, x));
  }

  /** So a bad newest reading, never published ones included, cuts the heater at the next scan, whatever was
      read before. */
  lemma BadReadingCuts(x: Inputs, brew2: bool, steam2: bool, setpoint: real, steps: seq<Step>, step: Step, s: System,
                       t: System)
    requires ScannedTo(x, brew2, steam2, setpoint, steps, step, s, t)
    requires |s.published| <= 1 || Newest(s).fault != 0 || Newest(s).value > OverTempLimit
    ensures t.scan.img.applied == 0
  {
    hide AfterScan, Run;
    if t.scan.img.applied != 0 { HeatsOnlyWhenSafe(x, brew2, steam2, setpoint, steps, step, s, t); }
  }

  predicate NoReading(steps: seq<Step>) { forall k | 0 <= k < |steps| :: !steps[k].ReadLevel? }

  lemma LevelKeptByScan(s: System, step: Step)
    requires step.ScanStep? && Enabled(s, step)
    ensures AfterScan(s, step).scan.img.level == s.scan.img.level
  {
    hide Scan;
    ScanLeavesOthers(s.scan, ReadingOf(s, step), step.endUs);
  }

  lemma LevelKeptByStep(s: System, step: Step)
    requires !step.ReadLevel?
    ensures Next(s, step).scan.img.level == s.scan.img.level
  {
    hide AfterScan, BoilerTemp.Step;
    if step.ScanStep? && Enabled(s, step) { LevelKeptByScan(s, step); }
  }

  lemma {:induction false} LevelKept(s: System, steps: seq<Step>)
    requires NoReading(steps)
    ensures Run(s, steps).scan.img.level == s.scan.img.level
    decreases |steps|
  {
    hide Next;
    if steps != [] {
      LevelKept(s, steps[..|steps| - 1]);
      LevelKeptByStep(Run(s, steps[..|steps| - 1]), steps[|steps| - 1]);
    }
  }

  /** A level that cannot be trusted, because the ADC failed or a guarded probe is committed to a fault, keeps the
      heater off and, outside a descale, the solenoid closed and the refill unasked for, at every scan until the next
      reading. */
  lemma UntrustedLevelIsOff(s: System, c: SensorTask.Cfg, p: SensorTask.Probe, steps: seq<Step>, step: Step)
    requires SysInv(s) && Enabled(s, ReadLevel(c, p)) && NoReading(steps)
    requires !p.adcOk || (c.guarded && SensorTask.ImageAfter(s.sensor, s.scan.img, c, p).corrosion.Fault?)
    requires step.ScanStep? && Enabled(Run(Next(s, ReadLevel(c, p)), steps), step)
    ensures var u := Run(Next(s, ReadLevel(c, p)), steps);
            var t := AfterScan(u, step).scan;
            t.img.applied == 0 && (!t.img.descale ==> !t.img.solenoid)
            && (t.refill.state.Active? ==> u.scan.refill.state.Active?)
  {
    var r := Next(s, ReadLevel(c, p));
    NextKeepsInv(s, ReadLevel(c, p));
    SensorTask.LevelKnownIff(s.sensor, s.scan.img, c, p);
    assert r.scan.img.level.Unknown?;
    hide SysInv, SensorTask.ImageAfter, SensorTask.SensorAfter, Scan, Next;
    LevelKept(r, steps);
    RunKeepsInv(r, steps);
    UnknownIsOff(Run(r, steps), step);
  }

  lemma UnknownIsOff(s: System, step: Step)
    requires SysInv(s) && s.scan.img.level.Unknown? && step.ScanStep? && Enabled(s, step)
    ensures var t := AfterScan(s, step).scan;
            t.img.applied == 0 && (!t.img.descale ==> !t.img.solenoid)
            && (t.refill.state.Active? ==> s.scan.refill.state.Active?)
  {
    hide Scan, DescaleStory, RefillClock, BrewStory;
    var x := ReadingOf(s, step);
    ScanLeavesOthers(s.scan, x, step.endUs);
    AppliedIsGated(s.scan, x, step.endUs);
    RefillFollowsLevel(s.scan, x, step.endUs);
    ScanKeepsInv(s.scan, x, step.endUs);
  }

  /** The applied duty is the gate's, on the image the scan leaves. */
  lemma AppliedIsGated(s: Scanner, x: Reading, endUs: nat)
    ensures var img := Scan(s, x, endUs).img;
            img.applied == if img.power && !HeaterInhibited(img, x.boiler) then img.desired else 0
  {
    hide ScanInputs, ScanRefill;
  }

  /** The machine's Error state is the one the gate sees. */
  lemma ErrorIsShown(s: Scanner)
    requires IoScan.Inv(s) && s.refill.state.Error?
    ensures s.img.refill.Error? && s.prevPower && !s.img.descale && !s.img.solenoid
  {
  }

  /** The readings a scan can be given, after the boot default, are those the sensor task published, in order. */
  function PublishedBy(steps: seq<Step>): seq<Temp> {
    if steps == [] then []
    else PublishedBy(steps[..|steps| - 1]) + if steps[|steps| - 1].Publish? then [steps[|steps| - 1].temp] else []
  }

  lemma {:induction false} OnlyPublishedIsRead(s: System, steps: seq<Step>)
    ensures Run(s, steps).published <= s.published + PublishedBy(steps)
    ensures !Run(s, steps).halted ==> Run(s, steps).published == s.published + PublishedBy(steps)
    decreases |steps|
  {
    if steps != [] {
      OnlyPublishedIsRead(s, steps[..|steps| - 1]);
    }
  }

  /** After every scan of every run: the pump runs exactly for a brew or an open solenoid, the three-way valve exactly
      for a brew; an open solenoid is a running refill, or in descale a brew; and in standby everything is off. */
  lemma ActuatorsAgree(x: Inputs, brew2: bool, steam2: bool, setpoint: real, steps: seq<Step>, step: Step, s: System,
                       t: System)
    requires ScannedTo(x, brew2, steam2, setpoint, steps, step, s, t)
    ensures var img := t.scan.img;
            && (img.pump <==> img.brewActive || img.solenoid)
            && (img.threeWay <==> img.brewActive)
            && (!img.descale && img.solenoid ==> t.scan.refill.state.Active? && img.refill.Active?)
            && (!img.descale && img.power ==>
                  (img.solenoid <==> t.scan.refill.state.Active? && !img.level.Unknown?))
            && (img.descale ==> (img.solenoid <==> img.brewActive))
            && (!img.power ==> !img.pump && !img.solenoid && !img.threeWay && !img.aux && !img.brewActive)
            && (img.power ==> img.aux)
  {
    hide Scan, DescaleStory, RefillClock;
    BootInv(x, brew2, steam2, setpoint);
    RunKeepsInv(Boot(x, brew2, steam2, setpoint), steps);
    ScanKeepsInv(s.scan, ReadingOf(s, step), step.endUs);
    RefillFollowsLevel(s.scan, ReadingOf(s, step), step.endUs);
    ScanLeavesOthers(s.scan, ReadingOf(s, step), step.endUs);
  }

  /** A locked-out descale is one with the brew switch still held, and nothing runs. */
  lemma LockedOutIsStill(x: Inputs, brew2: bool, steam2: bool, setpoint: real, steps: seq<Step>)
    ensures var s := Run(Boot(x, brew2, steam2, setpoint), steps).scan;
            s.lockout ==>
              && s.img.descale && s.brewDb.stable
              && !s.img.brewActive && !s.img.pump && !s.img.solenoid && !s.img.threeWay
  {
    hide Run, DescaleStory, RefillClock;
    BootInv(x, brew2, steam2, setpoint);
    RunKeepsInv(Boot(x, brew2, steam2, setpoint), steps);
  }

  /** In every run, a descale pumps only after a detected power-on, then a release, then a press, with power on
      throughout. */
  lemma DescalePumpsAfterReleaseAndPress(x: Inputs, brew2: bool, steam2: bool, setpoint: real, steps: seq<Step>)
    returns (i: nat, j: nat, k: nat)
    requires var s := Run(Boot(x, brew2, steam2, setpoint), steps).scan.img;
             s.descale && (s.pump || s.solenoid || s.threeWay)
    ensures var e := Run(Boot(x, brew2, steam2, setpoint), steps).events;
            i < j < k < |e| && e[i].PoweredOn? && e[j].Released? && e[k].Pressed?
            && forall m | i < m < |e| :: e[m].Pressed? || e[m].Released?
  {
    hide Run, RefillClock;
    BootInv(x, brew2, steam2, setpoint);
    RunKeepsInv(Boot(x, brew2, steam2, setpoint), steps);
    var s := Run(Boot(x, brew2, steam2, setpoint), steps);
    var i' :| StoryAt(s.events, i', s.scan.lockout, s.scan.img.brewActive);
    var j' :| ReleasedAt(s.events, i', j') && exists k' :: PressedAfter(s.events, j', k');
    var k' :| PressedAfter(s.events, j', k');
    i, j, k := i', j', k';
  }

  /** Outside descale, a scan that leaves the solenoid open is within the maximum refill time of the scan that
      opened the refill. */
  lemma RefillTimeIsBounded(x: Inputs, brew2: bool, steam2: bool, setpoint: real, steps: seq<Step>, step: Step,
                            s: System, t: System)
    requires ScannedTo(x, brew2, steam2, setpoint, steps, step, s, t) && t.scan.img.solenoid && !t.scan.img.descale
    ensures t.scan.refill.state.Active? && t.scan.refill.begin == t.entered
    ensures 0 <= step.nowUs / 1000 - t.entered <= step.cfg.maxRefill
  {
    hide Scan, DescaleStory;
    BootInv(x, brew2, steam2, setpoint);
    RunKeepsInv(Boot(x, brew2, steam2, setpoint), steps);
    ScanKeepsInv(s.scan, ReadingOf(s, step), step.endUs);
    ScanKeepsClock(s, step);
  }

  /** No power-off has been detected since s. */
  predicate NoPowerOff(s: System, t: System) {
    s.events <= t.events && forall m | |s.events| <= m < |t.events| :: !t.events[m].PoweredOff?
  }

  lemma NextExtendsEvents(s: System, step: Step)
    requires SysInv(s)
    ensures s.events <= Next(s, step).events
    ensures s.scan.refill.state.Error? && NoPowerOff(s, Next(s, step)) ==> Next(s, step).scan.refill.state.Error?
  {
    if step.ScanStep? {
      if Enabled(s, step) { ErrorSurvivesScan(s, step); }
    } else {
      OtherStepKeepsInv(s, step);
    }
  }

  lemma ErrorSurvivesScan(s: System, step: Step)
    requires SysInv(s) && step.ScanStep? && Enabled(s, step)
    ensures var t := AfterScan(s, step);
            s.events <= t.events && (s.scan.refill.state.Error? && NoPowerOff(s, t) ==> t.scan.refill.state.Error?)
  {
    hide Debounce.Next, Gate, RefillOutputs;
    var t := AfterScan(s, step);
    if s.scan.refill.state.Error? && !t.scan.prevPower {
      assert t.events[|s.events|].PoweredOff?;
    }
  }

  /** Once the refill machine is in Error, it stays there, the heater off and the solenoid closed at every scan,
      until a power-off is detected. */
  lemma {:induction false} ErrorLatchesUntilPowerOff(s: System, steps: seq<Step>)
    requires SysInv(s) && s.scan.refill.state.Error? && NoPowerOff(s, Run(s, steps))
    ensures Run(s, steps).scan.refill.state.Error? && !Run(s, steps).scan.img.solenoid
    ensures forall step: Step
              | step.ScanStep? && Enabled(Run(s, steps), step) && NoPowerOff(s, AfterScan(Run(s, steps), step)) ::
              AfterScan(Run(s, steps), step).scan.img.applied == 0 && !AfterScan(Run(s, steps), step).scan.img.solenoid
    decreases |steps|
  {
    hide AfterScan, SysInv;
    var t := Run(s, steps);
    if steps != [] {
      var n := |steps| - 1;
      var p := Run(s, steps[..n]);
      RunKeepsInv(s, steps[..n]);
      NextExtendsEvents(p, steps[n]);
      RunExtendsEvents(s, steps[..n]);
      ErrorLatchesUntilPowerOff(s, steps[..n]);
    }
    RunKeepsInv(s, steps);
    ErrorShownIn(t);
    forall step: Step | step.ScanStep? && Enabled(t, step) && NoPowerOff(s, AfterScan(t, step))
      ensures AfterScan(t, step).scan.img.applied == 0 && !AfterScan(t, step).scan.img.solenoid
    {
      ErrorSurvivesScan(t, step);
      RunExtendsEvents(s, steps);
      ErrorScanIsOff(t, step);
    }
  }

  lemma ErrorShownIn(s: System)
    requires SysInv(s) && s.scan.refill.state.Error?
    ensures s.scan.img.refill.Error? && !s.scan.img.solenoid
  {
    ErrorIsShown(s.scan);
  }

  lemma ErrorScanIsOff(s: System, step: Step)
    requires SysInv(s) && s.scan.refill.state.Error? && step.ScanStep? && Enabled(s, step)
      && NoPowerOff(s, AfterScan(s, step))
    ensures AfterScan(s, step).scan.img.applied == 0 && !AfterScan(s, step).scan.img.solenoid
  {
    hide Scan, DescaleStory, RefillClock;
    ErrorSurvivesScan(s, step);
    ScanKeepsSysInv(s, step);
    ErrorIsShown(AfterScan(s, step).scan);
    AppliedIsGated(s.scan, ReadingOf(s, step), step.endUs);
  }

  lemma {:induction false} RunExtendsEvents(s: System, steps: seq<Step>)
    requires SysInv(s)
    ensures s.events <= Run(s, steps).events
    decreases |steps|
  {
    hide SysInv, AfterScan;
    if steps != [] {
      var n := |steps| - 1;
      RunKeepsInv(s, steps[..n]);
      RunExtendsEvents(s, steps[..n]);
      NextExtendsEvents(Run(s, steps[..n]), steps[n]);
    }
  }
}
