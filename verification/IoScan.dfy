/** Pure decisions of the I/O scan: brew edges and actuator states. */
module IoScanModes {

  /** Desired brew-path actuator states. */
  datatype BrewPath = BrewPath(brewActive: bool, pump: bool, threeWay: bool, solenoid: bool)

  /** What a brew switch edge does. */
  datatype EdgeAction = EdgeAction(start: bool, stop: bool, lockout: bool)

  predicate DescaleOnPowerUp(brewSwitch: bool) { brewSwitch }

  function OnBrewEdge(brewOn: bool, brewActive: bool, power: bool, lockout: bool): EdgeAction {
    if brewOn && power then EdgeAction(!lockout, false, lockout)
    else if !brewOn then
      if lockout then EdgeAction(false, false, false) else EdgeAction(false, brewActive, lockout)
    else EdgeAction(false, false, lockout)
  }

  function BrewStarted(descale: bool, solenoidNow: bool): BrewPath {
    BrewPath(true, true, true, if descale then true else solenoidNow)
  }

  function BrewStopped(descale: bool, solenoidNow: bool): BrewPath {
    if descale then BrewPath(false, false, false, false) else BrewPath(false, solenoidNow, false, solenoidNow)
  }
}

/** The final output gate. */
module IoScanSafety {
  import opened ProcessImage
  import Refill
  import Corrosion

  const OverTempLimit: real := 140.0

  datatype Temp = Temp(value: real, fault: nat)

  datatype Outputs = Outputs(duty: int, pump: bool, solenoid: bool, threeWay: bool, aux: bool)

  /** Any one of these keeps the heater off. */
  predicate HeaterInhibited(img: Image, boiler: Temp) {
    !img.waterOk || img.refill.Error? || img.descale || img.level.Unknown? || boiler.fault != 0
    || boiler.value > OverTempLimit
  }

  /** What the gate lets through. */
  function Gate(img: Image, boiler: Temp): Outputs {
    if !img.power then Outputs(0, false, false, false, false)
    else Outputs(if HeaterInhibited(img, boiler) then 0 else img.desired, img.pump, img.solenoid, img.threeWay, img.aux)
  }

  /** Each output is given what the image asks of it, and nothing without power; the heater also needs water, a
      known level, no refill error, no descale and a boiler reading that is good and not above 140 degrees. */
  lemma GateGives(img: Image, boiler: Temp)
    ensures var out := Gate(img, boiler);
            && (out.pump <==> img.power && img.pump) && (out.solenoid <==> img.power && img.solenoid)
            && (out.threeWay <==> img.power && img.threeWay) && (out.aux <==> img.power && img.aux)
            && out.duty == if img.power && img.waterOk && !img.level.Unknown? && !img.refill.Error? && !img.descale
                              && boiler.fault == 0 && boiler.value <= 140.0
                           then img.desired else 0
  {
  }

  /** io_scan_apply_safety: the overrides one after another. */
  method ApplySafety(img: Image, boiler: Temp) returns (out: Outputs)
    ensures out == Gate(img, boiler)
  {
    out := Outputs(img.desired, img.pump, img.solenoid, img.threeWay, img.aux);
    if !img.power { return Outputs(0, false, false, false, false); }
    if !img.waterOk { out := out.(duty := 0); }
    if img.refill.Error? { out := out.(duty := 0); }
    if img.descale { out := out.(duty := 0); }
    if img.level.Unknown? { out := out.(duty := 0); }
    if boiler.fault != 0 {
      out := out.(duty := 0);
    } else if boiler.value > OverTempLimit {
      out := out.(duty := 0);
    }
  }
}

/** One 20 ms scan: inputs, refill, outputs. */
module IoScan {
  import opened Basics
  import opened Debounce
  import opened IoScanModes
  import opened IoScanSafety
  import opened ProcessImage
  import Corrosion
  import Refill

  /** Raw switch levels, true for on. */
  datatype Inputs = Inputs(power: bool, brew: bool, steam: bool)

  /** What one scan reads: the switches, the clock (for a brew edge, then for the refill machine), the refill
      thresholds and the boiler temperature. */
  datatype Reading = Reading(switches: Inputs, edgeUs: nat, nowUs: u64, cfg: Refill.Cfg, boiler: Temp)

  datatype Scanner = Scanner(img: Image, refill: Refill.Machine, powerDb: Filter, brewDb: Filter, steamDb: Filter,
                             prevPower: bool, lockout: bool)

  /** The switch fields: power moves only when its own switch does. */
  function WithSwitches(img: Image, powerMoved: bool, power: bool, brew: bool, steam: bool): Image {
    img.(brew := brew, steam := steam, power := if powerMoved then power else img.power)
  }

  function Debounced(s: Scanner, x: Inputs): Scanner {
    var p, b, t := Next(s.powerDb, x.power), Next(s.brewDb, x.brew), Next(s.steamDb, x.steam);
    s.(powerDb := p, brewDb := b, steamDb := t,
       img := WithSwitches(s.img, Reports(s.powerDb, x.power), p.stable, b.stable, t.stable))
  }

  /** Power changed since the last scan, by switch or remotely. */
  function PowerEdge(s: Scanner): Scanner {
    if s.img.power == s.prevPower then s
    else if s.img.power then
      var descale := DescaleOnPowerUp(s.brewDb.stable);
      s.(prevPower := true, lockout := descale || s.lockout, refill := Refill.Init(s.refill),
         img := s.img.(descale := descale || s.img.descale, aux := true))
    else
      s.(prevPower := false, lockout := false, refill := Refill.Init(s.refill), img := EnterStandby(s.img))
  }

  function Brewing(img: Image, o: BrewPath): Image {
    img.(brewActive := o.brewActive, pump := o.pump, threeWay := o.threeWay, solenoid := o.solenoid)
  }

  function EdgeOf(img: Image, lockout: bool): EdgeAction { OnBrewEdge(img.brew, img.brewActive, img.power, lockout) }

  /** The image after a brew edge. */
  function AfterEdge(img: Image, act: EdgeAction, nowUs: nat): Image {
    if act.start then Brewing(img, BrewStarted(img.descale, img.solenoid)).(brewStart := nowUs)
    else if act.stop then Brewing(img, BrewStopped(img.descale, img.solenoid))
    else img
  }

  function BrewEdge(s: Scanner, nowUs: nat): Scanner {
    s.(lockout := EdgeOf(s.img, s.lockout).lockout, img := AfterEdge(s.img, EdgeOf(s.img, s.lockout), nowUs))
  }

  function ScanInputs(s: Scanner, x: Reading): Scanner {
    var t := PowerEdge(Debounced(s, x.switches));
    if Reports(s.brewDb, x.switches.brew) then BrewEdge(t, x.edgeUs) else t
  }

  predicate Untrusted(img: Image) { img.level.Unknown? }

  /** An untrusted level drives the refill machine as if the boiler were full. */
  function RefillCall(img: Image, x: Reading): Refill.Call {
    Refill.Call(x.nowUs / 1000, Untrusted(img) || img.level.LevelOk?, false, x.cfg)
  }

  function RefillOutputs(img: Image, state: Refill.State): Image {
    var open := state.Active? && !Untrusted(img);
    img.(refill := state, solenoid := open, pump := open || (img.brewActive && img.pump))
  }

  function ScanRefill(s: Scanner, x: Reading): Scanner {
    if !s.img.power || s.img.descale then s
    else
      var m := Refill.Process(s.refill, RefillCall(s.img, x));
      s.(refill := m, img := RefillOutputs(s.img, m.state))
  }

  function ApplyOutputs(s: Scanner, boiler: Temp): Scanner {
    s.(img := s.img.(applied := Gate(s.img, boiler).duty))
  }

  /** A whole scan; lastScan is when it ended. */
  function Scan(s: Scanner, x: Reading, endUs: nat): Scanner {
    var t := ApplyOutputs(ScanRefill(ScanInputs(s, x), x), x.boiler);
    t.(img := t.img.(lastScan := endUs))
  }

  /** Scanning starts: the filters seeded, the power switch believed at once. */
  function AtBoot(x: Inputs, brew2: bool, steam2: bool, refill: Refill.Machine): Scanner {
    var img := Safe.(power := x.power, aux := x.power);
    Scanner(img, if x.power then Refill.Init(refill) else refill,
            Seeded(x.power), Debounce.Boot(x.brew, brew2), Debounce.Boot(x.steam, steam2), x.power, false)
  }

  /** At boot the power switch is believed, and held switches count as read; but nothing runs and nothing is known. */
  lemma BootShows(x: Inputs, brew2: bool, steam2: bool)
    ensures var s := AtBoot(x, brew2, steam2, Refill.Off);
            && s.img.power == s.prevPower == s.img.aux == s.powerDb.stable == x.power
            && s.brewDb.stable == x.brew && s.steamDb.stable == x.steam && s.refill.state.Unknown? && !s.lockout
            && s.img == Safe.(power := x.power, aux := x.power)
            && !Safe.brewActive && !Safe.pump && !Safe.solenoid && !Safe.threeWay && !Safe.descale && !Safe.waterOk
            && Safe.level.Unknown? && Safe.desired == Safe.applied == 0
  {
  }

  // ----- what every scan keeps -----

  /** Desired actuators and the modes they stand for, under the power state last detected. */
  predicate Actuation(s: Scanner) {
    && (s.img.pump <==> s.img.brewActive || s.img.solenoid)
    && (s.img.threeWay <==> s.img.brewActive)
    && (!s.img.descale && s.img.solenoid ==> s.refill.state.Active?)
    && (s.img.descale ==> (s.img.solenoid <==> s.img.brewActive))
    && (!s.prevPower ==> !s.img.pump && !s.img.solenoid && !s.img.threeWay && !s.img.aux && !s.img.brewActive)
    && (s.prevPower ==> s.img.aux)
  }

  /** Descale starts locked out, with the brew switch still held; the machine then never refills. */
  predicate Lockout(s: Scanner) {
    && (s.img.descale ==> s.prevPower)
    && (s.lockout ==> s.img.descale && s.brewDb.stable && !s.img.brewActive && !s.img.solenoid)
    && (s.img.brewActive && s.img.descale ==> s.brewDb.stable)
  }

  /** The refill machine runs only while power is on and outside descale. */
  predicate RefillOwned(s: Scanner) {
    && (!s.refill.state.Unknown? ==> s.prevPower && !s.img.descale)
    && (s.prevPower && !s.img.descale && !s.refill.state.Unknown? ==> s.img.refill == s.refill.state)
  }

  predicate Inv(s: Scanner) { Actuation(s) && Lockout(s) && RefillOwned(s) }

  lemma BootKeeps(x: Inputs, brew2: bool, steam2: bool)
    ensures Inv(AtBoot(x, brew2, steam2, Refill.Off))
  {
  }

  /** After the inputs the detected power state is the current one. */
  lemma InputsKeep(s: Scanner, x: Reading)
    requires Inv(s)
    ensures var t := ScanInputs(s, x); Inv(t) && t.prevPower == t.img.power
    ensures var t := ScanInputs(s, x); t.img.brew == t.brewDb.stable && t.img.desired == s.img.desired
  {
    hide Counted;
    var d := Debounced(s, x.switches);
    var e := PowerEdge(d);
    assert Reports(s.brewDb, x.switches.brew) ==> d.brewDb.stable != s.brewDb.stable;
  }

  /** Behind the inputs a scan changes only the refill machine, what follows it, and what it reports. */
  lemma ScanCarries(s: Scanner, x: Reading, endUs: nat)
    ensures var u, t := ScanInputs(s, x), Scan(s, x, endUs);
            t == u.(refill := t.refill,
                    img := u.img.(refill := t.img.refill, pump := t.img.pump, solenoid := t.img.solenoid,
                                  applied := t.img.applied, lastScan := endUs))
  {
    hide ScanInputs, ScanRefill, Gate;
    RefillLeaves(ScanInputs(s, x), x);
  }

  lemma DebouncedShows(s: Scanner, x: Inputs)
    ensures var d := Debounced(s, x);
            && d == s.(powerDb := Next(s.powerDb, x.power), brewDb := Next(s.brewDb, x.brew),
                       steamDb := Next(s.steamDb, x.steam), img := d.img)
            && d.img == s.img.(brew := d.brewDb.stable, steam := d.steamDb.stable, power := d.img.power)
            && d.img.power == (if d.powerDb.stable != s.powerDb.stable then d.powerDb.stable else s.img.power)
  {
    hide Next;
  }

  lemma PowerEdgeDetects(s: Scanner)
    requires !s.prevPower ==> !s.img.descale
    ensures var t := PowerEdge(s);
            && t == s.(prevPower := s.img.power, lockout := t.lockout, refill := t.refill, img := t.img)
            && t.img.power == s.img.power && t.img.brew == s.img.brew && t.img.steam == s.img.steam
            && (!s.prevPower && t.prevPower ==> (t.img.descale <==> s.brewDb.stable))
            && (s.prevPower && t.prevPower ==> t == s)
            && (!t.prevPower ==> !t.img.descale)
            && (s.prevPower && !t.prevPower ==> t.img.refill.Unknown? && t.refill.state.Unknown?)
  {
  }

  lemma BrewEdgeKeeps(s: Scanner, nowUs: nat)
    ensures var t := BrewEdge(s, nowUs);
            && t == s.(lockout := t.lockout, img := t.img)
            && t.img.power == s.img.power && t.img.brew == s.img.brew && t.img.steam == s.img.steam
            && t.img.descale == s.img.descale && t.img.refill == s.img.refill
  {
    hide OnBrewEdge, BrewStarted, BrewStopped;
  }

  lemma InputsDetect(s: Scanner, x: Reading)
    requires Inv(s)
    ensures var t := ScanInputs(s, x);
            && t.powerDb == Next(s.powerDb, x.switches.power) && t.brewDb == Next(s.brewDb, x.switches.brew)
            && t.steamDb == Next(s.steamDb, x.switches.steam)
            && t.img.brew == t.brewDb.stable && t.img.steam == t.steamDb.stable
            && t.img.power == (if t.powerDb.stable != s.powerDb.stable then t.powerDb.stable else s.img.power)
            && t.prevPower == t.img.power
            && (!s.prevPower && t.prevPower ==> (t.img.descale <==> t.brewDb.stable))
            && (s.prevPower && t.prevPower ==> t.img.descale == s.img.descale)
            && (!t.prevPower ==> !t.img.descale)
            && (s.prevPower && !t.prevPower ==> t.img.refill.Unknown? && t.refill.state.Unknown?)
  {
    DebouncedShows(s, x.switches);
    var d := Debounced(s, x.switches);
    PowerEdgeDetects(d);
    BrewEdgeKeeps(PowerEdge(d), x.edgeUs);
    hide Debounced, PowerEdge, BrewEdge, Next;
  }

  /** What the switches show, and what a power edge does: a descale begins exactly when power comes on with the brew
      switch held, and ends only with power, which also clears the refill machine. */
  lemma ScanDetects(s: Scanner, x: Reading, endUs: nat)
    requires Inv(s)
    ensures var t := Scan(s, x, endUs);
            && t.powerDb == Next(s.powerDb, x.switches.power) && t.brewDb == Next(s.brewDb, x.switches.brew)
            && t.steamDb == Next(s.steamDb, x.switches.steam) && t.img.lastScan == endUs
            && t.img.brew == t.brewDb.stable && t.img.steam == t.steamDb.stable
            && t.img.power == (if t.powerDb.stable != s.powerDb.stable then t.powerDb.stable else s.img.power)
            && t.prevPower == t.img.power
            && (!s.prevPower && t.prevPower ==> (t.img.descale <==> t.brewDb.stable))
            && (s.prevPower && t.prevPower ==> t.img.descale == s.img.descale)
            && (!t.prevPower ==> !t.img.descale)
            && (s.prevPower && !t.prevPower ==> t.img.refill.Unknown? && t.refill.state.Unknown?)
  {
    hide ScanInputs, Inv, Next, Gate, Refill.Process, RefillOutputs;
    InputsDetect(s, x);
    ScanCarries(s, x, endUs);
  }

  /** A brew runs exactly from a press to the next release. */
  predicate BrewHeld(s: Scanner, last: bool) {
    s.prevPower ==> (s.img.brewActive <==> last && !s.lockout) && (last ==> s.brewDb.stable)
  }

  /** Coming on, power finds no brew: with the switch held it begins locked out, else it is not locked out. */
  lemma PowerEdgeBrew(s: Scanner, last: bool)
    requires s.prevPower ==> (s.img.brewActive <==> last && !s.lockout)
    requires !s.prevPower ==> !s.img.brewActive && !s.lockout
    ensures var t := PowerEdge(s);
            && (t.prevPower ==> (t.img.brewActive <==> last && s.prevPower && !t.lockout))
            && (!s.prevPower && t.prevPower ==> (t.lockout <==> s.brewDb.stable))
            && (s.prevPower && t.prevPower ==> t == s) && (!t.prevPower ==> !t.img.brewActive)
            && t.prevPower == t.img.power == s.img.power && t.brewDb == s.brewDb && t.img.brew == s.img.brew
            && (t.prevPower ==> t.img.brewStart == s.img.brewStart && t.img.brewActive == s.img.brewActive)
  {
  }

  lemma BrewEdgeBrew(s: Scanner, nowUs: nat)
    ensures var t := BrewEdge(s, nowUs);
            && (s.img.power && s.img.brew ==>
                  && t.lockout == s.lockout && (t.img.brewActive <==> s.img.brewActive || !s.lockout)
                  && t.img.brewStart == if s.lockout then s.img.brewStart else nowUs)
            && (!s.img.brew ==>
                  && !t.lockout && t.img.brewStart == s.img.brewStart
                  && (t.img.brewActive <==> s.img.brewActive && s.lockout))
  {
  }

  lemma InputsBrew(s: Scanner, x: Reading, last: bool)
    requires Inv(s) && BrewHeld(s, last)
    ensures var t := ScanInputs(s, x);
            && BrewHeld(t, if t.brewDb.stable != s.brewDb.stable then t.brewDb.stable
                           else last && s.prevPower == t.prevPower)
            && (t.prevPower ==>
                  t.img.brewStart == if t.img.brewActive && !s.img.brewActive then x.edgeUs else s.img.brewStart)
  {
    DebouncedShows(s, x.switches);
    var d := Debounced(s, x.switches);
    PowerEdgeBrew(d, last);
    BrewEdgeBrew(PowerEdge(d), x.edgeUs);
    BrewEdgeKeeps(PowerEdge(d), x.edgeUs);
    hide Debounced, PowerEdge, BrewEdge, Next;
    assert Reports(s.brewDb, x.switches.brew) <==> d.brewDb.stable != s.brewDb.stable;
  }

  /** While power is on a brew runs exactly from a press to the next release, except that a descale waits for a first
      release. last says whether the last switch event since power came on was a press. */
  lemma BrewFollowsSwitch(s: Scanner, x: Reading, endUs: nat, last: bool)
    requires Inv(s) && BrewHeld(s, last)
    ensures var t := Scan(s, x, endUs);
            && BrewHeld(t, if t.brewDb.stable != s.brewDb.stable then t.brewDb.stable
                           else last && s.prevPower == t.prevPower)
            && (t.prevPower ==>
                  t.img.brewStart == if t.img.brewActive && !s.img.brewActive then x.edgeUs else s.img.brewStart)
  {
    ScanCarries(s, x, endUs);
    InputsBrew(s, x, last);
    hide ScanInputs, Scan, Inv;
  }

  /** The refill machine is offered water to ask for only on a confirmed low level: an unknown one starts nothing. */
  lemma RefillFollowsLevel(s: Scanner, x: Reading, endUs: nat)
    requires Inv(s)
    ensures var t := Scan(s, x, endUs);
            && (t.prevPower && !t.img.descale ==> (t.img.solenoid <==> t.refill.state.Active? && !s.img.level.Unknown?))
            && (t.refill.state.Active? && !s.refill.state.Active? ==> s.img.level.LowConfirmed?)
            && (s.refill.state.Starting? && t.refill.state.Idle? ==> !s.img.level.LowConfirmed?)
  {
    hide Gate, Next;
    var u := ScanInputs(s, x);
    InputsLeaveOthers(s, x);
    InputsKeep(s, x);
    assert u.refill == s.refill || u.refill == Refill.Init(s.refill);
    hide ScanInputs;
    RefillLeaves(u, x);
  }

  /** How a scan moves through a descale: entered locked out, unlocked by a release, pumping from the next press. */
  lemma ScanInDescale(s: Scanner, x: Reading, endUs: nat)
    requires Inv(s)
    ensures var t := Scan(s, x, endUs);
            t.img.descale ==>
              && t.prevPower
              && (!s.prevPower ==> t.lockout && !t.img.brewActive)
              && (s.prevPower ==>
                    && s.img.descale
                    && (t.brewDb.stable == s.brewDb.stable
                        ==> t.lockout == s.lockout && t.img.brewActive == s.img.brewActive)
                    && (!t.brewDb.stable && s.brewDb.stable ==> !t.lockout && !t.img.brewActive)
                    && (t.brewDb.stable && !s.brewDb.stable ==> !s.lockout && !t.lockout && t.img.brewActive))
  {
    hide Counted, Refill.Process, Gate;
    RefillLeaves(ScanInputs(s, x), x);
    assert Reports(s.brewDb, x.switches.brew) <==> Debounced(s, x.switches).brewDb.stable != s.brewDb.stable;
  }

  lemma RefillKeeps(s: Scanner, x: Reading)
    requires Inv(s) && s.prevPower == s.img.power
    ensures Inv(ScanRefill(s, x))
    ensures s.img.power && !s.img.descale ==> ScanRefill(s, x).img.refill == ScanRefill(s, x).refill.state
  {
    hide Refill.Process;
  }

  /** Every scan keeps the actuation, lockout and refill invariants. */
  lemma ScanKeepsInv(s: Scanner, x: Reading, endUs: nat)
    requires Inv(s)
    ensures var t := Scan(s, x, endUs); Inv(t) && t.prevPower == t.img.power && t.img.brew == t.brewDb.stable
  {
    hide Refill.Process, Counted, Gate, Inv, ScanInputs, ScanRefill;
    InputsKeep(s, x);
    RefillKeeps(ScanInputs(s, x), x);
    OutputsKeep(s, x, endUs);
  }

  /** Gating and the time stamp write only what they report. */
  lemma OutputsKeep(s: Scanner, x: Reading, endUs: nat)
    ensures Inv(ScanRefill(ScanInputs(s, x), x)) ==> Inv(Scan(s, x, endUs))
    ensures var t, u := ScanInputs(s, x), Scan(s, x, endUs);
            u.prevPower == t.prevPower && u.brewDb == t.brewDb && u.img.power == t.img.power && u.img.brew == t.img.brew
  {
    hide Refill.Process, RefillOutputs, Gate, ScanInputs, ScanRefill, Inv;
    var r := ScanRefill(ScanInputs(s, x), x);
    AppliedKeeps(r, Gate(r.img, x.boiler).duty, endUs);
    RefillLeaves(ScanInputs(s, x), x);
  }

  lemma OutputsLeave(img: Image, state: Refill.State)
    ensures var r := RefillOutputs(img, state); r == img.(refill := r.refill, pump := r.pump, solenoid := r.solenoid)
  {
  }

  /** The refill scan writes the refill state and the pump and solenoid, and nothing else of the image. */
  lemma RefillLeaves(s: Scanner, x: Reading)
    ensures var r := ScanRefill(s, x);
            r == s.(refill := r.refill,
                    img := s.img.(refill := r.img.refill, pump := r.img.pump, solenoid := r.img.solenoid))
  {
    hide Refill.Process, RefillOutputs;
    OutputsLeave(s.img, ScanRefill(s, x).refill.state);
  }

  lemma AppliedKeeps(s: Scanner, duty: int, endUs: nat)
    ensures Inv(s) ==> Inv(s.(img := s.img.(applied := duty, lastScan := endUs)))
  {
  }

  /** The fields other tasks own. */
  predicate OthersSame(a: Image, b: Image) {
    && a.levelMv == b.levelMv && a.medianMv == b.medianMv && a.corrosion == b.corrosion
    && a.level == b.level && a.waterOk == b.waterOk && a.desired == b.desired
  }

  lemma PowerLeavesOthers(s: Scanner)
    ensures OthersSame(PowerEdge(s).img, s.img)
  {
  }

  lemma BrewLeavesOthers(s: Scanner, nowUs: nat)
    ensures OthersSame(BrewEdge(s, nowUs).img, s.img)
  {
    hide OnBrewEdge, BrewStarted, BrewStopped;
  }

  lemma InputsLeaveOthers(s: Scanner, x: Reading)
    ensures OthersSame(ScanInputs(s, x).img, s.img)
  {
    hide Next, Reports, PowerEdge, BrewEdge;
    var d := Debounced(s, x.switches);
    PowerLeavesOthers(d);
    BrewLeavesOthers(PowerEdge(d), x.edgeUs);
  }

  /** What the sensor task and the control loop own, no scan writes. */
  lemma ScanLeavesOthers(s: Scanner, x: Reading, endUs: nat)
    ensures OthersSame(Scan(s, x, endUs).img, s.img)
  {
    hide ScanInputs, ScanRefill, Gate;
    InputsLeaveOthers(s, x);
    RefillLeaves(ScanInputs(s, x), x);
  }

  /** io_scan.cpp's static variables, driven in place. */
  class Task {
    const img: Shared
    const refill: Refill.RefillMachine
    const powerDb: Input
    const brewDb: Input
    const steamDb: Input
    var prevPower: bool
    var lockout: bool

    ghost predicate Valid() {
      powerDb != brewDb && powerDb != steamDb && brewDb != steamDb
    }

    ghost function Abs(): Scanner
      reads this, img, refill, powerDb, brewDb, steamDb
    {
      Scanner(img.Abs(), refill.Abs(), powerDb.Abs(), brewDb.Abs(), steamDb.Abs(), prevPower, lockout)
    }

    /** process_image_init and boiler_refill_states_init have run. */
    constructor ()
      ensures Valid() && fresh(img) && fresh(refill) && fresh(powerDb) && fresh(brewDb) && fresh(steamDb)
      ensures Abs() == Scanner(Safe, Refill.Off, Zero, Zero, Zero, false, false)
    {
      img := new Shared();
      refill := new Refill.RefillMachine();
      powerDb := new Input();
      brewDb := new Input();
      steamDb := new Input();
      prevPower, lockout := false, false;
    }

    /** Scanning starts: seed the filters, and believe the power switch at once. */
    method Start(x: Inputs, brew2: bool, steam2: bool)
      requires Valid() && Abs() == Scanner(Safe, Refill.Off, Zero, Zero, Zero, false, false)
      modifies this, img`power, img`aux, refill, powerDb, brewDb, steamDb
      ensures Abs() == AtBoot(x, brew2, steam2, Refill.Off)
    {
      powerDb.Seed(x.power, x.power);
      brewDb.Seed(x.brew, brew2);
      steamDb.Seed(x.steam, steam2);
      img.power := x.power;
      prevPower := x.power;
      if x.power {
        img.aux := true;
        refill.PowerChanged();
      }
    }

    /** Debounce the three switches. */
    method ReadSwitches(x: Inputs) returns (powerMoved: bool, brewMoved: bool)
      requires Valid()
      modifies powerDb, brewDb, steamDb
      ensures powerDb.Abs() == Next(old(powerDb.Abs()), x.power) && powerMoved == Reports(old(powerDb.Abs()), x.power)
      ensures brewDb.Abs() == Next(old(brewDb.Abs()), x.brew) && brewMoved == Reports(old(brewDb.Abs()), x.brew)
      ensures steamDb.Abs() == Next(old(steamDb.Abs()), x.steam)
    {
      hide Next, Reports;
      powerMoved := powerDb.Update(x.power);
      brewMoved := brewDb.Update(x.brew);
      var _ := steamDb.Update(x.steam);
    }

    method ShowSwitches(powerMoved: bool)
      modifies img`brew, img`steam, img`power
      ensures img.Abs() == WithSwitches(old(img.Abs()), powerMoved, powerDb.stable, brewDb.stable, steamDb.stable)
    {
      img.brew := brewDb.stable;
      img.steam := steamDb.stable;
      if powerMoved { img.power := powerDb.stable; }
    }

    method DetectPower()
      modifies this, img, refill
      ensures Abs() == PowerEdge(old(Abs()))
    {
      if img.power != prevPower {
        prevPower := img.power;
        if img.power {
          var descaling := DescaleOnPowerUp(brewDb.stable);
          if descaling { lockout := true; }
          refill.PowerChanged();
          img.PowerUp(descaling);
        } else {
          img.Standby();
          lockout := false;
          refill.PowerChanged();
        }
      }
    }

    method DetectBrew(nowUs: nat)
      modifies this`lockout, img
      ensures lockout == EdgeOf(old(img.Abs()), old(lockout)).lockout
      ensures img.Abs() == AfterEdge(old(img.Abs()), EdgeOf(old(img.Abs()), old(lockout)), nowUs)
    {
      hide OnBrewEdge, BrewStarted, BrewStopped, Brewing;
      var act := OnBrewEdge(img.brew, img.brewActive, img.power, lockout);
      lockout := act.lockout;
      if act.start {
        Drive(BrewStarted(img.descale, img.solenoid));
        img.SetBrewStart(nowUs);
      } else if act.stop {
        Drive(BrewStopped(img.descale, img.solenoid));
      }
    }

    method Drive(o: BrewPath)
      modifies img`brewActive, img`pump, img`threeWay, img`solenoid
      ensures img.Abs() == Brewing(old(img.Abs()), o)
    {
      img.SetBrewPath(o.brewActive, o.pump, o.threeWay, o.solenoid);
    }

    method InputsStep(x: Reading)
      requires Valid()
      modifies this, img, refill, powerDb, brewDb, steamDb
      ensures Abs() == ScanInputs(old(Abs()), x)
    {
      hide Next, Reports, WithSwitches, PowerEdge, AfterEdge, EdgeOf;
      var powerMoved, brewMoved := ReadSwitches(x.switches);
      ShowSwitches(powerMoved);
      DetectPower();
      if brewMoved { DetectBrew(x.edgeUs); }
    }

    method RefillStep(x: Reading)
      modifies img, refill
      ensures if !old(img.power) || old(img.descale)
              then img.Abs() == old(img.Abs()) && refill.Abs() == old(refill.Abs())
              else refill.Abs() == Refill.Process(old(refill.Abs()), RefillCall(old(img.Abs()), x))
                   && img.Abs() == RefillOutputs(old(img.Abs()), refill.state)
    {
      hide Refill.Process;
      if !img.power || img.descale { return; }
      var untrusted := img.level.Unknown?;
      refill.Drive(Refill.Call(x.nowUs / 1000, untrusted || img.level.LevelOk?, false, x.cfg));
      ShowRefill(refill.state, untrusted);
    }

    method ShowRefill(state: Refill.State, untrusted: bool)
      requires untrusted == Untrusted(img.Abs())
      modifies img`refill, img`solenoid, img`pump
      ensures img.Abs() == RefillOutputs(old(img.Abs()), state)
    {
      img.refill := state;
      if state.Active? && !untrusted {
        img.solenoid := true;
        img.pump := true;
      } else {
        img.solenoid := false;
        if !img.brewActive { img.pump := false; }
      }
    }

    /** One turn of the scan loop; the gated outputs are what the relays and the heater are given. */
    method Turn(x: Reading, endUs: nat) returns (out: Outputs)
      requires Valid()
      modifies this, img, refill, powerDb, brewDb, steamDb
      ensures Abs() == Scan(old(Abs()), x, endUs)
      ensures out == Gate(ScanRefill(ScanInputs(old(Abs()), x), x).img, x.boiler) && img.applied == out.duty
    {
      hide ScanInputs, Refill.Process, RefillOutputs, RefillCall, Gate;
      InputsStep(x);
      RefillStep(x);
      out := ApplySafety(img.Abs(), x.boiler);
      img.applied := out.duty;
      img.lastScan := endUs;
    }
  }
}
