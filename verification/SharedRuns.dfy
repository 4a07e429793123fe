/**
 * The tasks and the words they share: runs in which every temperature a scan or
 * the control loop uses is a result its read attempt accepted, word by word,
 * while the sensor task may be writing. Each is a run of MachineRuns.
 */
module SharedRuns {
  import opened Basics
  import opened IoScan
  import opened IoScanSafety
  import BoilerTemp
  import Seqlock
  import MachineRuns

  datatype Shared = Shared(lock: Seqlock.State, machine: MachineRuns.System)

  /** The temperature three words stand for. */
  type Decode = Seqlock.Measure -> Temp

  const ScanReader: nat := 0
  const ControlReader: nat := 1

  /** A word-level step of the writer or a reader; the scan whose read attempt is just then accepted; or a step of
      another task, the control loop using the last result it accepted. */
  datatype Step = Words(word: Seqlock.Step) | ScanRead(scan: MachineRuns.Step) | Act(act: MachineRuns.Step)

  predicate Accepts(lock: Seqlock.State, i: nat) {
    i < |lock.readers| && |lock.readers[i].results| < |Seqlock.Next(lock, Seqlock.RCheck(i)).readers[i].results|
  }

  /** The last of a reader's results, and which published pair it is. */
  predicate HasResult(lock: Seqlock.State, i: nat) {
    i < |lock.readers| && 0 < |lock.readers[i].results| == |lock.readers[i].from|
  }

  function Result(lock: Seqlock.State, i: nat): Seqlock.Measure
    requires HasResult(lock, i)
  {
    var r := lock.readers[i].results; r[|r| - 1]
  }

  function Source(lock: Seqlock.State, i: nat): nat
    requires HasResult(lock, i)
  {
    var r := lock.readers[i].from; r[|r| - 1]
  }

  /** The machine's step that a shared step comes to, if any. */
  function ImageOf(dec: Decode, s: Shared, step: Step): Option<MachineRuns.Step> {
    match step
    case Words(w) =>
      var l := Seqlock.Next(s.lock, w);
      if |l.published| > |s.lock.published| then Some(MachineRuns.Publish(dec(l.published[|l.published| - 1])))
      else None
    case ScanRead(m) =>
      if m.ScanStep? && Accepts(s.lock, ScanReader) && MachineRuns.Enabled(s.machine, m) then Some(m) else None
    case Act(m) =>
      if m.ScanStep? || m.Publish? then None
      else if m.Control? then
        if HasResult(s.lock, ControlReader) then Some(m.(pick := Source(s.lock, ControlReader))) else None
      else Some(m)
  }

  function LockStep(step: Step): Option<Seqlock.Step> {
    match step
    case Words(w) => Some(w)
    case ScanRead(_) => Some(Seqlock.RCheck(ScanReader))
    case Act(_) => None
  }

  /** One step. A scan and the control loop use what was read, not what the machine has on record. */
  function Next(dec: Decode, s: Shared, step: Step): Shared {
    if s.machine.halted then s
    else
      match ImageOf(dec, s, step)
      case None => if step.Words? then s.(lock := Seqlock.Next(s.lock, step.word)) else s
      case Some(m) =>
        if step.Words? then Shared(Seqlock.Next(s.lock, step.word), MachineRuns.Next(s.machine, m))
        else if step.ScanRead? then
          var l := Seqlock.Next(s.lock, Seqlock.RCheck(ScanReader));
          if HasResult(l, ScanReader)
          then Shared(l, MachineRuns.ScanGiven(s.machine, m, dec(Result(l, ScanReader)))) else s
        else if m.Control? then
          s.(machine := MachineRuns.ControlGiven(s.machine, m, dec(Result(s.lock, ControlReader))))
        else s.(machine := MachineRuns.Next(s.machine, m))
  }

  function Boot(readers: nat, x: Inputs, brew2: bool, steam2: bool, setpoint: real): Shared {
    Shared(Seqlock.Boot(readers), MachineRuns.Boot(x, brew2, steam2, setpoint))
  }

  function Run(dec: Decode, s: Shared, steps: seq<Step>): Shared {
    if steps == [] then s else Next(dec, Run(dec, s, steps[..|steps| - 1]), steps[|steps| - 1])
  }

  predicate Timely(s: Shared, step: Step) {
    LockStep(step).Some? ==> Seqlock.Timely(s.lock, LockStep(step).value)
  }

  /** Fewer than 2^31 writes complete during any read attempt. */
  predicate AllTimely(dec: Decode, s: Shared, steps: seq<Step>) {
    steps == []
    || (AllTimely(dec, s, steps[..|steps| - 1]) && Timely(Run(dec, s, steps[..|steps| - 1]), steps[|steps| - 1]))
  }

  // ----- what holds between steps -----

  /** The machine's record of published temperatures is that of the seqlock, and the control loop has used
      none newer than its last result. */
  ghost predicate Inv(dec: Decode, s: Shared) {
    && Seqlock.Inv(s.lock) && |s.lock.readers| >= 2
    && |s.machine.published| == |s.lock.published|
    && (forall k | 0 <= k < |s.lock.published| :: s.machine.published[k] == dec(s.lock.published[k]))
    && var from := s.lock.readers[ControlReader].from;
       s.machine.controlPick <= if from == [] then 0 else from[|from| - 1]
  }

  /** Word-level steps publish at most one pair, and no reader loses a result. */
  lemma LockGrows(s: Seqlock.State, w: Seqlock.Step)
    requires Seqlock.Inv(s) && Seqlock.Timely(s, w) && |s.readers| >= 2
    ensures var t := Seqlock.Next(s, w);
            && Seqlock.Inv(t) && |t.readers| == |s.readers|
            && s.published <= t.published && |t.published| <= |s.published| + 1
            && s.readers[ControlReader].from <= t.readers[ControlReader].from
  {
    Seqlock.StepKeepsInv(s, w);
    hide Seqlock.Inv;
  }

  /** Sources never go back. */
  lemma LastGrows(s: Seqlock.State, t: Seqlock.State)
    requires Seqlock.Inv(t) && |t.readers| >= 2 && |s.readers| >= 2
    requires s.readers[ControlReader].from <= t.readers[ControlReader].from
    ensures var a, b := s.readers[ControlReader].from, t.readers[ControlReader].from;
            (if a == [] then 0 else a[|a| - 1]) <= if b == [] then 0 else b[|b| - 1]
  {
    assert Seqlock.ReaderInv(t, t.readers[ControlReader]);
  }

  lemma WordsStep(dec: Decode, s: Shared, w: Seqlock.Step)
    requires Inv(dec, s) && Seqlock.Timely(s.lock, w) && !s.machine.halted
    ensures var t := Next(dec, s, Words(w));
            Inv(dec, t) && t.machine == match ImageOf(dec, s, Words(w))
                                        case None => s.machine
                                        case Some(m) => MachineRuns.Next(s.machine, m)
  {
    LockGrows(s.lock, w);
    LastGrows(s.lock, Seqlock.Next(s.lock, w));
    hide Seqlock.Inv, Seqlock.Next, Seqlock.Timely;
  }

  /** An accepted result is the newest pair, and no write is in progress. */
  lemma AcceptedResult(s: Seqlock.State, i: nat)
    requires Seqlock.Inv(s) && Seqlock.Timely(s, Seqlock.RCheck(i)) && Accepts(s, i)
    ensures var t := Seqlock.Next(s, Seqlock.RCheck(i));
            && t.published == s.published && |s.published| == Seqlock.Newest(s) + 1 && !s.writer.WWriting?
            && HasResult(t, i) && Source(t, i) == Seqlock.Newest(s) && Result(t, i) == s.published[Seqlock.Newest(s)]
            && t.readers[i].results == s.readers[i].results + [Result(t, i)]
  {
    Seqlock.AcceptedIsFresh(s, i);
    assert Seqlock.ReaderInv(s, s.readers[i]) && Seqlock.WriterInv(s);
    hide Seqlock.Inv, Seqlock.PhaseInv;
  }

  /** A scan whose attempt is accepted has read the newest published temperature, with no write in progress. */
  lemma ScanReadsNewest(dec: Decode, s: Shared, m: MachineRuns.Step)
    requires Inv(dec, s) && Timely(s, ScanRead(m)) && !s.machine.halted && ImageOf(dec, s, ScanRead(m)) == Some(m)
    ensures var t, k := Next(dec, s, ScanRead(m)), Seqlock.Newest(s.lock);
            && HasResult(t.lock, ScanReader) && Source(t.lock, ScanReader) == k == |s.lock.published| - 1
            && Result(t.lock, ScanReader) == s.lock.published[k] && !s.lock.writer.WWriting?
            && dec(Result(t.lock, ScanReader)) == MachineRuns.Newest(s.machine)
            && t.lock.readers[ScanReader].results
               == s.lock.readers[ScanReader].results + [Result(t.lock, ScanReader)]
            && t.machine == MachineRuns.AfterScan(s.machine, m) && Inv(dec, t)
  {
    var w := Seqlock.RCheck(ScanReader);
    AcceptedResult(s.lock, ScanReader);
    LockGrows(s.lock, w);
    LastGrows(s.lock, Seqlock.Next(s.lock, w));
    hide Seqlock.Inv, Seqlock.Next, Scan, Seqlock.Timely;
  }

  /** A control step uses a published temperature, none older than the one before. */
  lemma ControlReadsPublished(dec: Decode, s: Shared, m: MachineRuns.Step)
    requires Inv(dec, s) && !s.machine.halted && m.Control? && HasResult(s.lock, ControlReader)
    ensures var k := Source(s.lock, ControlReader);
            var t := Next(dec, s, Act(m));
            && s.machine.controlPick <= k < |s.machine.published|
            && s.machine.published[k] == dec(Result(s.lock, ControlReader))
            && t.machine == MachineRuns.Next(s.machine, m.(pick := k)) && Inv(dec, t)
  {
    assert Seqlock.ReaderInv(s.lock, s.lock.readers[ControlReader]);
    hide Seqlock.Inv, Seqlock.ReaderInv, BoilerTemp.Step;
  }

  lemma OtherStep(dec: Decode, s: Shared, m: MachineRuns.Step)
    requires Inv(dec, s) && !s.machine.halted && !m.Control? && !m.ScanStep? && !m.Publish?
    ensures var t := Next(dec, s, Act(m)); t.machine == MachineRuns.Next(s.machine, m) && Inv(dec, t)
  {
    hide Seqlock.Inv;
  }

  /** Every step keeps the invariant and is a step of the machine, or none. */
  lemma StepRefines(dec: Decode, s: Shared, step: Step)
    requires Inv(dec, s) && Timely(s, step) && !s.machine.halted
    ensures var t := Next(dec, s, step);
            Inv(dec, t) && t.machine == match ImageOf(dec, s, step)
                                        case None => s.machine
                                        case Some(m) => MachineRuns.Next(s.machine, m)
  {
    hide Inv, MachineRuns.AfterScan, Seqlock.Next;
    match step
    case Words(w) => WordsStep(dec, s, w);
    case ScanRead(m) => if ImageOf(dec, s, step).Some? { ScanReadsNewest(dec, s, m); }
    case Act(m) =>
      if m.Control? {
        if HasResult(s.lock, ControlReader) { ControlReadsPublished(dec, s, m); }
      } else if !m.ScanStep? && !m.Publish? {
        OtherStep(dec, s, m);
      }
  }

  // ----- every run -----

  /** The machine's steps in a run. */
  function Images(dec: Decode, s: Shared, steps: seq<Step>): seq<MachineRuns.Step> {
    if steps == [] then []
    else
      var front, last := steps[..|steps| - 1], steps[|steps| - 1];
      var before := Run(dec, s, front);
      Images(dec, s, front)
      + if before.machine.halted then []
        else match ImageOf(dec, before, last) case None => [] case Some(m) => [m]
  }

  lemma BootInv(dec: Decode, readers: nat, x: Inputs, brew2: bool, steam2: bool, setpoint: real)
    requires readers >= 2 && dec(Seqlock.BootDefault) == MachineRuns.NeverPublished
    ensures Inv(dec, Boot(readers, x, brew2, steam2, setpoint))
  {
  }

  /** Every timely run refines a run of the machine. */
  lemma {:induction false} RunRefines(dec: Decode, s: Shared, steps: seq<Step>)
    requires Inv(dec, s) && AllTimely(dec, s, steps)
    ensures var t := Run(dec, s, steps);
            Inv(dec, t) && t.machine == MachineRuns.Run(s.machine, Images(dec, s, steps))
    decreases |steps|
  {
    hide Inv, Next, ImageOf, MachineRuns.Next, Timely;
    if steps != [] {
      var front, last := steps[..|steps| - 1], steps[|steps| - 1];
      var before := Run(dec, s, front);
      RunRefines(dec, s, front);
      assert Images(dec, s, front) + [] == Images(dec, s, front);
      if before.machine.halted {
        assert Next(dec, before, last) == before by { HaltedStays(dec, before, last); }
      } else {
        StepRefines(dec, before, last);
        match ImageOf(dec, before, last)
        case None =>
        case Some(m) => RunSnoc(s.machine, Images(dec, s, front), m);
      }
    }
  }

  lemma HaltedStays(dec: Decode, s: Shared, step: Step)
    requires s.machine.halted
    ensures Next(dec, s, step) == s
  {
  }

  lemma RunSnoc(s: MachineRuns.System, steps: seq<MachineRuns.Step>, m: MachineRuns.Step)
    ensures MachineRuns.Run(s, steps + [m]) == MachineRuns.Next(MachineRuns.Run(s, steps), m)
  {
    assert (steps + [m])[..|steps|] == steps;
  }

  /** In every run of both, however reads and writes interleave: a scan that drives the heater has read, whole,
      the newest temperature the sensor task published, without fault and at most 140 degrees. */
  lemma HeatsOnAcceptedReading(dec: Decode, readers: nat, x: Inputs, brew2: bool, steam2: bool, setpoint: real,
                               steps: seq<Step>, m: MachineRuns.Step)
    requires readers >= 2 && dec(Seqlock.BootDefault) == MachineRuns.NeverPublished
    requires AllTimely(dec, Boot(readers, x, brew2, steam2, setpoint), steps + [ScanRead(m)])
    requires var s := Run(dec, Boot(readers, x, brew2, steam2, setpoint), steps);
             ImageOf(dec, s, ScanRead(m)) == Some(m) && !s.machine.halted
             && Next(dec, s, ScanRead(m)).machine.scan.img.applied != 0
    ensures var s := Run(dec, Boot(readers, x, brew2, steam2, setpoint), steps);
            var t := Next(dec, s, ScanRead(m));
            && HasResult(t.lock, ScanReader) && 1 <= Source(t.lock, ScanReader) == Seqlock.Newest(s.lock)
            && var seen := dec(Result(t.lock, ScanReader));
               seen == dec(s.lock.published[Seqlock.Newest(s.lock)])
               && seen.fault == 0 && seen.value <= OverTempLimit
  {
    var b := Boot(readers, x, brew2, steam2, setpoint);
    var s := Run(dec, b, steps);
    hide Inv, Run, Timely, AllTimely, Images, MachineRuns.Run, MachineRuns.AfterScan, Boot, Next;
    TimelyFront(dec, b, steps, ScanRead(m));
    BootInv(dec, readers, x, brew2, steam2, setpoint);
    RunRefines(dec, b, steps);
    ScanReadsNewest(dec, s, m);
    BootMachine(readers, x, brew2, steam2, setpoint);
    MachineRuns.HeatsOnlyWhenSafe(x, brew2, steam2, setpoint, Images(dec, b, steps), m, s.machine,
                                  Next(dec, s, ScanRead(m)).machine);
    assert |s.machine.published| == |s.lock.published| by { SamePublished(dec, s); }
  }

  lemma SamePublished(dec: Decode, s: Shared)
    requires Inv(dec, s)
    ensures |s.machine.published| == |s.lock.published|
  {
  }

  lemma BootMachine(readers: nat, x: Inputs, brew2: bool, steam2: bool, setpoint: real)
    ensures Boot(readers, x, brew2, steam2, setpoint).machine == MachineRuns.Boot(x, brew2, steam2, setpoint)
  {
  }

  lemma TimelyFront(dec: Decode, s: Shared, steps: seq<Step>, last: Step)
    requires AllTimely(dec, s, steps + [last])
    ensures AllTimely(dec, s, steps) && Timely(Run(dec, s, steps), last)
  {
    assert (steps + [last])[..|steps|] == steps;
  }
}
