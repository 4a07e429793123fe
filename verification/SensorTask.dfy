/** The sensor task's reading of the water level probe. */
module SensorTask {
  import opened Basics
  import opened WaterProbe
  import opened Corrosion
  import opened ProcessImage

  /** The refill configuration fields this reading uses. */
  datatype Cfg = Cfg(levelMv: u16, warn: u16, fault: u16, consistency: u16, monitored: bool, guarded: bool)

  /** The corrosion tracker and the thresholds it was last used with. */
  datatype Watch = Watch(monitor: Monitor, lastWarn: u16, lastFault: u16)

  datatype Sensor = Sensor(window: seq<u16>, watch: Watch)

  /** One probe reading: whether the ADC worked, the voltage, and the time in ms (not wrapped). */
  datatype Probe = Probe(adcOk: bool, mv: real, median: u16, nowMs: nat)

  const Fresh := Sensor([], Watch(Healthy, 0, 0))

  /** The cast of a voltage to uint16_t; outside its range C++ leaves the result undefined, here it wraps. */
  function Truncated(mv: real): u16 { mv.Floor % 0x1_0000 }

  /** A voltage a uint16_t can hold loses its fraction only. */
  lemma TruncatedIs(mv: real)
    requires 0.0 <= mv < 65536.0
    ensures Truncated(mv) as real <= mv < Truncated(mv) as real + 1.0
  {
  }

  function Wet(c: Cfg, p: Probe): bool { p.adcOk && p.mv <= c.levelMv as real }

  predicate Moved(w: Watch, c: Cfg) { c.warn != w.lastWarn || c.fault != w.lastFault }

  /** New thresholds clear the tracker. */
  function Rebased(w: Watch, c: Cfg): Watch { if Moved(w, c) then Watch(Healthy, c.warn, c.fault) else w }

  function Observed(w: Watch, c: Cfg, p: Probe): Watch {
    var r := Rebased(w, c);
    if c.monitored && Wet(c, p) then
      r.(monitor := Update(r.monitor, Classify(p.median, c.warn, c.fault), p.nowMs % U32, c.consistency))
    else if !c.monitored then r.(monitor := Healthy)
    else r
  }

  /** The status shown: held while the probe is dry, cleared when thresholds change or monitoring is off. */
  function Shown(w: Watch, shown: Status, c: Cfg, p: Probe): Status {
    if c.monitored && Wet(c, p) then Observed(w, c, p).monitor.status
    else if !c.monitored || Moved(w, c) then Ok
    else shown
  }

  function WindowAfter(window: seq<u16>, p: Probe): seq<u16> {
    if p.adcOk then Newest(window + [Truncated(p.mv)]) else window
  }

  function SensorAfter(s: Sensor, c: Cfg, p: Probe): Sensor {
    Sensor(WindowAfter(s.window, p), Observed(s.watch, c, p))
  }

  /** _read_water_level. */
  function ImageAfter(s: Sensor, img: Image, c: Cfg, p: Probe): Image {
    var status := Shown(s.watch, img.corrosion, c, p);
    img.(levelMv := p.mv, medianMv := p.median, waterOk := Wet(c, p), corrosion := status,
         level := ClassifyLevel(Trusted(p.adcOk, status, c.guarded), p.mv <= c.levelMv as real))
  }

  /** A level that is known agrees with the level-OK flag; an untrusted one says nothing. */
  predicate Coherent(img: Image) {
    && (img.level.LevelOk? ==> img.waterOk)
    && (img.level.LowConfirmed? ==> !img.waterOk)
  }

  /** So wherever heating is allowed no refill is asked for, and the other way round. */
  lemma ReadingIsCoherent(s: Sensor, img: Image, c: Cfg, p: Probe)
    ensures Coherent(ImageAfter(s, img, c, p))
    ensures !p.adcOk ==> ImageAfter(s, img, c, p).level.Unknown? && !ImageAfter(s, img, c, p).waterOk
  {
  }

  /** The monitor's committed status is what is shown after every reading, if it was before. */
  lemma ShownIsCommitted(s: Sensor, img: Image, c: Cfg, p: Probe)
    requires img.corrosion == s.watch.monitor.status
    ensures ImageAfter(s, img, c, p).corrosion == SensorAfter(s, c, p).watch.monitor.status
  {
  }

  /** Water conducts: a lower voltage is never drier, and the threshold itself still counts as wet. */
  lemma LowVoltageIsWet(c: Cfg, p: Probe, q: Probe)
    requires p.adcOk && q.adcOk
    ensures p.mv <= q.mv && Wet(c, q) ==> Wet(c, p)
    ensures p.mv == c.levelMv as real ==> Wet(c, p)
    ensures p.mv > c.levelMv as real ==> !Wet(c, p)
  {
  }

  /** The level is unknown exactly when the ADC failed, or a fault of the probe is committed and the guard is on;
      else it is OK exactly when the probe is wet. */
  lemma LevelKnownIff(s: Sensor, img: Image, c: Cfg, p: Probe)
    ensures var t := ImageAfter(s, img, c, p);
            && (t.level.Unknown? <==> !p.adcOk || (c.guarded && t.corrosion == Fault))
            && (!t.level.Unknown? ==> (t.level.LevelOk? <==> t.waterOk))
            && (t.waterOk <==> Wet(c, p)) && t.levelMv == p.mv && t.medianMv == p.median
  {
  }

  /** When the tracker is cleared, held or updated: off is healthy, new thresholds forget all history, a dry probe
      changes nothing. */
  lemma MonitoringRules(w: Watch, shown: Status, c: Cfg, p: Probe, history: Monitor)
    ensures var n, now := Observed(w, c, p), Shown(w, shown, c, p);
            && n.lastWarn == c.warn && n.lastFault == c.fault
            && (!c.monitored ==> n.monitor == Healthy && now == Ok)
            && (c.warn != w.lastWarn || c.fault != w.lastFault ==>
                  Observed(w.(monitor := history), c, p) == n && (!Wet(c, p) ==> now == Ok))
            && (c.monitored && !Wet(c, p) && c.warn == w.lastWarn && c.fault == w.lastFault ==>
                  n.monitor == w.monitor && now == shown)
            && (c.monitored && Wet(c, p) ==> now == n.monitor.status)
  {
    hide Update, Classify, Wet;
  }

  /** The valid samples among some readings. */
  function ValidSamples(ps: seq<Probe>): seq<u16> {
    if ps == [] then []
    else ValidSamples(ps[..|ps| - 1]) + if ps[|ps| - 1].adcOk then [Truncated(ps[|ps| - 1].mv)] else []
  }

  function WindowRun(ps: seq<Probe>): seq<u16> {
    if ps == [] then [] else WindowAfter(WindowRun(ps[..|ps| - 1]), ps[|ps| - 1])
  }

  /** The window holds the newest valid samples; what a failed ADC gave never enters it. */
  lemma {:induction false} WindowHoldsValid(ps: seq<Probe>)
    ensures WindowRun(ps) == Newest(ValidSamples(ps))
    decreases |ps|
  {
    if ps != [] { WindowHoldsValid(ps[..|ps| - 1]); }
  }

  /** Wet readings in a row on one set of thresholds, from a cleared tracker. */
  function Watched(c: Cfg, ps: seq<Probe>): Watch {
    if ps == [] then Watch(Healthy, c.warn, c.fault) else Observed(Watched(c, ps[..|ps| - 1]), c, ps[|ps| - 1])
  }

  function Readings(ps: seq<Probe>): seq<Corrosion.Reading> {
    seq(|ps|, (k: nat) requires k < |ps| => Corrosion.Reading(ps[k].median, ps[k].nowMs))
  }

  /** They take the tracker through the run of their medians, for which commits are timed. */
  lemma {:induction false} WetReadingsAreARun(c: Cfg, ps: seq<Probe>)
    requires c.monitored && forall p | p in ps :: Wet(c, p)
    ensures var limits := Thresholds(c.warn, c.fault, c.consistency);
            Watched(c, ps) == Watch(Corrosion.Run(limits, Readings(ps)), c.warn, c.fault)
    decreases |ps|
  {
    hide Update, Classify;
    if ps != [] {
      var n := |ps| - 1;
      WetReadingsAreARun(c, ps[..n]);
      assert Readings(ps)[..n] == Readings(ps[..n]);
    }
  }

  class Task {
    const img: Shared
    const window: Window
    const monitor: CorrosionMonitor
    var lastWarn: u16
    var lastFault: u16

    ghost predicate Valid()
      reads this, window
    {
      window.Valid()
    }

    ghost function Abs(): Sensor
      requires Valid()
      reads this, window, window.samples, monitor
    {
      Sensor(window.Contents(), Tracked())
    }

    ghost function Tracked(): Watch
      reads this, monitor
    {
      Watch(monitor.Abs(), lastWarn, lastFault)
    }

    /** sensor_task_init. */
    constructor (img: Shared)
      ensures Valid() && this.img == img && fresh(window) && fresh(window.samples) && fresh(monitor) && Abs() == Fresh
    {
      this.img := img;
      window := new Window();
      monitor := new CorrosionMonitor();
      lastWarn, lastFault := 0, 0;
    }

    /** Feed the window with valid samples only, and publish its median and the level flag. */
    method Measure(c: Cfg, adcOk: bool, mv: real) returns (median: u16)
      requires Valid()
      modifies window, window.samples, img`levelMv, img`medianMv, img`waterOk
      ensures Valid() && window.Contents() == WindowAfter(old(window.Contents()), Probe(adcOk, mv, median, 0))
      ensures IsMedian(multiset(window.Contents()), median)
      ensures img.Abs() == old(img.Abs()).(levelMv := mv, medianMv := median,
                                           waterOk := Wet(c, Probe(adcOk, mv, median, 0)))
    {
      hide IsMedian, Held, Newest, Truncated;
      img.levelMv := mv;
      if adcOk { window.Push(Truncated(mv)); }
      median := window.Median();
      img.medianMv := median;
      img.waterOk := adcOk && mv <= c.levelMv as real;
    }

    /** Rebase on new thresholds, and observe wet readings while monitoring is on. */
    method UpdateCorrosion(c: Cfg, ghost p: Probe, median: u16, nowMs: nat)
      requires p.median == median && p.nowMs == nowMs && img.waterOk == Wet(c, p)
      modifies this, monitor, img`corrosion
      ensures Tracked() == Observed(old(Tracked()), c, p)
      ensures img.Abs() == old(img.Abs()).(corrosion := Shown(old(Tracked()), old(img.corrosion), c, p))
    {
      hide Classify, Update;
      if c.warn != lastWarn || c.fault != lastFault {
        monitor.Reset();
        img.corrosion := Ok;
        lastWarn := c.warn;
        lastFault := c.fault;
      }
      if c.monitored && img.waterOk {
        var status := monitor.Observe(median, Thresholds(c.warn, c.fault, c.consistency), nowMs % U32);
        img.corrosion := status;
      } else if !c.monitored {
        monitor.Reset();
        img.corrosion := Ok;
      }
    }

    /** _read_water_level, whose probe reading p is what the ADC gave and the median of the window. */
    method ReadWaterLevel(c: Cfg, adcOk: bool, mv: real, nowMs: nat) returns (ghost p: Probe)
      requires Valid()
      modifies this, window, window.samples, monitor, img`levelMv, img`medianMv, img`waterOk, img`corrosion, img`level
      ensures Valid() && p == Probe(adcOk, mv, p.median, nowMs)
      ensures Abs() == SensorAfter(old(Abs()), c, p) && img.Abs() == ImageAfter(old(Abs()), old(img.Abs()), c, p)
      ensures IsMedian(multiset(Abs().window), p.median)
    {
      hide IsMedian, Held, Newest, Observed, Shown, ClassifyLevel, Trusted;
      var median := Measure(c, adcOk, mv);
      p := Probe(adcOk, mv, median, nowMs);
      UpdateCorrosion(c, p, median, nowMs);
      img.level := ClassifyLevel(Trusted(adcOk, img.corrosion, c.guarded), mv <= c.levelMv as real);
    }
  }
}
