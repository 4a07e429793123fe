/**
 * The process image: the record all layers share, each field with its owner.
 * Temperatures are read and written through the seqlock and are not kept here.
 */
module ProcessImage {
  import opened Corrosion
  import Refill

  datatype Image = Image(
    power: bool, brew: bool, steam: bool, descale: bool,                  // inputs: I/O scan (power also remote)
    levelMv: real, medianMv: nat, corrosion: Status, level: Level, waterOk: bool,   // sensor task
    desired: int,                                                         // control loop
    pump: bool, solenoid: bool, threeWay: bool, aux: bool, applied: int,  // I/O scan
    refill: Refill.State, brewActive: bool, brewStart: nat, lastScan: nat)

  /** process_image_init: everything off, the level untrusted. */
  const Safe := Image(
    false, false, false, false,
    0.0, 0, Ok, Level.Unknown, false,
    0,
    false, false, false, false, 0,
    Refill.Unknown, false, 0, 0)

  /** process_image_enter_standby: clears what the scan owns and latches. */
  function EnterStandby(img: Image): Image {
    img.(descale := false, brewActive := false, pump := false, threeWay := false, solenoid := false, aux := false,
         refill := Refill.Unknown)
  }

  class Shared {
    var power: bool
    var brew: bool
    var steam: bool
    var descale: bool
    var levelMv: real
    var medianMv: nat
    var corrosion: Status
    var level: Level
    var waterOk: bool
    var desired: int
    var pump: bool
    var solenoid: bool
    var threeWay: bool
    var aux: bool
    var applied: int
    var refill: Refill.State
    var brewActive: bool
    var brewStart: nat
    var lastScan: nat

    function Abs(): Image
      reads this
    {
      Image(power, brew, steam, descale, levelMv, medianMv, corrosion, level, waterOk, desired,
            pump, solenoid, threeWay, aux, applied, refill, brewActive, brewStart, lastScan)
    }

    constructor ()
      ensures Abs() == Safe
    {
      power, brew, steam, descale := false, false, false, false;
      levelMv, medianMv, corrosion, level, waterOk := 0.0, 0, Ok, Level.Unknown, false;
      desired, applied := 0, 0;
      pump, solenoid, threeWay, aux := false, false, false, false;
      refill, brewActive, brewStart, lastScan := Refill.Unknown, false, 0, 0;
    }

    method Standby()
      modifies this
      ensures Abs() == EnterStandby(old(Abs()))
    {
      descale := false;
      brewActive := false;
      ActuatorsOff();
      refill := Refill.Unknown;
    }

    method PowerUp(descaling: bool)
      modifies `descale, `aux
      ensures Abs() == old(Abs()).(descale := descaling || old(descale), aux := true)
    {
      if descaling { descale := true; }
      aux := true;
    }

    method ActuatorsOff()
      modifies `pump, `threeWay, `solenoid, `aux
      ensures Abs() == old(Abs()).(pump := false, threeWay := false, solenoid := false, aux := false)
    {
      pump := false;
      threeWay := false;
      solenoid := false;
      aux := false;
    }

    method SetBrewPath(active: bool, pumpOn: bool, threeWayOn: bool, solenoidOn: bool)
      modifies `brewActive, `pump, `threeWay, `solenoid
      ensures Abs() == old(Abs()).(brewActive := active, pump := pumpOn, threeWay := threeWayOn, solenoid := solenoidOn)
    {
      brewActive := active;
      pump := pumpOn;
      threeWay := threeWayOn;
      solenoid := solenoidOn;
    }

    method SetBrewStart(us: nat)
      modifies `brewStart
      ensures Abs() == old(Abs()).(brewStart := us)
    {
      brewStart := us;
    }

    /** power_active and power_standby. */
    method Remote(on: bool)
      modifies this`power
      ensures power == on
    {
      power := on;
    }
  }
}
