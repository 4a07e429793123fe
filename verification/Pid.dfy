/** The PID controller, over the reals. */
module Pid {
  import opened Basics

  const IntegralMax: real := 25.0

  /** pid_cfg_t; active selects one of the two setpoints. */
  datatype Cfg = Cfg(p: real, i: real, d: real, iReset: real, setpoint0: real, setpoint1: real, active: nat, over: real)
  {
    function Setpoint(): real { if active == 0 then setpoint0 else setpoint1 }

    function WithSetpoint(s: real): Cfg { if active == 0 then this.(setpoint0 := s) else this.(setpoint1 := s) }
  }

  /** Only the setpoint in force is replaced. */
  lemma SetpointReplaced(c: Cfg, s: real)
    ensures c.WithSetpoint(s).Setpoint() == s && c.WithSetpoint(c.Setpoint()) == c
    ensures c.WithSetpoint(s).WithSetpoint(c.Setpoint()) == c
  {
  }

  datatype State = State(error: real, proportional: real, integral: real, derivative: real, lastTime: nat,
                         lastValue: real)

  datatype Result = Result(duty: real, over: bool)

  const Reset := State(0.0, 0.0, 0.0, 0.0, 0, 0.0)

  function Magnitude(x: real): real { if x < 0.0 then -x else x }

  function Clamp(x: real, m: real): real { if x > m then m else if x < -m then -m else x }

  /** Seconds since the last sample, on a 64-bit microsecond clock. */
  function DeltaT(now: nat, last: nat): real { ((now - last) % U64) as real / 1000000.0 }

  /** Two samples at one instant divide by zero: divByZero is whatever the hardware makes of that. */
  function Derivative(c: Cfg, last: real, value: real, dt: real, divByZero: real): real {
    if dt == 0.0 then divByZero else c.d * (last - value) / dt
  }

  function Accumulated(c: Cfg, integral: real, error: real, dt: real): real { integral + c.i * (error * dt) }

  predicate OverThreshold(c: Cfg, error: real) { c.over != 0.0 && -error > c.over * c.Setpoint() / 100.0 }

  function Regulate(s: State, c: Cfg, dt: real, value: real, divByZero: real): (State, Result) {
    var error := c.Setpoint() - value;
    var raw := Accumulated(c, s.integral, error, dt);
    var t := s.(error := error,
                proportional := c.p * error,
                integral := Clamp(if Magnitude(error) > c.iReset then 0.0 else raw, IntegralMax),
                derivative := Derivative(c, s.lastValue, value, dt, divByZero));
    (t, Result(t.proportional + t.integral + t.derivative, OverThreshold(c, error)))
  }

  function Process(s: State, c: Cfg, now: nat, value: real, divByZero: real): (State, Result) {
    var r :=
      if DeltaT(now, s.lastTime) >= 5.0 then (Reset, Result(0.0, false))
      else if s.lastTime != 0 then Regulate(s, c, DeltaT(now, s.lastTime), value, divByZero)
      else (s, Result(0.0, false));
    (r.0.(lastTime := now, lastValue := value), r.1)
  }

  /** Before the first sample there is no error to act on. */
  predicate Inv(s: State) { (s.lastTime == 0 ==> s.error == 0.0) && -IntegralMax <= s.integral <= IntegralMax }

  /** A sample keeps the invariant except when the clock, having run before, reads 0 again within 5 s. */
  lemma ProcessKeepsInv(s: State, c: Cfg, now: nat, value: real, divByZero: real)
    requires Inv(s)
    ensures Inv(Process(s, c, now, value, divByZero).0)
            <==> now > 0 || s.lastTime == 0 || DeltaT(now, s.lastTime) >= 5.0 || c.Setpoint() == value
  {
    hide DeltaT;
  }

  /** What one sample yields: either nothing is asked for and no error is on record, or the error is the present one. */
  lemma ProcessYields(s: State, c: Cfg, now: nat, value: real, divByZero: real)
    requires Inv(s)
    ensures var r := Process(s, c, now, value, divByZero);
            || (r.1 == Result(0.0, false) && r.0.error == 0.0)
            || (r.0.error == c.Setpoint() - value && r.1.over == OverThreshold(c, c.Setpoint() - value))
  {
    hide DeltaT, OverThreshold;
  }

  // ----- how a step responds -----

  /** A step that acts: the controller has a sample on record, less than 5 s old. */
  predicate Acts(s: State, now: nat) { 0 < s.lastTime < now < U64 && now - s.lastTime < 5000000 }

  function Seconds(s: State, now: nat): real
    requires s.lastTime <= now
  {
    (now - s.lastTime) as real / 1000000.0
  }

  lemma DeltaIsSeconds(s: State, now: nat)
    requires s.lastTime <= now < U64
    ensures DeltaT(now, s.lastTime) == Seconds(s, now)
    ensures now - s.lastTime < 5000000 <==> Seconds(s, now) < 5.0
    ensures s.lastTime < now ==> Seconds(s, now) > 0.0
  {
  }

  /** A first sample asks for nothing; one after a gap of 5 s or more asks for nothing and forgets what was summed. */
  lemma IdleSteps(s: State, c: Cfg, now: nat, value: real, divByZero: real)
    requires s.lastTime <= now < U64
    ensures var r := Process(s, c, now, value, divByZero);
            && r.0.lastTime == now && r.0.lastValue == value
            && (now - s.lastTime >= 5000000 ==> r.1 == Result(0.0, false) && r.0.integral == r.0.error == 0.0)
            && (s.lastTime == 0 && now < 5000000 ==>
                  r.1 == Result(0.0, false) && r.0.integral == s.integral && r.0.error == s.error)
  {
    hide Regulate;
    DeltaIsSeconds(s, now);
  }

  /** A sum limited to 25 either way: itself while it is within, else the limit it has passed. */
  lemma ClampIs(x: real, y: real)
    ensures Clamp(x, IntegralMax) == y <==> -25.0 <= y <= 25.0 && (x < y ==> y == -25.0) && (x > y ==> y == 25.0)
  {
  }

  /** The reading stands still: the step asks for p times the error and what has been summed. The sum grows by i
      times error times seconds, within 25 either way, and is 0 while the error is outside its band. */
  lemma StillResponse(s: State, c: Cfg, now: nat, value: real, divByZero: real)
    requires Acts(s, now) && s.lastValue == value
    ensures var r, error := Process(s, c, now, value, divByZero), c.Setpoint() - value;
            && r.1.duty == c.p * error + r.0.integral && r.0.error == error
            && (error > c.iReset || error < -c.iReset ==> r.0.integral == 0.0)
            && (-c.iReset <= error <= c.iReset ==>
                  r.0.integral == Clamp(s.integral + c.i * (error * Seconds(s, now)), IntegralMax))
  {
    DeltaIsSeconds(s, now);
    DerivativeIs(c, value, value, Seconds(s, now), divByZero);
    var dt, error := Seconds(s, now), c.Setpoint() - value;
    var raw := Accumulated(c, s.integral, error, dt);
    assert raw == s.integral + c.i * (error * dt);
    assert Clamp(0.0, IntegralMax) == 0.0 by { ClampIs(0.0, 0.0); }
    hide Accumulated, Derivative, DeltaT, Seconds, OverThreshold, Clamp;
    var t := Regulate(s, c, dt, value, divByZero).0;
    assert t.integral == Clamp(if Magnitude(error) > c.iReset then 0.0 else raw, IntegralMax);
  }

  /** A reading that moves changes only what the step asks for, against the movement: by d times its slope, less if it
      rose and more if it fell. */
  lemma SlopeResponse(s: State, c: Cfg, now: nat, value: real, divByZero: real)
    requires Acts(s, now)
    ensures var moved, still := Process(s, c, now, value, divByZero),
                                Process(s.(lastValue := value), c, now, value, divByZero);
            && moved.0 == still.0.(derivative := moved.0.derivative) && moved.1.over == still.1.over
            && (still.1.duty - moved.1.duty) * Seconds(s, now) == c.d * (value - s.lastValue)
            && (c.d > 0.0 && value > s.lastValue ==> moved.1.duty < still.1.duty)
            && (c.d > 0.0 && value < s.lastValue ==> moved.1.duty > still.1.duty)
  {
    DeltaIsSeconds(s, now);
    DerivativeIs(c, s.lastValue, value, Seconds(s, now), divByZero);
    DerivativeIs(c, value, value, Seconds(s, now), divByZero);
    hide Derivative, Accumulated, Clamp, OverThreshold, Seconds, DeltaT;
    LessBy(c.p * (c.Setpoint() - value) + Process(s, c, now, value, divByZero).0.integral,
           Derivative(c, s.lastValue, value, Seconds(s, now), divByZero), Seconds(s, now));
  }

  lemma LessBy(rest: real, x: real, dt: real)
    ensures ((rest + 0.0) - (rest + x)) * dt == (-x) * dt
  {
  }

  lemma DerivativeIs(c: Cfg, last: real, value: real, dt: real, divByZero: real)
    requires dt > 0.0
    ensures var x := Derivative(c, last, value, dt, divByZero);
            && (-x) * dt == c.d * (value - last) && (value == last ==> x == 0.0)
            && (c.d > 0.0 && value > last ==> x < 0.0) && (c.d > 0.0 && value < last ==> x > 0.0)
  {
    var rise := c.d * (last - value);
    SignOfProduct(c.d, last - value);
    QuotientOf(rise, dt);
    assert -rise == c.d * (value - last);
  }

  lemma SignOfProduct(a: real, b: real)
    ensures a > 0.0 && b > 0.0 ==> a * b > 0.0
    ensures a > 0.0 && b < 0.0 ==> a * b < 0.0
    ensures b == 0.0 ==> a * b == 0.0
  {
  }

  lemma QuotientOf(a: real, b: real)
    requires b > 0.0
    ensures (a / b) * b == a && (-(a / b)) * b == -a
    ensures a > 0.0 ==> a / b > 0.0
    ensures a < 0.0 ==> a / b < 0.0
    ensures a == 0.0 ==> a / b == 0.0
  {
  }

  /** The cutoff is reported exactly when it is on and the reading exceeds the setpoint by more than its percentage. */
  lemma OverIff(s: State, c: Cfg, now: nat, value: real, divByZero: real)
    requires Acts(s, now) && c.over >= 0.0
    ensures Process(s, c, now, value, divByZero).1.over
            <==> c.over > 0.0 && value > c.Setpoint() + c.over * c.Setpoint() / 100.0
  {
    hide Derivative, Accumulated;
    DeltaIsSeconds(s, now);
  }

  // ----- runs of steps -----

  datatype Timed = Timed(now: nat, value: real)

  function StepAll(s: State, c: Cfg, xs: seq<Timed>, divByZero: real): State
    decreases |xs|
  {
    if xs == [] then s else StepAll(Process(s, c, xs[0].now, xs[0].value, divByZero).0, c, xs[1..], divByZero)
  }

  /** An error times the seconds it stood for. */
  function Part(c: Cfg, last: nat, x: Timed): real { (c.Setpoint() - x.value) * ((x.now - last) as real / 1000000.0) }

  /** The area under the error. */
  function ErrorArea(c: Cfg, last: nat, xs: seq<Timed>): real
    decreases |xs|
  {
    if xs == [] then 0.0 else Part(c, last, xs[0]) + ErrorArea(c, xs[0].now, xs[1..])
  }

  /** Each step acts on an error inside the band, and the sum from i0 on stays within its limit. */
  predicate Smooth(c: Cfg, last: nat, i0: real, xs: seq<Timed>)
    decreases |xs|
  {
    xs == []
    || (var i1 := i0 + c.i * Part(c, last, xs[0]);
        && 0 < last < xs[0].now < U64 && xs[0].now - last < 5000000
        && -c.iReset <= c.Setpoint() - xs[0].value <= c.iReset
        && -25.0 <= i1 <= 25.0 && Smooth(c, xs[0].now, i1, xs[1..]))
  }

  lemma SmoothNext(c: Cfg, last: nat, i0: real, xs: seq<Timed>, i1: real)
    requires xs != [] && Smooth(c, last, i0, xs) && i1 == i0 + c.i * Part(c, last, xs[0])
    ensures Smooth(c, xs[0].now, i1, xs[1..])
  {
  }

  /** Over such a run the integral grows by exactly i times the area under the error. */
  lemma {:induction false} IntegralIsArea(s: State, c: Cfg, xs: seq<Timed>, divByZero: real)
    requires Smooth(c, s.lastTime, s.integral, xs)
    ensures StepAll(s, c, xs, divByZero).integral == s.integral + c.i * ErrorArea(c, s.lastTime, xs)
    decreases |xs|
  {
    hide Process;
    if xs != [] {
      var t := Process(s, c, xs[0].now, xs[0].value, divByZero).0;
      IntegralStep(s, c, xs[0], divByZero);
      SmoothNext(c, s.lastTime, s.integral, xs, t.integral);
      IntegralIsArea(t, c, xs[1..], divByZero);
      Distributes(c.i, Part(c, s.lastTime, xs[0]), ErrorArea(c, xs[0].now, xs[1..]));
    }
  }

  lemma IntegralStep(s: State, c: Cfg, x: Timed, divByZero: real)
    requires Acts(s, x.now) && -c.iReset <= c.Setpoint() - x.value <= c.iReset
    requires -25.0 <= s.integral + c.i * Part(c, s.lastTime, x) <= 25.0
    ensures var t := Process(s, c, x.now, x.value, divByZero).0;
            t.lastTime == x.now && t.integral == s.integral + c.i * Part(c, s.lastTime, x)
  {
    DeltaIsSeconds(s, x.now);
  }

  lemma Distributes(a: real, b: real, c: real)
    ensures a * (b + c) == a * b + a * c
  {
  }

  /** pid_update: a value out of range leaves the old one. */
  function Accept(was: real, given: real, ok: bool): real { if ok then given else was }

  function Update(dest: Cfg, src: Cfg): Cfg {
    dest.(p := Accept(dest.p, src.p, 0.0 <= src.p < 60.0),
          i := Accept(dest.i, src.i, 0.0 <= src.i < 100.0),
          d := Accept(dest.d, src.d, 0.0 <= src.d < 5000.0),
          iReset := Accept(dest.iReset, src.iReset, 0.0 <= src.iReset < 30.0),
          setpoint0 := Accept(dest.setpoint0, src.setpoint0, 50.0 <= src.setpoint0 <= 140.0),
          setpoint1 := Accept(dest.setpoint1, src.setpoint1, 80.0 <= src.setpoint1 <= 140.0),
          over := Accept(dest.over, src.over, 0.0 <= src.over < 40.0))
  }

  predicate InRange(c: Cfg) {
    && 0.0 <= c.p < 60.0 && 0.0 <= c.i < 100.0 && 0.0 <= c.d < 5000.0 && 0.0 <= c.iReset < 30.0
    && 50.0 <= c.setpoint0 <= 140.0 && 80.0 <= c.setpoint1 <= 140.0 && 0.0 <= c.over < 40.0
  }

  function UpdateAll(c: Cfg, srcs: seq<Cfg>): Cfg {
    if srcs == [] then c else Update(UpdateAll(c, srcs[..|srcs| - 1]), srcs[|srcs| - 1])
  }

  /** However it is updated, the configuration stays in range; which setpoint is active is not for updates to say. */
  lemma {:induction false} UpdatesStayInRange(c: Cfg, srcs: seq<Cfg>)
    requires InRange(c)
    ensures InRange(UpdateAll(c, srcs)) && UpdateAll(c, srcs).active == c.active
    decreases |srcs|
  {
    if srcs != [] { UpdatesStayInRange(c, srcs[..|srcs| - 1]); }
  }

  /** An update in range is taken over whole, but for the choice of setpoint; and each field stands for itself. */
  lemma UpdateAdopts(dest: Cfg, src: Cfg)
    ensures InRange(src) ==> Update(dest, src) == src.(active := dest.active)
    ensures forall p: real | !(0.0 <= p < 60.0) :: Update(dest, src.(p := p)) == Update(dest, src).(p := dest.p)
    ensures !(80.0 <= src.setpoint1 <= 140.0) ==> Update(dest, src).setpoint1 == dest.setpoint1
    ensures !(50.0 <= src.setpoint0 <= 140.0) ==> Update(dest, src).setpoint0 == dest.setpoint0
  {
  }

  /** pid_struct_t, and the functions that assign its fields. */
  class Controller {
    var error: real
    var proportional: real
    var integral: real
    var derivative: real
    var lastTime: nat
    var lastValue: real

    ghost function Abs(): State
      reads this
    {
      State(error, proportional, integral, derivative, lastTime, lastValue)
    }

    constructor ()
      ensures Abs() == Reset
    {
      error, proportional, integral, derivative, lastTime, lastValue := 0.0, 0.0, 0.0, 0.0, 0, 0.0;
    }

    /** pid_reset. */
    method Clear()
      modifies this
      ensures Abs() == Reset
    {
      error, proportional, integral, derivative, lastTime, lastValue := 0.0, 0.0, 0.0, 0.0, 0, 0.0;
    }

    /** pid_process. */
    method Sample(c: Cfg, now: nat, value: real, divByZero: real) returns (r: Result)
      modifies this
      ensures var t := Process(old(Abs()), c, now, value, divByZero); Abs() == t.0 && r == t.1
    {
      hide DeltaT, Derivative, Accumulated, OverThreshold;
      r := Result(0.0, false);
      var dt := DeltaT(now, lastTime);
      if dt >= 5.0 {
        Clear();
      } else if lastTime != 0 {
        error := c.Setpoint() - value;
        proportional := c.p * error;
        integral := Accumulated(c, integral, error, dt);
        derivative := Derivative(c, lastValue, value, dt, divByZero);
        if Magnitude(error) > c.iReset { integral := 0.0; }
        if integral > IntegralMax {
          integral := IntegralMax;
        } else if integral < -IntegralMax {
          integral := -IntegralMax;
        }
        r := Result(proportional + integral + derivative, OverThreshold(c, error));
      }
      lastTime := now;
      lastValue := value;
    }
  }
}
