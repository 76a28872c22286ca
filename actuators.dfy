/** Conversion of a steering angle and a motor level into servo / ESC pulse
    widths in microseconds, as the control receiver drives its PWM outputs
    at 50 Hz. */
module Actuators {

  const ServoMaxAngle := 80
  const MotorMaxLevel := 100
  /** Half-width of the motor dead-band: |level - 50| below this is neutral. */
  const DeadBand := 5

  /** The safe midpoint the failsafe drives both axes to. */
  const NeutralAngle := 40
  const NeutralLevel := 50

  /** `max(lo, min(hi, x))`. */
  function Clamp(lo: int, hi: int, x: int): (r: int)
    requires lo <= hi
    ensures lo <= r <= hi
    ensures lo <= x <= hi ==> r == x
    ensures x < lo ==> r == lo
    ensures x > hi ==> r == hi
  {
    if x < lo then lo else if x > hi then hi else x
  }

  /** Servo pulse for a steering angle in degrees: the angle is clamped to
      [0, 80] and mapped linearly with floor division onto 500 + 2000/180 us
      per degree, so the widest pulse is 1388 us, not 1500. */
  function ServoPulse(angle: int): (us: int)
    ensures 500 <= us <= 1388
    ensures angle <= 0 ==> us == 500
    ensures angle >= ServoMaxAngle ==> us == 1388
  {
    500 + (Clamp(0, ServoMaxAngle, angle) * 2000) / 180
  }

  lemma ServoPulseMonotone(a: int, b: int)
    requires a <= b
    ensures ServoPulse(a) <= ServoPulse(b)
  {
    var ca, cb := Clamp(0, ServoMaxAngle, a), Clamp(0, ServoMaxAngle, b);
    DivMonotone(ca * 2000, cb * 2000, 180);
  }

  lemma DivMonotone(x: nat, y: nat, d: int)
    requires x <= y && d > 0
    ensures x / d <= y / d
  {
    var qx, qy := x / d, y / d;
    if qx > qy {
      assert x == d * qx + x % d && y == d * qy + y % d;
      MulMonotone(d, qy + 1, qx);
    }
  }

  lemma MulMonotone(d: nat, a: int, b: int)
    requires a <= b
    ensures d * a <= d * b
  {
  }

  /** Offset of the clamped level from the centre, with the dead-band
      collapsed to zero. */
  function Centered(level: int): (c: int)
    ensures -50 <= c <= 50
    ensures c == 0 || c <= -DeadBand || c >= DeadBand
  {
    var v := Clamp(0, MotorMaxLevel, level);
    var c := v - 50;
    if -DeadBand < c < DeadBand then 0 else c
  }

  /** ESC pulse for a motor level in percent: 1500 us at neutral, 10 us per
      percent away from the centre. */
  function MotorPulse(level: int): (us: int)
    ensures 1000 <= us <= 2000
    ensures us == 1500 || us <= 1450 || us >= 1550
    ensures level <= 0 ==> us == 1000
    ensures level >= MotorMaxLevel ==> us == 2000
  {
    1500 + Centered(level) * 10
  }

  /** The dead-band is exactly the levels 46..54, and it is strict: 45 and 55
      already move the motor by 50 us. */
  lemma MotorDeadBand(level: int)
    ensures MotorPulse(level) == 1500 <==> 46 <= level <= 54
    ensures MotorPulse(45) == 1450 && MotorPulse(55) == 1550
  {
  }

  lemma MotorPulseMonotone(a: int, b: int)
    requires a <= b
    ensures MotorPulse(a) <= MotorPulse(b)
  {
  }

  /** What `failsafe()` writes to the two PWM outputs: the motor at neutral
      and the servo at 40 degrees. */
  function FailsafePulses(): (p: (int, int))
    ensures p == (944, 1500)
  {
    (ServoPulse(NeutralAngle), MotorPulse(NeutralLevel))
  }
}
