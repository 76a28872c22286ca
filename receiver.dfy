/** The control receiver's main loop. Each pass reads the clock once and runs
    four steps in a fixed order: (1) take at most one radio frame and, if it
    is valid, drive the servo and the ESC from it; (2) every >20 ms write a
    telemetry record to the UART; (3) every >1000 ms refresh the cached
    battery reading; (4) if no valid frame has arrived for >2000 ms, drive
    both actuators to neutral, reinitialise the radio and reset the cached
    angle and level. Clock readings are plain integers compared by plain
    subtraction (the tick counter's wrap-around is not modelled). */
module Receiver {
  import opened Common
  import opened Actuators
  import opened ControlFrame
  import opened TelemetryLine

  const SignalTimeout := 2000
  const UartInterval := 20
  const BatteryInterval := 1000

  /** What one poll of the radio yields: nothing pending, an exception while
      reading the FIFO, or a payload. */
  datatype RxEvent = NoFrame | RecvFailed | Frame(data: seq<Byte>)

  /** The inputs of one pass: the clock, the radio, whether `uart.write`
      succeeds, and the battery reading (in hundredths of a volt) that a
      sample taken now would give. */
  datatype Tick = Tick(now: int, rx: RxEvent, uartOk: bool, battery: nat)

  /** Everything one pass reads or writes: the three timestamps, the cached
      battery reading, the cached angle/level and pulse widths reported in
      telemetry, the pulse widths actually on the two PWM outputs, the number
      of radio (re)initialisations and the telemetry lines written so far. */
  datatype LoopState = LoopState(
    lastRx: int, lastUart: int, lastBattery: int, vbatCenti: nat,
    angle: int, level: int, servoPulse: int, motorPulse: int,
    servoOut: int, motorOut: int, radioInits: nat, uartLog: seq<string>)

  /** The command a radio event delivers, if it is a frame the receiver
      accepts. */
  function Accepted(rx: RxEvent): (c: Option<Command>)
    ensures c.Some? <==> rx.Frame? && ParseFrame(rx.data).Ok?
    ensures c.Some? ==> c.value == ParseFrame(rx.data).value
  {
    match rx
    case Frame(data) => (match ParseFrame(data) case Ok(cmd) => Some(cmd) case Err(_) => None)
    case _ => None
  }

  /** The state right after boot: the radio initialised once, `failsafe()`
      already applied to the outputs, the caches at 40 / 50 / 1500 / 1500 and
      the UART timestamp at 0. */
  function Boot(bootClock: int, batteryClock: int, vbatCenti: nat): (st: LoopState)
    ensures st.servoOut == 944 && st.motorOut == 1500 && SafeOutputs(st)
    ensures st.radioInits == 1 && st.uartLog == [] && st.lastRx == bootClock
  {
    LoopState(bootClock, 0, batteryClock, vbatCenti,
              NeutralAngle, NeutralLevel, 1500, 1500,
              FailsafePulses().0, FailsafePulses().1, 1, [])
  }

  /** Step 1: a valid frame updates the outputs, the caches and the link
      timestamp; anything else changes nothing. */
  function Receive(s: LoopState, now: int, rx: RxEvent): (r: LoopState)
    ensures Accepted(rx).None? ==> r == s
    ensures Accepted(rx).Some? ==> r.lastRx == now && r.servoOut == r.servoPulse && r.motorOut == r.motorPulse
    ensures SafeOutputs(r) || (r.servoOut == s.servoOut && r.motorOut == s.motorOut)
    ensures r.uartLog == s.uartLog && r.lastUart == s.lastUart && r.radioInits == s.radioInits
    ensures r.vbatCenti == s.vbatCenti && r.lastBattery == s.lastBattery
  {
    match Accepted(rx)
    case None => s
    case Some(c) =>
      s.(servoPulse := ServoPulse(c.angle), servoOut := ServoPulse(c.angle),
         motorPulse := MotorPulse(c.level), motorOut := MotorPulse(c.level),
         angle := c.angle, level := c.level, lastRx := now)
  }

  /** Step 2: the telemetry record, at most every 20 ms. */
  function Relay(s: LoopState, now: int, uartOk: bool): (r: LoopState)
    ensures r == s.(uartLog := r.uartLog, lastUart := r.lastUart)
    ensures s.uartLog <= r.uartLog && |r.uartLog| <= |s.uartLog| + 1
    ensures r.lastUart == s.lastUart || (r.lastUart == now && now - s.lastUart > UartInterval)
  {
    if now - s.lastUart > UartInterval && uartOk then
      s.(uartLog := s.uartLog + [Format(s.angle, s.level, s.servoPulse, s.motorPulse, s.vbatCenti)],
         lastUart := now)
    else s
  }

  /** Step 3: the battery cache, at most every second. */
  function SampleBattery(s: LoopState, now: int, battery: nat): (r: LoopState)
    ensures r == s.(vbatCenti := r.vbatCenti, lastBattery := r.lastBattery)
    ensures r == s || (r.vbatCenti == battery && r.lastBattery == now && now - s.lastBattery > BatteryInterval)
  {
    if now - s.lastBattery > BatteryInterval then s.(vbatCenti := battery, lastBattery := now) else s
  }

  /** Link lost: more than 2000 ms since the last valid frame. */
  predicate LinkLost(s: LoopState, now: int)
  {
    now - s.lastRx > SignalTimeout
  }

  /** Step 4: the failsafe. The pulse caches and the link timestamp are not
      touched, so the branch fires again on every pass until a valid frame
      arrives. */
  function CheckLink(s: LoopState, now: int): (r: LoopState)
    ensures !LinkLost(s, now) ==> r == s
    ensures r.radioInits == s.radioInits || (LinkLost(s, now) && r.radioInits == s.radioInits + 1)
    ensures SafeOutputs(s) ==> SafeOutputs(r)
    ensures r.lastRx == s.lastRx && r.servoPulse == s.servoPulse && r.motorPulse == s.motorPulse
    ensures r.uartLog == s.uartLog && r.vbatCenti == s.vbatCenti
  {
    if LinkLost(s, now) then
      s.(motorOut := FailsafePulses().1, servoOut := FailsafePulses().0,
         radioInits := s.radioInits + 1, angle := NeutralAngle, level := NeutralLevel)
    else s
  }

  /** One pass of the loop. */
  function Next(s: LoopState, t: Tick): (r: LoopState)
    ensures s.radioInits <= r.radioInits <= s.radioInits + 1
    ensures s.uartLog <= r.uartLog && |r.uartLog| <= |s.uartLog| + 1
    ensures r.lastRx == s.lastRx || r.lastRx == t.now
  {
    CheckLink(SampleBattery(Relay(Receive(s, t.now, t.rx), t.now, t.uartOk), t.now, t.battery), t.now)
  }

  /** Several passes in a row. */
  function Run(s: LoopState, ticks: seq<Tick>): (r: LoopState)
    ensures s.radioInits <= r.radioInits <= s.radioInits + |ticks|
    ensures s.uartLog <= r.uartLog && |r.uartLog| <= |s.uartLog| + |ticks|
    decreases |ticks|
  {
    if ticks == [] then s else Run(Next(s, ticks[0]), ticks[1..])
  }

  // ---------------------------------------------------------------------------
  // Properties of one pass

  /** A frame that is not accepted (wrong length, wrong sync byte, wrong
      checksum, a read error, or no frame at all) leaves the command caches,
      the pulse caches and the link timestamp as they were; only the failsafe
      may reset angle and level. */
  lemma RejectedFrameKeepsCaches(s: LoopState, t: Tick)
    requires Accepted(t.rx).None?
    ensures var r := Next(s, t);
            r.lastRx == s.lastRx && r.servoPulse == s.servoPulse && r.motorPulse == s.motorPulse
            && (LinkLost(s, t.now) || (r.angle == s.angle && r.level == s.level))
    ensures Receive(s, t.now, t.rx) == s
    ensures !LinkLost(s, t.now) ==>
              var r := Next(s, t);
              && r.servoOut == s.servoOut && r.motorOut == s.motorOut
              && r.radioInits == s.radioInits && r.angle == s.angle && r.level == s.level
  {
  }

  /** A valid frame sets the pulse caches and both outputs to the clamped
      conversions of the decoded values, stores the raw (unclamped) angle and
      level, and refreshes the link timestamp, so the failsafe stays quiet in
      that pass. */
  lemma AcceptedFrameDrivesOutputs(s: LoopState, t: Tick)
    requires Accepted(t.rx).Some?
    ensures var c := Accepted(t.rx).value;
            var r := Next(s, t);
            && r.angle == c.angle == Word16(t.rx.data[1], t.rx.data[2])
            && r.level == c.level == Word16(t.rx.data[3], t.rx.data[4])
            && r.servoPulse == r.servoOut == ServoPulse(c.angle)
            && r.motorPulse == r.motorOut == MotorPulse(c.level)
            && r.lastRx == t.now
            && r.radioInits == s.radioInits
  {
  }

  /** A telemetry line is written exactly when more than 20 ms have passed
      since the last successful write and the write succeeds; it carries the
      caches as they stand after step 1 and the telemetry board reads back
      those same four integers. The UART timestamp moves only on success. */
  lemma RelayWritesRecord(s: LoopState, t: Tick)
    ensures var m := Receive(s, t.now, t.rx);
            var r := Next(s, t);
            var sent := t.now - s.lastUart > UartInterval && t.uartOk;
            && (sent ==> r.uartLog == s.uartLog + [Format(m.angle, m.level, m.servoPulse, m.motorPulse, m.vbatCenti)]
                         && r.lastUart == t.now
                         && HandleLine(Encode(r.uartLog[|s.uartLog|]))
                              == Some(Reading(m.angle, m.level, m.servoPulse, m.motorPulse, CentiText(m.vbatCenti))))
            && (!sent ==> r.uartLog == s.uartLog && r.lastUart == s.lastUart)
  {
    var m := Receive(s, t.now, t.rx);
    var relayed := Relay(m, t.now, t.uartOk);
    var r := Next(s, t);
    assert m.uartLog == s.uartLog && m.lastUart == s.lastUart;
    assert r.uartLog == relayed.uartLog && r.lastUart == relayed.lastUart;
    if t.now - s.lastUart > UartInterval && t.uartOk {
      var line := Format(m.angle, m.level, m.servoPulse, m.motorPulse, m.vbatCenti);
      assert r.uartLog[|s.uartLog|] == line;
      RoundTrip(m.angle, m.level, m.servoPulse, m.motorPulse, m.vbatCenti);
    }
  }

  /** The battery cache and its timestamp are refreshed exactly when more
      than 1000 ms have passed. */
  lemma BatteryRefresh(s: LoopState, t: Tick)
    ensures var r := Next(s, t);
            if t.now - s.lastBattery > BatteryInterval
            then r.vbatCenti == t.battery && r.lastBattery == t.now
            else r.vbatCenti == s.vbatCenti && r.lastBattery == s.lastBattery
  {
  }

  /** The failsafe fires exactly when more than 2000 ms have passed since the
      last valid frame (counting one accepted in this pass). It drives the
      servo to 944 us and the motor to 1500 us, reinitialises the radio and
      resets the cached angle and level to 40 and 50, but leaves the pulse
      caches and the link timestamp alone. */
  lemma FailsafeFires(s: LoopState, t: Tick)
    ensures var m := Receive(s, t.now, t.rx);
            var r := Next(s, t);
            && (LinkLost(m, t.now) <==> r.radioInits == s.radioInits + 1)
            && (LinkLost(m, t.now) ==>
                  && r.servoOut == 944 && r.motorOut == 1500
                  && r.angle == NeutralAngle && r.level == NeutralLevel
                  && r.servoPulse == m.servoPulse && r.motorPulse == m.motorPulse
                  && r.lastRx == m.lastRx)
            && (!LinkLost(m, t.now) ==> r.radioInits == s.radioInits)
  {
  }

  /** The two PWM outputs only ever carry pulses inside the actuators' safe
      ranges. */
  ghost predicate SafeOutputs(s: LoopState)
  {
    500 <= s.servoOut <= 1388 && 1000 <= s.motorOut <= 2000
  }

  lemma NextKeepsOutputsSafe(s: LoopState, t: Tick)
    requires SafeOutputs(s)
    ensures SafeOutputs(Next(s, t))
  {
  }

  // ---------------------------------------------------------------------------
  // Properties of several passes

  lemma {:induction false} RunKeepsOutputsSafe(s: LoopState, ticks: seq<Tick>)
    requires SafeOutputs(s)
    decreases |ticks|
    ensures SafeOutputs(Run(s, ticks))
  {
    if ticks != [] {
      NextKeepsOutputsSafe(s, ticks[0]);
      RunKeepsOutputsSafe(Next(s, ticks[0]), ticks[1..]);
    }
  }

  /** From boot on, whatever the radio delivers, the outputs stay safe. */
  lemma BootOutputsSafe(bootClock: int, batteryClock: int, vbatCenti: nat, ticks: seq<Tick>)
    ensures SafeOutputs(Run(Boot(bootClock, batteryClock, vbatCenti), ticks))
  {
    RunKeepsOutputsSafe(Boot(bootClock, batteryClock, vbatCenti), ticks);
  }

  /** The failsafe is not one-shot: once the link is lost and no valid frame
      comes, every pass re-applies neutral and reinitialises the radio, and
      the link timestamp never moves. */
  lemma {:induction false} FailsafeRepeats(s: LoopState, ticks: seq<Tick>)
    requires forall i :: 0 <= i < |ticks| ==> Accepted(ticks[i].rx).None? && LinkLost(s, ticks[i].now)
    ensures Run(s, ticks).radioInits == s.radioInits + |ticks|
    ensures Run(s, ticks).lastRx == s.lastRx
    ensures ticks != [] ==> Run(s, ticks).servoOut == 944 && Run(s, ticks).motorOut == 1500
    decreases |ticks|
  {
    if ticks != [] {
      var s' := Next(s, ticks[0]);
      assert s'.lastRx == s.lastRx;
      FailsafeRepeats(s', ticks[1..]);
      assert ticks[1..] != [] ==> Run(s, ticks) == Run(s', ticks[1..]);
    }
  }

  /** The failsafe never fires while every pass either brings a valid frame
      or comes within 2000 ms of the last valid frame before it, however
      long the run: each valid frame moves the window on. */
  lemma {:induction false} NoFailsafeWhileFresh(s: LoopState, ticks: seq<Tick>)
    requires forall i :: 0 <= i < |ticks| ==>
               Accepted(ticks[i].rx).Some? || ticks[i].now - Run(s, ticks[..i]).lastRx <= SignalTimeout
    ensures Run(s, ticks).radioInits == s.radioInits
    decreases |ticks|
  {
    if ticks != [] {
      var s' := Next(s, ticks[0]);
      assert ticks[..0] == [];
      assert s'.radioInits == s.radioInits;
      var rest := ticks[1..];
      forall i | 0 <= i < |rest|
        ensures Accepted(rest[i].rx).Some? || rest[i].now - Run(s', rest[..i]).lastRx <= SignalTimeout
      {
        assert ticks[..i + 1][1..] == rest[..i];
        assert Run(s, ticks[..i + 1]) == Run(s', rest[..i]);
        assert rest[i] == ticks[i + 1];
      }
      NoFailsafeWhileFresh(s', rest);
    }
  }

  /** Start-up ends with a 2000 ms sleep, so a first pass more than 2000 ms
      after the boot clock reading that brings no valid frame already runs
      the failsafe and initialises the radio a second time. */
  lemma FirstPassWithoutFrame(bootClock: int, batteryClock: int, vbatCenti: nat, t: Tick)
    requires Accepted(t.rx).None? && t.now - bootClock > SignalTimeout
    ensures var r := Next(Boot(bootClock, batteryClock, vbatCenti), t);
            r.radioInits == 2 && r.servoOut == 944 && r.motorOut == 1500
  {
  }

  /** The loop's globals, updated in place pass after pass. */
  class ControlLoop {
    var lastRx: int
    var lastUart: int
    var lastBattery: int
    var vbatCenti: nat
    var angle: int
    var level: int
    var servoPulse: int
    var motorPulse: int
    var servoOut: int
    var motorOut: int
    var radioInits: nat
    var uartLog: seq<string>

    function State(): LoopState
      reads this
    {
      LoopState(lastRx, lastUart, lastBattery, vbatCenti, angle, level, servoPulse, motorPulse,
                servoOut, motorOut, radioInits, uartLog)
    }

    /** Module start-up: the radio is initialised, `failsafe()` drives the
        outputs to neutral, and the caches take their initial values. */
    constructor (bootClock: int, batteryClock: int, battery: nat)
      ensures State() == Boot(bootClock, batteryClock, battery)
      ensures SafeOutputs(State())
    {
      lastRx := bootClock;
      radioInits := 1;
      motorOut := MotorPulse(NeutralLevel);
      servoOut := ServoPulse(NeutralAngle);
      vbatCenti := battery;
      lastBattery := batteryClock;
      lastUart := 0;
      angle, level := NeutralAngle, NeutralLevel;
      servoPulse, motorPulse := 1500, 1500;
      uartLog := [];
    }

    /** One pass of the `while True` loop; `fired` tells whether the pass
        ended in the failsafe branch (the `continue`). */
    method Step(now: int, rx: RxEvent, uartOk: bool, battery: nat) returns (fired: bool)
      modifies this
      ensures State() == Next(old(State()), Tick(now, rx, uartOk, battery))
      ensures fired <==> now - lastRx > SignalTimeout
      ensures old(SafeOutputs(State())) ==> SafeOutputs(State())
    {
      ReceiveAndControl(now, rx);
      RelayTelemetry(now, uartOk);
      RefreshBattery(now, battery);
      fired := CheckFailsafe(now);
      if old(SafeOutputs(State())) {
        NextKeepsOutputsSafe(old(State()), Tick(now, rx, uartOk, battery));
      }
    }

    /** Priority 1: decode the frame, check sync byte and checksum, drive the
        actuators and update the caches. */
    method ReceiveAndControl(now: int, rx: RxEvent)
      modifies this
      ensures State() == Receive(old(State()), now, rx)
    {
      if rx.Frame? && |rx.data| == FrameLength {
        var h := Unpack(rx.data);
        if h.sync == SyncByte && ChecksumOk(h.sync, h.angle, h.level, h.chk) {
          servoPulse := ServoPulse(h.angle);
          servoOut := servoPulse;
          motorPulse := MotorPulse(h.level);
          motorOut := motorPulse;
          angle := h.angle;
          level := h.level;
          lastRx := now;
        }
      }
    }

    /** Priority 2: the telemetry record; a failed write is skipped. */
    method RelayTelemetry(now: int, uartOk: bool)
      modifies this
      ensures State() == Relay(old(State()), now, uartOk)
    {
      if now - lastUart > UartInterval {
        if uartOk {
          uartLog := uartLog + [Format(angle, level, servoPulse, motorPulse, vbatCenti)];
          lastUart := now;
        }
      }
    }

    /** Priority 3: the battery cache. */
    method RefreshBattery(now: int, battery: nat)
      modifies this
      ensures State() == SampleBattery(old(State()), now, battery)
    {
      if now - lastBattery > BatteryInterval {
        vbatCenti := battery;
        lastBattery := now;
      }
    }

    /** Priority 4: the failsafe. */
    method CheckFailsafe(now: int) returns (fired: bool)
      modifies this
      ensures State() == CheckLink(old(State()), now)
      ensures fired <==> LinkLost(old(State()), now)
    {
      fired := now - lastRx > SignalTimeout;
      if fired {
        motorOut := MotorPulse(NeutralLevel);
        servoOut := ServoPulse(NeutralAngle);
        radioInits := radioInits + 1;
        angle := NeutralAngle;
        level := NeutralLevel;
      }
    }
  }
}
