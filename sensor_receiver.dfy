/** The sensor-frame receiver's main loop. Each pass polls the radio once; a
    payload of exactly 32 bytes is decoded as `<ii12h`, forwarded to the UART
    when at least 500 ms have passed since the last successful forward, and
    counted. Anything else (nothing pending, a failed read, a payload of the
    wrong length, or no radio at all) leaves the state as it was. Clock
    readings are plain integers compared by plain subtraction. */
module SensorReceiver {
  import opened Common
  import opened SensorFrame

  const SendInterval := 500

  /** What one poll of the radio yields: nothing pending, an `OSError` while
      reading the FIFO, or a payload. */
  datatype RadioEvent = Idle | RecvError | Payload(data: seq<Byte>)

  /** The inputs of one pass: the clock at the forwarding decision, the
      radio, and whether `uart_pc.write` succeeds. */
  datatype Tick = Tick(now: int, event: RadioEvent, uartOk: bool)

  /** One forwarded frame and the clock reading it was forwarded at. */
  datatype Forward = Forward(at: int, frame: SensorFrame)

  /** The loop's state: the frame counter, the time of the last successful
      forward, and every frame forwarded so far. */
  datatype RelayState = RelayState(counter: nat, lastSend: int, sent: seq<Forward>)

  /** Start-up: the counter at 0, the forwarding clock at boot time. */
  function Boot(clock: int): (st: RelayState)
    ensures st.counter == 0 && st.sent == [] && st.lastSend == clock
  {
    RelayState(0, clock, [])
  }

  /** The receiver processes a payload only if it is non-empty and exactly
      32 bytes long. */
  predicate Accepted(event: RadioEvent)
    ensures Accepted(event) ==> event.Payload? && Unpack(event.data).Some?
  {
    event.Payload? && event.data != [] && |event.data| == PayloadSize
  }

  /** A forward is due when at least `SendInterval` ms have passed. */
  predicate Due(s: RelayState, now: int)
  {
    now - s.lastSend >= SendInterval
  }

  /** One pass. Without a radio every pass raises before it touches the
      state; otherwise an accepted payload is forwarded if due (the
      timestamp only moves when the write succeeds) and always counted. */
  function Next(radioPresent: bool, s: RelayState, t: Tick): (r: RelayState)
    ensures r == s || (radioPresent && Accepted(t.event) && r.counter == s.counter + 1)
    ensures s.sent <= r.sent && |r.sent| - |s.sent| <= r.counter - s.counter
  {
    if !radioPresent || !Accepted(t.event) then s
    else Handle(s, t.now, t.uartOk, Unpack(t.event.data).value)
  }

  /** What an accepted frame `f` does to the state. */
  function Handle(s: RelayState, now: int, uartOk: bool, f: SensorFrame): (r: RelayState)
    ensures r.counter == s.counter + 1
    ensures r.sent == s.sent || (Due(s, now) && uartOk && r.sent == s.sent + [Forward(now, f)])
    ensures r.lastSend == s.lastSend || (Due(s, now) && r.lastSend == now)
  {
    if Due(s, now) && uartOk then RelayState(s.counter + 1, now, s.sent + [Forward(now, f)])
    else RelayState(s.counter + 1, s.lastSend, s.sent)
  }

  /** A sequence of passes. */
  function Run(radioPresent: bool, s: RelayState, ticks: seq<Tick>): (r: RelayState)
    ensures s.counter <= r.counter <= s.counter + |ticks|
    ensures s.sent <= r.sent
    decreases |ticks|
  {
    if ticks == [] then s else Run(radioPresent, Next(radioPresent, s, ticks[0]), ticks[1..])
  }

  /** How many of the ticks carry an accepted payload. */
  function AcceptedCount(ticks: seq<Tick>): (n: nat)
    ensures n <= |ticks|
  {
    if ticks == [] then 0
    else (if Accepted(ticks[0].event) then 1 else 0) + AcceptedCount(ticks[1..])
  }

  /** A payload the receiver does not accept changes nothing. */
  lemma RejectedChangesNothing(radioPresent: bool, s: RelayState, t: Tick)
    requires !Accepted(t.event)
    ensures Next(radioPresent, s, t) == s
  {
  }

  /** An accepted payload raises the counter by exactly one, whether or not it
      is forwarded. */
  lemma AcceptedCounts(s: RelayState, t: Tick)
    requires Accepted(t.event)
    ensures Next(true, s, t).counter == s.counter + 1
  {
  }

  /** Whenever a forward is due (`SendInterval` ms or more since the last
      one, the boundary included), an accepted frame goes out if the write
      succeeds, and the timestamp moves to now. */
  lemma ForwardWhenDue(s: RelayState, t: Tick)
    requires Accepted(t.event) && t.uartOk && Due(s, t.now)
    ensures Next(true, s, t).sent == s.sent + [Forward(t.now, Unpack(t.event.data).value)]
    ensures Next(true, s, t).lastSend == t.now
  {
  }

  /** In particular the gate is inclusive: exactly `SendInterval` ms after
      the last forward is already due. */
  lemma ForwardAtInterval(s: RelayState, t: Tick)
    requires Accepted(t.event) && t.uartOk && t.now == s.lastSend + SendInterval
    ensures Next(true, s, t).sent == s.sent + [Forward(t.now, Unpack(t.event.data).value)]
    ensures Next(true, s, t).lastSend == t.now
  {
    ForwardWhenDue(s, t);
  }

  /** Before the interval has passed, or when the write fails, nothing is
      forwarded and the timestamp stays. */
  lemma NoForwardWhenNotDue(radioPresent: bool, s: RelayState, t: Tick)
    requires !Due(s, t.now) || !t.uartOk
    ensures Next(radioPresent, s, t).sent == s.sent
    ensures Next(radioPresent, s, t).lastSend == s.lastSend
  {
  }

  /** Without a radio, any number of passes changes nothing. */
  lemma {:induction false} NoRadioNoChange(s: RelayState, ticks: seq<Tick>)
    ensures Run(false, s, ticks) == s
    decreases |ticks|
  {
    if ticks != [] {
      NoRadioNoChange(s, ticks[1..]);
    }
  }

  /** Over a run, the counter rises by exactly the number of accepted
      payloads. */
  lemma {:induction false} RunCounter(s: RelayState, ticks: seq<Tick>)
    ensures Run(true, s, ticks).counter == s.counter + AcceptedCount(ticks)
    decreases |ticks|
  {
    if ticks != [] {
      RunCounter(Next(true, s, ticks[0]), ticks[1..]);
    }
  }

  /** Over a run, every new forward carries a new accepted payload: the
      forwards grow by at most what the counter grows by. */
  lemma {:induction false} RunForwardsAtMostCounted(radioPresent: bool, s: RelayState, ticks: seq<Tick>)
    ensures var r := Run(radioPresent, s, ticks);
      |s.sent| <= |r.sent| && |r.sent| - |s.sent| <= r.counter - s.counter
    decreases |ticks|
  {
    if ticks != [] {
      RunForwardsAtMostCounted(radioPresent, Next(radioPresent, s, ticks[0]), ticks[1..]);
    }
  }

  /** The forwards are spaced at least `SendInterval` apart, and the last one
      was at `lastSend`. */
  predicate Spaced(s: RelayState)
  {
    && (forall i, j :: 0 <= i < j < |s.sent| ==> s.sent[j].at - s.sent[i].at >= SendInterval)
    && (s.sent != [] ==> s.sent[|s.sent| - 1].at == s.lastSend)
  }

  /** One pass keeps the forwards spaced: the UART sees at most one record
      per 500 ms. */
  lemma NextKeepsSpaced(radioPresent: bool, s: RelayState, t: Tick)
    requires Spaced(s)
    ensures Spaced(Next(radioPresent, s, t))
  {
    if radioPresent && Accepted(t.event) {
      HandleKeepsSpaced(s, t.now, t.uartOk, Unpack(t.event.data).value);
    }
  }

  lemma HandleKeepsSpaced(s: RelayState, now: int, uartOk: bool, f: SensorFrame)
    requires Spaced(s)
    ensures Spaced(Handle(s, now, uartOk, f))
  {
    var s' := Handle(s, now, uartOk, f);
    if Due(s, now) && uartOk {
      assert s'.sent == s.sent + [Forward(now, f)];
      forall i, j | 0 <= i < j < |s'.sent|
        ensures s'.sent[j].at - s'.sent[i].at >= SendInterval
      {
        if j == |s.sent| && i < j - 1 {
          assert s.sent[j - 1].at - s.sent[i].at >= SendInterval;
        }
      }
    }
  }

  /** The spacing holds over any run from boot. */
  lemma {:induction false} RunKeepsSpaced(radioPresent: bool, s: RelayState, ticks: seq<Tick>)
    requires Spaced(s)
    ensures Spaced(Run(radioPresent, s, ticks))
    decreases |ticks|
  {
    if ticks != [] {
      NextKeepsSpaced(radioPresent, s, ticks[0]);
      RunKeepsSpaced(radioPresent, Next(radioPresent, s, ticks[0]), ticks[1..]);
    }
  }

  lemma BootSpaced(clock: int)
    ensures Spaced(Boot(clock)) && Boot(clock).counter == 0
  {
  }

  /** The loop's globals `counter` and `last_send_time`, plus the record of
      what reached the UART. `radioPresent` is whether `inicializar_nrf`
      returned a radio. */
  class SensorLink {
    const radioPresent: bool
    var counter: nat
    var lastSend: int
    var sent: seq<Forward>

    function State(): RelayState
      reads this
    {
      RelayState(counter, lastSend, sent)
    }

    constructor (radio: bool, clock: int)
      ensures radioPresent == radio
      ensures State() == Boot(clock)
    {
      radioPresent := radio;
      counter := 0;
      lastSend := clock;
      sent := [];
    }

    /** One pass of the `while True` loop. */
    method Step(now: int, event: RadioEvent, uartOk: bool)
      modifies this
      ensures State() == Next(radioPresent, old(State()), Tick(now, event, uartOk))
      ensures old(Spaced(State())) ==> Spaced(State())
    {
      if radioPresent && Accepted(event) {
        var frame := Unpack(event.data).value;
        HandleFrame(now, uartOk, frame);
      }
      if old(Spaced(State())) {
        NextKeepsSpaced(radioPresent, old(State()), Tick(now, event, uartOk));
      }
    }

    /** The body of `if data and len(data) == PAYLOAD_SIZE`, after the
        decode: the rate-limited UART forward and the counter. */
    method HandleFrame(now: int, uartOk: bool, frame: SensorFrame)
      modifies this
      ensures State() == Handle(old(State()), now, uartOk, frame)
    {
      if now - lastSend >= SendInterval {
        if uartOk {
          sent := sent + [Forward(now, frame)];
          lastSend := now;
        }
      }
      counter := counter + 1;
    }
  }
}
