/** The lap-time simulator of the sensor receiver board: a generator of
    progressive lap times and the loop that numbers them and hands each one
    to the sender. The random source is a parameter: `draw` is the value the
    one `getrandbits` call of a pass returned (10 bits for the first lap, 12
    bits for every later one). */
module LapSimulator {
  import opened Common

  const FirstLapBase := 25000

  /** What `getrandbits` can return on the pass that follows `last`. */
  predicate DrawFits(last: Option<int>, draw: nat)
  {
    if last.None? then draw < 1024 else draw < 4096
  }

  /** `gen_progressive_lap_time`: the first lap is 25000 ms plus the draw
      modulo 10000, every later one the previous lap plus the draw modulo
      5001. The draws are too narrow for either modulus to bite. */
  function GenLapTime(last: Option<int>, draw: nat): (t: int)
    requires DrawFits(last, draw)
    ensures last.None? ==> FirstLapBase <= t <= FirstLapBase + 1023
    ensures last.Some? ==> last.value <= t <= last.value + 4095
  {
    match last
    case None => FirstLapBase + draw % 10000
    case Some(previous) => previous + draw % 5001
  }

  /** Every first-lap time in [25000, 26023] is produced by some draw, and
      only those. */
  lemma FirstLapReachable(t: int)
    ensures (exists draw: nat :: draw < 1024 && GenLapTime(None, draw) == t)
        <==> FirstLapBase <= t <= FirstLapBase + 1023
  {
    if FirstLapBase <= t <= FirstLapBase + 1023 {
      var draw: nat := t - FirstLapBase;
      assert GenLapTime(None, draw) == t;
    }
  }

  /** Every increment in [0, 4095] is produced by some draw, and only
      those. */
  lemma NextLapReachable(previous: int, t: int)
    ensures (exists draw: nat :: draw < 4096 && GenLapTime(Some(previous), draw) == t)
        <==> previous <= t <= previous + 4095
  {
    if previous <= t <= previous + 4095 {
      var draw: nat := t - previous;
      assert GenLapTime(Some(previous), draw) == t;
    }
  }

  /** One `send_lap(lap_time_ms, lap_counter)` call. */
  datatype Lap = Lap(number: nat, timeMs: int)

  /** The value `last_lap_ms` holds after the laps so far. */
  function LastTime(laps: seq<Lap>): (last: Option<int>)
    ensures last.None? <==> laps == []
  {
    if laps == [] then None else Some(laps[|laps| - 1].timeMs)
  }

  /** The draws are ones `getrandbits` can return: 10 bits on the first
      pass, 12 bits after. */
  predicate DrawsFit(draws: seq<nat>)
  {
    forall i :: 0 <= i < |draws| ==> draws[i] < (if i == 0 then 1024 else 4096)
  }

  /** The laps that the first `|draws|` passes of `envio` send. */
  function Laps(draws: seq<nat>): (laps: seq<Lap>)
    requires DrawsFit(draws)
    ensures |laps| == |draws|
    decreases |draws|
  {
    if draws == [] then []
    else
      var previous := Laps(draws[..|draws| - 1]);
      previous + [Lap(|draws|, GenLapTime(LastTime(previous), draws[|draws| - 1]))]
  }

  /** The laps are numbered 1, 2, 3, ...; the first is in [25000, 26023];
      the times never decrease and rise by at most 4095 ms per lap. */
  predicate Progressive(laps: seq<Lap>)
  {
    && (forall i :: 0 <= i < |laps| ==> laps[i].number == i + 1)
    && (laps != [] ==> FirstLapBase <= laps[0].timeMs <= FirstLapBase + 1023)
    && (forall i, j :: 0 <= i <= j < |laps| ==>
          laps[i].timeMs <= laps[j].timeMs <= laps[i].timeMs + 4095 * (j - i))
  }

  /** Appending the next lap keeps the sequence progressive. */
  lemma SnocProgressive(laps: seq<Lap>, draw: nat)
    requires Progressive(laps) && DrawFits(LastTime(laps), draw)
    ensures Progressive(laps + [Lap(|laps| + 1, GenLapTime(LastTime(laps), draw))])
  {
    var t := GenLapTime(LastTime(laps), draw);
    var laps' := laps + [Lap(|laps| + 1, t)];
    var n := |laps|;
    forall i, j | 0 <= i <= j < |laps'|
      ensures laps'[i].timeMs <= laps'[j].timeMs <= laps'[i].timeMs + 4095 * (j - i)
    {
      if j == n && i < n {
        assert laps[i].timeMs <= laps[n - 1].timeMs <= laps[i].timeMs + 4095 * (n - 1 - i);
      }
    }
  }

  /** Every run of the simulator sends progressive laps. */
  lemma {:induction false} LapsProgressive(draws: seq<nat>)
    requires DrawsFit(draws)
    ensures Progressive(Laps(draws))
    decreases |draws|
  {
    if draws != [] {
      var init := draws[..|draws| - 1];
      assert DrawsFit(init);
      LapsProgressive(init);
      SnocProgressive(Laps(init), draws[|draws| - 1]);
    }
  }

  /** The `envio` loop, run for `|draws|` passes: `lap_counter` goes up by
      one, a lap time is generated from `last_lap_ms`, `last_lap_ms` takes
      it, and the pair is sent. */
  method Envio(draws: seq<nat>) returns (sent: seq<Lap>)
    requires DrawsFit(draws)
    ensures sent == Laps(draws)
    ensures Progressive(sent)
  {
    var lapCounter: nat := 0;
    var lastLap: Option<int> := None;
    sent := [];
    while lapCounter < |draws|
      invariant lapCounter <= |draws|
      invariant DrawsFit(draws[..lapCounter])
      invariant sent == Laps(draws[..lapCounter])
      invariant lastLap == LastTime(sent)
    {
      assert draws[..lapCounter + 1][..lapCounter] == draws[..lapCounter];
      var draw := draws[lapCounter];
      lapCounter := lapCounter + 1;
      var lapTime := GenLapTime(lastLap, draw);
      lastLap := Some(lapTime);
      sent := sent + [Lap(lapCounter, lapTime)];
    }
    assert draws[..lapCounter] == draws;
    LapsProgressive(draws);
  }
}
