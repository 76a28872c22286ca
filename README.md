# RC car radio link: control receiver, telemetry relay and sensor receiver

This project models the on-board software of a radio-controlled car built from
three MicroPython boards, and proves properties of the model.

- **Control receiver** (`Rx16-1.py`). It polls an nRF24L01 radio for 8-byte
  control frames: sync byte `0xA5`, steering angle and motor level as
  little-endian `u16`, and an 8-bit additive checksum. A valid frame drives a
  steering servo and a motor ESC through clamped pulse-width conversions.
  Every 20 ms the receiver writes a text telemetry record
  `angle,level,servo,motor,vbat\n` to a UART. Every second it refreshes a
  cached battery reading. When no valid frame has arrived for more than
  2000 ms it applies the failsafe: both actuators go to neutral, the radio is
  reinitialised and the cached angle and level are reset.
- **Telemetry board** (`Rx2-15-1.py`). It reads that record line by line,
  strips and splits it, and reads the four integers.
- **Sensor receiver** (`RECEPTORR.py`). It receives 32-byte `<ii12h` sensor
  frames with no checksum. It forwards at most one frame per 500 ms to a UART
  and counts every accepted frame. It also holds a lap-time simulator
  (`gen_progressive_lap_time` and `envio`).

The modules follow the program's structure:

| module | file | what it holds |
|---|---|---|
| `Common` | common.dfy | bytes, `Option`/`Result`, little-endian `u16` |
| `Actuators` | actuators.dfy | `mover_servo_instantaneo`, `controlar_motor`, `failsafe` |
| `ControlFrame` | control_frame.dfy | `verificar_checksum`, the `<BHHB` decode and gate, and the transmitter's `struct.pack` as its inverse |
| `Text` | text.dfy | the MicroPython string operations the record relies on: `strip`, `split(",")`, `str(int)`, `int(str)` |
| `TelemetryLine` | telemetry_line.dfy | the record the control receiver writes and the telemetry board's per-line parse, with the round trip between them |
| `Receiver` | receiver.dfy | the control receiver's main loop, as a step function on a state value and as the class `ControlLoop` whose fields are the loop's globals |
| `SensorFrame` | sensor_frame.dfy | the `<ii12h` decode, with `struct.pack` as its inverse |
| `SensorReceiver` | sensor_receiver.dfy | the sensor receiver's main loop (`counter`, `last_send_time`), as a step function and as the class `SensorLink` |
| `LapSimulator` | lap_sim.dfy | `gen_progressive_lap_time` and the `envio` loop |

Each main loop is modelled twice. A pure function `Next` takes one pass from
state to state, and lemmas about `Next` and `Run` (many passes) state what the
loop guarantees. A class whose fields are the source's globals has a `Step`
method made of one method per priority of the loop. Each of those methods is
proved to produce exactly the state `Next` gives.

Inputs from the outside world are parameters of each pass:
- the clock reading;
- what the radio delivered (nothing, a read error, or a payload);
- whether the UART write succeeds;
- the battery sample;
- for the lap simulator, the value each `getrandbits` call returned.

Clock readings are plain integers.

Some behaviour of the code differs from what its comments or a reader would expect; the model follows the code:
- **Checksum byte.** The frame is unpacked with the 6-byte layout `<BHHB`, but
  the radio payload is 8 bytes long. So the checksum is byte 5, and bytes 6
  and 7 are never looked at (`ControlFrame.PaddingIgnored`). Corrupting the
  last byte of the payload does not cause a checksum mismatch; corrupting byte 5
  does (`ControlFrame.CorruptedChecksumRejected`).
- **Failsafe repeats.** The failsafe fires again on every pass while no valid
  frame arrives, not once per timeout crossing. The link timestamp is never
  moved by the failsafe (`Receiver.FailsafeRepeats`).
- **Failsafe right after boot.** The link timestamp is read at line 9, and
  start-up then sleeps 2000 ms (line 69) before the battery timestamp is
  read and the loop starts. So a first pass without a valid frame comes
  about 2000 ms after the link timestamp. If it is more than 2000 ms, it
  already runs the failsafe and reinitialises the radio a second time
  (`Receiver.FirstPassWithoutFrame`). `Receiver.Boot` takes the two clock
  readings as independent parameters.
- **Stale pulse caches.** The failsafe resets the cached angle and level to
  40 and 50 but leaves the cached pulse widths alone. Until the next valid
  frame, the telemetry record therefore reports the last commanded pulses,
  not the neutral ones on the outputs. The initial cached servo pulse is
  1500 us, which is not a value `ServoPulse` can produce (its range is
  500..1388).
- **Lap times.** The comments describe the first lap as 25-35 s and each
  later increment as 0-5 s. The draws are `getrandbits(10)` and
  `getrandbits(12)`, so the moduli 10000 and 5001 never bite. The first lap
  is 25000..26023 ms and each increment 0..4095 ms
  (`LapSimulator.FirstLapReachable`, `LapSimulator.NextLapReachable`).

## Model

| member | source | states |
|---|---|---|
| Common.Word16 | Rx16-1.py:116 | a little-endian `H` field is in [0, 65535] |
| Actuators.Clamp | Rx16-1.py:17 | `max(lo, min(hi, x))` lies in [lo, hi], is `x` inside the range and the nearer bound outside it |
| Actuators.ServoPulse | Rx16-1.py:16-20 | the servo pulse always lies in [500, 1388]; angles at or below 0 give 500 and at or above 80 give 1388 |
| Actuators.ServoPulseMonotone | Rx16-1.py:16-20 | a larger angle never gives a shorter servo pulse |
| Actuators.Centered | Rx16-1.py:26-30 | the centred level lies in [-50, 50] and is either 0 or at least 5 away from 0 |
| Actuators.MotorPulse | Rx16-1.py:26-33 | the ESC pulse always lies in [1000, 2000], is 1500 or at least 50 us away from it, and saturates at 1000 / 2000 at the ends |
| Actuators.MotorDeadBand | Rx16-1.py:28-31 | the pulse is neutral exactly for levels 46..54; 45 and 55 already give 1450 and 1550 |
| Actuators.MotorPulseMonotone | Rx16-1.py:26-33 | a larger level never gives a shorter ESC pulse |
| Actuators.FailsafePulses | Rx16-1.py:36-39 | `failsafe()` drives the servo to 944 us and the motor to 1500 us |
| ControlFrame.Checksum | Rx16-1.py:73-76 | the checksum is a byte |
| ControlFrame.ChecksumOfBytes | Rx16-1.py:73-76 | the checksum of unpacked fields is the sum of the five header bytes modulo 256 |
| ControlFrame.Unpack | Rx16-1.py:116 | both `H` fields decode into [0, 65535] |
| ControlFrame.ParseFrame | Rx16-1.py:115-118 | a frame is accepted exactly when it has 8 bytes, byte 0 is 0xA5 and byte 5 is the byte sum of bytes 0-4; an accepted frame carries the two little-endian fields; a wrong length is BadLength, a wrong sync byte BadSync, and any other rejection ChecksumMismatch |
| ControlFrame.PaddingIgnored | Rx16-1.py:115-118 | two 8-byte frames with the same first six bytes are judged alike |
| ControlFrame.CorruptedChecksumRejected | Rx16-1.py:118 | changing the checksum byte of an accepted frame makes it a ChecksumMismatch |
| ControlFrame.Pack | Rx16-1.py:116 | the transmitter's `struct.pack("<BHHB", ...)` (lines 49-64 of `Tx control.py`), the layout the receiver unpacks, gives 6 bytes |
| ControlFrame.PackParse | Rx16-1.py:115-118 | every command the transmitter can pack, with any 2 bytes of padding, is accepted and decodes to itself |
| ControlFrame.ParsePack | Rx16-1.py:115-118 | every accepted frame is a packed command followed by padding |
| Text.StripLeft | Rx2-15-1.py:19 | drops exactly the leading whitespace |
| Text.StripRight | Rx2-15-1.py:19 | drops exactly the trailing whitespace |
| Text.Strip | Rx2-15-1.py:19 | the stripped text neither starts nor ends with whitespace |
| Text.StripFramed | Rx2-15-1.py:19 | a text framed by non-space characters is unchanged by `strip()`, and stripping it followed by a line feed gives it back |
| Text.Split | Rx2-15-1.py:24 | `split(",")` gives one more field than there are commas, no field holds a comma, and joining the fields back gives the text |
| Text.SplitJoin | Rx2-15-1.py:24 | splitting a comma-join of comma-free fields gives the fields back |
| Text.NatText | Rx16-1.py:142 | the decimal rendering of a natural number is a non-empty run of digits |
| Text.IntText | Rx16-1.py:142 | `f"{x}"` is non-empty, has no surrounding whitespace and no comma |
| Text.DigitsValueOfNatText | Rx2-15-1.py:27-30 | reading the digits of a rendered natural number gives the number |
| Text.ParseNumeral | Rx2-15-1.py:27-30 | once stripped, `int()` accepts exactly a non-empty run of digits, optionally after one `-` or `+`; only a leading `-` gives a negative value |
| Text.ParseInt | Rx2-15-1.py:27-30 | `int(s)` fails on blank text, and a negative result comes from text whose first non-space character is `-` |
| Text.ParseIntText | Rx2-15-1.py:27-30 | `int(str(x)) == x` for every integer, negative ones included |
| TelemetryLine.CentiText | Rx16-1.py:142 | `f"{v:.2f}"` starts and ends with a digit and holds no comma |
| TelemetryLine.Format | Rx16-1.py:142 | the record line is ASCII |
| TelemetryLine.FormatJoinsFields | Rx16-1.py:142 | the record is its five fields joined by commas, then a line feed |
| TelemetryLine.Encode | Rx16-1.py:143 | writing an ASCII string puts one byte per character on the wire |
| TelemetryLine.DecodeAscii | Rx2-15-1.py:18-21 | a decoded line has one character per byte and is ASCII |
| TelemetryLine.DecodeEncode | Rx2-15-1.py:18-21 | decoding the bytes of an ASCII string gives the string back |
| TelemetryLine.ReadFields | Rx2-15-1.py:24-31 | a reading is produced exactly when there are five fields and `int()` accepts each of the first four; its four integers are `int()` of those fields, in order, and it keeps the fifth as its battery text |
| TelemetryLine.HandleLine | Rx2-15-1.py:13-40 | an empty line gives nothing; a line gives a reading exactly when it decodes and its stripped, comma-split fields are read; any other line is dropped; the reading's integers are `int()` of the first four fields, its stripped text holds exactly four commas, and the battery text has no comma |
| TelemetryLine.ReadBack | Rx2-15-1.py:19-30 | any line of five comma-free fields, framed by non-spaces and ending in a line feed, is read field by field |
| TelemetryLine.RoundTrip | Rx2-15-1.py:13-31 | every record the control receiver writes is read back by the telemetry board as the same four integers, in order, with the battery text unchanged |
| Receiver.Boot | Rx16-1.py:9-103 | start-up has the radio initialised once, the outputs at 944 / 1500 us (in range), no telemetry written and the link timestamp at boot time |
| Receiver.Receive | Rx16-1.py:110-136 | step 1 changes nothing on a rejected or missing frame; on a valid one it sets the link timestamp to now and the outputs equal to the pulse caches; outputs afterwards are in range or unchanged; it never touches the UART, battery or radio counter |
| Receiver.Relay | Rx16-1.py:139-146 | step 2 changes only the telemetry log and its timestamp; the log grows by at most one line, and the timestamp moves only to now and only after more than 20 ms |
| Receiver.SampleBattery | Rx16-1.py:149-152 | step 3 changes only the battery cache and its timestamp, and only to the sample and now after more than 1000 ms |
| Receiver.CheckLink | Rx16-1.py:155-164 | step 4 changes nothing while the link is live; when it fires it reinitialises the radio once, keeps outputs in range, and leaves the link timestamp, pulse caches, log and battery alone |
| Receiver.Next | Rx16-1.py:106-166 | one pass reinitialises the radio at most once, appends at most one telemetry line, and moves the link timestamp only to now |
| Receiver.Run | Rx16-1.py:106-166 | n passes reinitialise the radio at most n times and append at most n telemetry lines to the log |
| Receiver.Accepted | Rx16-1.py:110-118 | a radio event yields a command exactly when it is a frame `ParseFrame` accepts, and then it is that frame's command |
| Receiver.RejectedFrameKeepsCaches | Rx16-1.py:110-164 | a rejected or missing frame leaves the pulse caches and the link timestamp alone; only the failsafe may reset angle and level; and while the link is live such a pass leaves both outputs, the radio, angle and level unchanged |
| Receiver.AcceptedFrameDrivesOutputs | Rx16-1.py:115-127 | a valid frame stores the raw angle and level, sets both outputs and pulse caches to their conversions, and refreshes the link timestamp, so the failsafe stays quiet in that pass |
| Receiver.RelayWritesRecord | Rx16-1.py:139-146 | a record is written exactly when more than 20 ms have passed and the write succeeds; it carries the values after step 1, the telemetry board reads them back, and the UART timestamp moves only on success |
| Receiver.BatteryRefresh | Rx16-1.py:149-152 | the battery cache and its timestamp change exactly when more than 1000 ms have passed |
| Receiver.FailsafeFires | Rx16-1.py:155-164 | the failsafe fires exactly when more than 2000 ms have passed since the last valid frame; it drives 944 / 1500 us, reinitialises the radio, resets angle and level to 40 / 50 and leaves the pulse caches and link timestamp alone |
| Receiver.NextKeepsOutputsSafe | Rx16-1.py:106-166 | one pass keeps the servo output in [500, 1388] and the motor output in [1000, 2000] |
| Receiver.RunKeepsOutputsSafe | Rx16-1.py:106-166 | any number of passes keeps the outputs in those ranges |
| Receiver.BootOutputsSafe | Rx16-1.py:65-106 | from boot on, whatever the radio delivers, the outputs stay in range |
| Receiver.FailsafeRepeats | Rx16-1.py:155-164 | while the link stays lost and no valid frame comes, every pass reinitialises the radio and drives neutral, and the link timestamp never moves |
| Receiver.NoFailsafeWhileFresh | Rx16-1.py:127-155 | over any run in which every pass either brings a valid frame or comes within 2000 ms of the last valid frame before it, the radio is never reinitialised |
| Receiver.FirstPassWithoutFrame | Rx16-1.py:65-69 | a first pass without a valid frame more than 2000 ms after the boot clock reading runs the failsafe: the radio is initialised a second time and the outputs are 944 / 1500 us |
| Receiver.ControlLoop.constructor | Rx16-1.py:65-103 | start-up: the radio initialised once, `failsafe()` applied, the caches at 40 / 50 / 1500 / 1500, outputs in range |
| Receiver.ControlLoop.Step | Rx16-1.py:106-166 | one pass updates the globals exactly as `Next`, reports whether the failsafe branch ran, and keeps the outputs in range |
| Receiver.ControlLoop.ReceiveAndControl | Rx16-1.py:110-136 | priority 1 updates the globals exactly as `Receive` |
| Receiver.ControlLoop.RelayTelemetry | Rx16-1.py:139-146 | priority 2 updates the globals exactly as `Relay` |
| Receiver.ControlLoop.RefreshBattery | Rx16-1.py:149-152 | priority 3 updates the globals exactly as `SampleBattery` |
| Receiver.ControlLoop.CheckFailsafe | Rx16-1.py:155-164 | priority 4 updates the globals exactly as `CheckLink`, and reports whether the link was lost |
| SensorFrame.Unsigned | RECEPTORR.py:180 | an unsigned little-endian value of n bytes is below 256^n |
| SensorFrame.Signed | RECEPTORR.py:180 | a two's-complement value of n bytes lies in [-256^n/2, 256^n/2) |
| SensorFrame.UnsignedEncode | RECEPTORR.py:180 | decoding an unsigned encoding gives the value back |
| SensorFrame.EncodeUnsignedOf | RECEPTORR.py:180 | encoding a decoded unsigned value gives the bytes back |
| SensorFrame.SignedEncode | RECEPTORR.py:180 | decoding a signed encoding gives the value back |
| SensorFrame.EncodeSignedOf | RECEPTORR.py:180 | encoding a decoded signed value gives the bytes back |
| SensorFrame.DecodeFields | RECEPTORR.py:173-180 | reading a run of signed fields gives one value per width, each fitting its width |
| SensorFrame.DecodeEncodeFields | RECEPTORR.py:173-180 | unpacking packed values gives them back |
| SensorFrame.EncodeDecodeFields | RECEPTORR.py:173-180 | packing unpacked values gives the bytes back |
| SensorFrame.DecodeFieldAt | RECEPTORR.py:173-180 | field k is read from the bytes right after the first k fields |
| SensorFrame.Layout | RECEPTORR.py:171-180 | `<ii12h` is 14 fields, two of 4 bytes then twelve of 2, 32 bytes in all |
| SensorFrame.LayoutOffset | RECEPTORR.py:171-180 | field k of `<ii12h` starts at byte 4k for k < 2 and 8 + 2(k-2) after |
| SensorFrame.ValuesOfFromValues | RECEPTORR.py:173-180 | the 14 values are bound to the frame's fields in wire order |
| SensorFrame.InRangeFits | RECEPTORR.py:173-180 | a frame is in range (lat/lon `i32`, the rest `i16`) exactly when every field fits its `<ii12h` width |
| SensorFrame.FitsInRange | RECEPTORR.py:173-180 | a frame whose every field fits its width is in range |
| SensorFrame.FitsWidth | RECEPTORR.py:171 | fitting 4 bytes is being an `i32`, fitting 2 bytes being an `i16` |
| SensorFrame.Unpack | RECEPTORR.py:170-185 | the unpack succeeds exactly on buffers of at least 32 bytes |
| SensorFrame.UnpackValues | RECEPTORR.py:173-180 | the frame's fields, in wire order, are the values the layout decodes |
| SensorFrame.UnpackInRange | RECEPTORR.py:173-185 | any 32 bytes decode to an in-range frame, so the `except` branch never runs on an accepted payload |
| SensorFrame.DecodedAt | RECEPTORR.py:173-180 | field k of a decoded frame is the signed value of the `Width(k)` bytes at `Offset(k)` |
| SensorFrame.Pack | RECEPTORR.py:171 | packing an in-range frame gives 32 bytes |
| SensorFrame.UnpackPack | RECEPTORR.py:173-180 | unpacking a packed in-range frame gives the frame back |
| SensorFrame.PackUnpack | RECEPTORR.py:170-180 | every 32-byte payload unpacks to an in-range frame that packs back to the same bytes |
| SensorReceiver.Boot | RECEPTORR.py:155-157 | start-up has counter 0, nothing forwarded and the forwarding clock at boot time |
| SensorReceiver.Accepted | RECEPTORR.py:170 | an accepted payload always unpacks, so the `except` branch is never taken |
| SensorReceiver.Handle | RECEPTORR.py:221-248 | an accepted frame raises the counter by one; it is forwarded (appended with its time) only when due and the write succeeds; the timestamp moves only to now and only when due |
| SensorReceiver.Next | RECEPTORR.py:159-250 | a pass either changes nothing or, with a radio and an accepted payload, raises the counter by one; the forwards only grow, never by more than the counter |
| SensorReceiver.Run | RECEPTORR.py:159-250 | n passes raise the counter by at most n, and the forwards only grow |
| SensorReceiver.RejectedChangesNothing | RECEPTORR.py:162-170 | nothing pending, a read error or a payload that is empty or not 32 bytes long changes nothing |
| SensorReceiver.AcceptedCounts | RECEPTORR.py:170-248 | an accepted payload raises the counter by exactly one, forwarded or not |
| SensorReceiver.ForwardWhenDue | RECEPTORR.py:221-239 | whenever 500 ms or more have passed since the last forward, an accepted frame whose write succeeds is forwarded and the timestamp moves to now |
| SensorReceiver.ForwardAtInterval | RECEPTORR.py:221-239 | the 500 ms gate is inclusive: exactly 500 ms after the last forward, a frame is forwarded and the timestamp moves |
| SensorReceiver.NoForwardWhenNotDue | RECEPTORR.py:221-241 | before 500 ms, or when the UART write fails, nothing is forwarded and the timestamp stays |
| SensorReceiver.NoRadioNoChange | RECEPTORR.py:148-162 | without a radio, any number of passes changes nothing |
| SensorReceiver.RunCounter | RECEPTORR.py:159-248 | over a run the counter rises by exactly the number of accepted payloads |
| SensorReceiver.RunForwardsAtMostCounted | RECEPTORR.py:221-248 | over a run the forwards grow by at most what the counter grows by |
| SensorReceiver.HandleKeepsSpaced | RECEPTORR.py:221-239 | handling a frame keeps the forwards at least 500 ms apart, the last one at `last_send_time` |
| SensorReceiver.NextKeepsSpaced | RECEPTORR.py:159-248 | one pass keeps the forwards spaced |
| SensorReceiver.RunKeepsSpaced | RECEPTORR.py:159-248 | any run keeps the forwards spaced: the UART sees at most one record per 500 ms |
| SensorReceiver.BootSpaced | RECEPTORR.py:155-157 | at start-up the counter is 0 and the (empty) forwards are spaced |
| SensorReceiver.SensorLink.constructor | RECEPTORR.py:148-157 | start-up state: counter 0, forwarding clock at boot time |
| SensorReceiver.SensorLink.Step | RECEPTORR.py:159-250 | one pass updates the globals exactly as `Next` and keeps the forwards spaced |
| SensorReceiver.SensorLink.HandleFrame | RECEPTORR.py:221-248 | the rate-limited forward and the counter update the globals exactly as `Handle` |
| LapSimulator.GenLapTime | RECEPTORR.py:80-88 | the first lap is in [25000, 26023] ms; each later lap is the previous one plus 0..4095 ms |
| LapSimulator.FirstLapReachable | RECEPTORR.py:82-85 | a first-lap time is produced by some 10-bit draw exactly when it is in [25000, 26023] |
| LapSimulator.NextLapReachable | RECEPTORR.py:86-88 | a later lap time is produced by some 12-bit draw exactly when it is 0..4095 ms above the previous one |
| LapSimulator.LastTime | RECEPTORR.py:96-101 | `last_lap_ms` is None exactly before the first lap |
| LapSimulator.Laps | RECEPTORR.py:98-104 | n passes send n laps |
| LapSimulator.SnocProgressive | RECEPTORR.py:98-104 | appending the next generated lap keeps the laps progressive |
| LapSimulator.LapsProgressive | RECEPTORR.py:91-106 | every run sends laps numbered 1, 2, 3, ..., the first in [25000, 26023], never decreasing and rising by at most 4095 ms per lap |
| LapSimulator.Envio | RECEPTORR.py:91-106 | the loop sends exactly `Laps(draws)`, and what it sends is progressive |

## Left out

- Radio hardware, SPI and the nRF24L01 driver are left out. A pass receives what the radio delivered as a parameter, and a radio (re)initialisation in the control receiver is counted (`radioInits`), not performed.
- Pin, PWM and ADC access are left out. The PWM outputs are fields holding the pulse width last written. `leer_bateria` is replaced by a battery sample parameter, in hundredths of a volt, because floating point is not modelled.
- The telemetry record's battery field is rendered from hundredths of a volt with `CentiText`. Rounding of a float voltage to two decimals is not modelled.
- Console output (`print`), the LED and the sleeps are left out: they change no state the loops read.
- The sensor receiver's `linea_txt` and `trama_web` text and the float unit conversions (lines 187-233) are left out, because floating-point formatting is not modelled. A forward records the decoded frame and its time instead of the formatted string.
- WiFi (`conectar_wifi`), `send_lap` and `urequests` are left out as network I/O. `envio` is modelled with `send_lap` as appending to the returned sequence.
- In `RECEPTORR.py`, `urandom` and `urequests` are never imported, `connect_wifi` is not defined and `envio` is never called. The model treats the random source as a parameter and assumes those names resolve.
- `Receiver.ControlLoop.Step`: the tick counter's wrap-around (`utime.ticks_diff` modulo 2^30) is not modelled; clock readings are unbounded integers compared by plain subtraction. `SensorReceiver.SensorLink.Step` makes the same simplification.
- If the first `iniciar_nrf()` in the control receiver fails, `nrf` is unbound and the loop would raise a `NameError`. The model assumes the boot-time initialisation succeeds.
- In the sensor receiver, a missing radio makes every pass raise inside the outer `try`, which is caught. The model keeps the state unchanged (`NoRadioNoChange`); the one-second sleep in the handler is left out.
- `TelemetryLine.HandleLine`: the fifth field is kept as text. `float(datos[4])` is not checked, so a line with four integers and a malformed fifth field yields a reading in the model but is dropped by the telemetry board.
- `TelemetryLine.DecodeAscii`: only ASCII lines are decoded. A line holding valid multi-byte UTF-8 is treated as undecodable. The control receiver only writes ASCII, so the round trip is unaffected.
- `Text.ParseInt`: `int()` accepting underscores between digits (`"1_000"`) and non-ASCII digits is not modelled; such fields are rejected.
- Each main loop runs forever; the model covers any finite sequence of passes (`Run`, `Envio` over a finite sequence of draws).
- The transmitter's main loop (`Tx control.py`: joystick sampling, `fallos_consecutivos` retry and reinitialisation) is not part of this model. Only its `struct.pack` is used, as the inverse of the receiver's decode.
- `SERVICIO_TELEMETRIA.py` (the web dashboard) is not part of this model.
- Exceptions from the radio's `recv` in the control receiver are modelled as an event that changes nothing. `nrf.reg_write(0x07, 0x70)` after a receive is a hardware side effect and is left out.
