/** The serial telemetry record the control receiver writes every 20 ms and
    the telemetry board reads back: `angle,level,servoPulse,motorPulse,vbat\n`,
    four decimal integers and the battery voltage with two decimals. */
module TelemetryLine {
  import opened Common
  import opened Text

  /** `f"{v:.2f}"` for a battery reading of `centi` hundredths of a volt. */
  function CentiText(centi: nat): (s: string)
    ensures |s| >= 4 && IsDigit(s[0]) && IsDigit(s[|s| - 1]) && ',' !in s
  {
    NatText(centi / 100) + "." + [DigitChar((centi / 10) % 10), DigitChar(centi % 10)]
  }

  /** The record as the control receiver formats it. */
  function Format(angle: int, level: int, servo: int, motor: int, vbatCenti: nat): (line: string)
    ensures IsAscii(line)
  {
    IntTextIsAscii(angle);
    IntTextIsAscii(level);
    IntTextIsAscii(servo);
    IntTextIsAscii(motor);
    CentiTextIsAscii(vbatCenti);
    AsciiRecord(IntText(angle), IntText(level), IntText(servo), IntText(motor), CentiText(vbatCenti));
    IntText(angle) + "," + IntText(level) + "," + IntText(servo) + ","
      + IntText(motor) + "," + CentiText(vbatCenti) + "\n"
  }

  predicate IsAscii(s: string)
  {
    forall i :: 0 <= i < |s| ==> s[i] as int < 128
  }

  /** What `uart.write(str)` puts on the wire for an ASCII string. */
  function Encode(s: string): (b: seq<Byte>)
    requires IsAscii(s)
    ensures |b| == |s|
  {
    seq(|s|, i requires 0 <= i < |s| => s[i] as int)
  }

  /** `bytes.decode()` restricted to ASCII: a byte of 0x80 or more makes the
      line undecodable. */
  function DecodeAscii(b: seq<Byte>): (r: Option<string>)
    ensures r.Some? ==> |r.value| == |b| && IsAscii(r.value)
  {
    if forall i :: 0 <= i < |b| ==> b[i] < 128 then
      Some(seq(|b|, i requires 0 <= i < |b| => (b[i] as int) as char))
    else
      None
  }

  lemma DecodeEncode(s: string)
    requires IsAscii(s)
    ensures DecodeAscii(Encode(s)) == Some(s)
  {
    var b := Encode(s);
    assert forall i :: 0 <= i < |b| ==> b[i] < 128;
    var t := seq(|b|, i requires 0 <= i < |b| => (b[i] as int) as char);
    assert forall i :: 0 <= i < |b| ==> t[i] == s[i];
    assert t == s;
  }

  /** What the telemetry board prints from one accepted line; the battery
      field is kept as the text it arrived as. */
  datatype Reading = Reading(angle: int, level: int, servoPulse: int, motorPulse: int, vbatText: string)

  /** The fields of a stripped line make a reading only when there are
      exactly five and the first four are integers; otherwise `int()` raises
      (or the count check fails) and the line is dropped. */
  function ReadFields(fields: seq<string>): (r: Option<Reading>)
    ensures r.Some? <==> && |fields| == 5
                         && ParseInt(fields[0]).Some? && ParseInt(fields[1]).Some?
                         && ParseInt(fields[2]).Some? && ParseInt(fields[3]).Some?
    ensures r.Some? ==> && ParseInt(fields[0]) == Some(r.value.angle)
                        && ParseInt(fields[1]) == Some(r.value.level)
                        && ParseInt(fields[2]) == Some(r.value.servoPulse)
                        && ParseInt(fields[3]) == Some(r.value.motorPulse)
                        && r.value.vbatText == fields[4]
  {
    if |fields| != 5 then None
    else
      var angle, level, servo, motor :=
        ParseInt(fields[0]), ParseInt(fields[1]), ParseInt(fields[2]), ParseInt(fields[3]);
      if angle.None? || level.None? || servo.None? || motor.None? then None
      else Some(Reading(angle.value, level.value, servo.value, motor.value, fields[4]))
  }

  /** One pass of the telemetry board's loop over a line read from the UART:
      empty lines and undecodable lines are skipped, the text is stripped and
      split on commas, and the fields are read. Every failure is silent (None). */
  function HandleLine(raw: seq<Byte>): (r: Option<Reading>)
    ensures raw == [] ==> r == None
    ensures r.Some? <==> raw != [] && DecodeAscii(raw).Some?
                         && ReadFields(Split(Strip(DecodeAscii(raw).value), ',')).Some?
    ensures r.Some? ==> DecodeAscii(raw).Some? && Count(Strip(DecodeAscii(raw).value), ',') == 4
    ensures r.Some? ==> var fields := Split(Strip(DecodeAscii(raw).value), ',');
                        && ParseInt(fields[0]) == Some(r.value.angle)
                        && ParseInt(fields[1]) == Some(r.value.level)
                        && ParseInt(fields[2]) == Some(r.value.servoPulse)
                        && ParseInt(fields[3]) == Some(r.value.motorPulse)
                        && r.value.vbatText == fields[4]
    ensures r.Some? ==> ',' !in r.value.vbatText
  {
    if raw == [] then None
    else match DecodeAscii(raw)
      case None => None
      case Some(text) => ReadFields(Split(Strip(text), ','))
  }

  lemma IntTextIsAscii(x: int)
    ensures IsAscii(IntText(x))
  {
  }

  lemma CentiTextIsAscii(centi: nat)
    ensures IsAscii(CentiText(centi))
  {
    var whole := NatText(centi / 100);
    assert AllDigits(whole);
    var s := CentiText(centi);
    forall i | 0 <= i < |s| ensures s[i] as int < 128 {
      if i < |whole| {
        assert s[i] == whole[i];
      }
    }
  }

  /** Joining ASCII fields with commas and a newline gives an ASCII line. */
  lemma AsciiRecord(a: string, l: string, sv: string, m: string, v: string)
    requires IsAscii(a) && IsAscii(l) && IsAscii(sv) && IsAscii(m) && IsAscii(v)
    ensures IsAscii(a + "," + l + "," + sv + "," + m + "," + v + "\n")
  {
  }

  /** The five fields of a record, before they are joined with commas. */
  function RecordFields(angle: int, level: int, servo: int, motor: int, vbatCenti: nat): (fields: seq<string>)
    ensures |fields| == 5
  {
    [IntText(angle), IntText(level), IntText(servo), IntText(motor), CentiText(vbatCenti)]
  }

  lemma FormatJoinsFields(angle: int, level: int, servo: int, motor: int, vbatCenti: nat)
    ensures Format(angle, level, servo, motor, vbatCenti)
              == Join(RecordFields(angle, level, servo, motor, vbatCenti), ',') + "\n"
  {
    Join5(IntText(angle), IntText(level), IntText(servo), IntText(motor), CentiText(vbatCenti));
  }

  lemma Join5(a: string, l: string, sv: string, m: string, v: string)
    ensures Join([a, l, sv, m, v], ',') == a + "," + l + "," + sv + "," + m + "," + v
  {
    var fields := [a, l, sv, m, v];
    assert fields[1..] == [l, sv, m, v] && [l, sv, m, v][1..] == [sv, m, v];
    assert [sv, m, v][1..] == [m, v] && [m, v][1..] == [v];
    assert Join([m, v], ',') == m + [','] + v;
    assert Join([sv, m, v], ',') == sv + [','] + (m + [','] + v);
    assert Join([l, sv, m, v], ',') == l + [','] + (sv + [','] + (m + [','] + v));
  }

  /** Any line made of five comma-free fields, framed by non-space
      characters and ending in a line feed, is read field by field. */
  lemma ReadBack(fields: seq<string>, line: string)
    requires |fields| == 5
    requires forall i :: 0 <= i < 5 ==> fields[i] != [] && ',' !in fields[i]
    requires !IsSpace(fields[0][0]) && !IsSpace(fields[4][|fields[4]| - 1])
    requires line == Join(fields, ',') + "\n" && IsAscii(line)
    ensures HandleLine(Encode(line)) == ReadFields(fields)
  {
    var body := Join(fields, ',');
    assert DecodeAscii(Encode(line)) == Some(line) by { DecodeEncode(line); }
    assert Strip(line) == body by {
      JoinEnds(fields, ',');
      StripFramed(body);
    }
    assert Split(body, ',') == fields by { SplitJoin(fields, ','); }
  }

  lemma LineOfRecord(angle: int, level: int, servo: int, motor: int, vbatCenti: nat)
    ensures HandleLine(Encode(Format(angle, level, servo, motor, vbatCenti)))
              == ReadFields(RecordFields(angle, level, servo, motor, vbatCenti))
  {
    FormatJoinsFields(angle, level, servo, motor, vbatCenti);
    ReadBack(RecordFields(angle, level, servo, motor, vbatCenti), Format(angle, level, servo, motor, vbatCenti));
  }

  lemma FieldsOfRecord(angle: int, level: int, servo: int, motor: int, vbatCenti: nat)
    ensures ReadFields(RecordFields(angle, level, servo, motor, vbatCenti))
              == Some(Reading(angle, level, servo, motor, CentiText(vbatCenti)))
  {
    ParseIntText(angle);
    ParseIntText(level);
    ParseIntText(servo);
    ParseIntText(motor);
    ReadFieldsOf(IntText(angle), IntText(level), IntText(servo), IntText(motor), CentiText(vbatCenti),
                 angle, level, servo, motor);
  }

  lemma ReadFieldsOf(a: string, l: string, sv: string, m: string, v: string,
                     angle: int, level: int, servo: int, motor: int)
    requires ParseInt(a) == Some(angle) && ParseInt(l) == Some(level)
    requires ParseInt(sv) == Some(servo) && ParseInt(m) == Some(motor)
    ensures ReadFields([a, l, sv, m, v]) == Some(Reading(angle, level, servo, motor, v))
  {
  }

  /** A record written by the control receiver is read back by the telemetry
      board as the same four integers, in the same order, with the battery
      text unchanged. */
  lemma RoundTrip(angle: int, level: int, servo: int, motor: int, vbatCenti: nat)
    ensures HandleLine(Encode(Format(angle, level, servo, motor, vbatCenti)))
              == Some(Reading(angle, level, servo, motor, CentiText(vbatCenti)))
  {
    LineOfRecord(angle, level, servo, motor, vbatCenti);
    FieldsOfRecord(angle, level, servo, motor, vbatCenti);
  }
}
