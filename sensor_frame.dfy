/** The 32-byte sensor frame received by the radio-to-WiFi board, unpacked
    with the layout `<ii12h`: two signed little-endian 32-bit values (latitude
    and longitude) and twelve signed little-endian 16-bit values. The framing
    has no sync byte and no checksum: any 32 bytes decode. */
module SensorFrame {
  import opened Common

  const PayloadSize := 32

  function Pow256(n: nat): (p: int)
    ensures p >= 1
  {
    if n == 0 then 1 else 256 * Pow256(n - 1)
  }

  /** Half the range of `n` bytes: the smallest value a signed `n`-byte
      field cannot hold. */
  function Half(n: nat): (h: int)
    requires n >= 1
    ensures h >= 1 && Pow256(n) == 2 * h
  {
    128 * Pow256(n - 1)
  }

  /** Unsigned little-endian value of a byte string. */
  function Unsigned(b: seq<Byte>): (v: nat)
    ensures v < Pow256(|b|)
  {
    if b == [] then 0 else b[0] + 256 * Unsigned(b[1..])
  }

  /** Two's-complement value of a byte string, as `struct` reads `i` / `h`. */
  function Signed(b: seq<Byte>): (v: int)
    requires |b| >= 1
    ensures -Half(|b|) <= v < Half(|b|)
  {
    var u := Unsigned(b);
    if u >= Half(|b|) then u - Pow256(|b|) else u
  }

  /** `n` little-endian bytes of an unsigned value. */
  function EncodeUnsigned(v: nat, n: nat): (b: seq<Byte>)
    requires v < Pow256(n)
    ensures |b| == n
  {
    if n == 0 then [] else [v % 256] + EncodeUnsigned(v / 256, n - 1)
  }

  /** `n` little-endian two's-complement bytes of a signed value. */
  function EncodeSigned(v: int, n: nat): (b: seq<Byte>)
    requires n >= 1 && -Half(n) <= v < Half(n)
    ensures |b| == n
  {
    EncodeUnsigned(if v < 0 then v + Pow256(n) else v, n)
  }

  lemma {:induction false} UnsignedEncode(v: nat, n: nat)
    requires v < Pow256(n)
    ensures Unsigned(EncodeUnsigned(v, n)) == v
  {
    if n > 0 {
      UnsignedEncode(v / 256, n - 1);
      var b := EncodeUnsigned(v, n);
      assert b[1..] == EncodeUnsigned(v / 256, n - 1);
    }
  }

  lemma {:induction false} EncodeUnsignedOf(b: seq<Byte>)
    ensures EncodeUnsigned(Unsigned(b), |b|) == b
  {
    if b != [] {
      var v := Unsigned(b);
      assert v % 256 == b[0] && v / 256 == Unsigned(b[1..]);
      EncodeUnsignedOf(b[1..]);
    }
  }

  /** Decoding a signed encoding gives the value back. */
  lemma SignedEncode(v: int, n: nat)
    requires n >= 1 && -Half(n) <= v < Half(n)
    ensures Signed(EncodeSigned(v, n)) == v
  {
    UnsignedEncode(if v < 0 then v + Pow256(n) else v, n);
  }

  /** Encoding a decoded signed value gives the bytes back. */
  lemma EncodeSignedOf(b: seq<Byte>)
    requires |b| >= 1
    ensures EncodeSigned(Signed(b), |b|) == b
  {
    EncodeUnsignedOf(b);
  }

  lemma Widths()
    ensures Pow256(2) == 65536 && Pow256(4) == 4294967296
  {
    assert Pow256(1) == 256;
    assert Pow256(3) == 16777216;
  }

  /** A signed value fits in `w` bytes. */
  predicate Fits(v: int, w: nat)
  {
    w >= 1 && -Half(w) <= v < Half(w)
  }

  /** Every width is at least one byte. */
  predicate AllPositive(widths: seq<nat>)
  {
    widths == [] || (widths[0] >= 1 && AllPositive(widths[1..]))
  }

  function Total(widths: seq<nat>): nat
  {
    if widths == [] then 0 else widths[0] + Total(widths[1..])
  }

  /** `struct.unpack` for a run of little-endian signed fields of the given
      byte widths, read one after the other from the start of `b`. */
  function DecodeFields(b: seq<Byte>, widths: seq<nat>): (vs: seq<int>)
    requires |b| >= Total(widths)
    requires AllPositive(widths)
    ensures |vs| == |widths|
    ensures forall i :: 0 <= i < |vs| ==> Fits(vs[i], widths[i])
    decreases |widths|
  {
    if widths == [] then []
    else [Signed(b[..widths[0]])] + DecodeFields(b[widths[0]..], widths[1..])
  }

  /** `struct.pack` for the same run of fields. */
  function EncodeFields(vs: seq<int>, widths: seq<nat>): (b: seq<Byte>)
    requires |vs| == |widths|
    requires forall i :: 0 <= i < |vs| ==> Fits(vs[i], widths[i])
    ensures |b| == Total(widths)
    decreases |widths|
  {
    if widths == [] then []
    else
      assert Fits(vs[0], widths[0]);
      EncodeSigned(vs[0], widths[0]) + EncodeFields(vs[1..], widths[1..])
  }

  lemma {:induction false} DecodeEncodeFields(vs: seq<int>, widths: seq<nat>)
    requires |vs| == |widths| && AllPositive(widths)
    requires forall i :: 0 <= i < |vs| ==> Fits(vs[i], widths[i])
    ensures DecodeFields(EncodeFields(vs, widths), widths) == vs
    decreases |widths|
  {
    if widths != [] {
      var b := EncodeFields(vs, widths);
      var head := EncodeSigned(vs[0], widths[0]);
      assert b[..widths[0]] == head && b[widths[0]..] == EncodeFields(vs[1..], widths[1..]);
      SignedEncode(vs[0], widths[0]);
      DecodeEncodeFields(vs[1..], widths[1..]);
    }
  }

  lemma {:induction false} EncodeDecodeFields(b: seq<Byte>, widths: seq<nat>)
    requires |b| == Total(widths)
    requires AllPositive(widths)
    ensures EncodeFields(DecodeFields(b, widths), widths) == b
    decreases |widths|
  {
    if widths != [] {
      var vs := DecodeFields(b, widths);
      EncodeSignedOf(b[..widths[0]]);
      EncodeDecodeFields(b[widths[0]..], widths[1..]);
      assert vs[1..] == DecodeFields(b[widths[0]..], widths[1..]);
      assert b == b[..widths[0]] + b[widths[0]..];
    }
  }

  /** The `k`-th field is read from the bytes right after the first `k`
      fields. */
  lemma {:induction false} DecodeFieldAt(b: seq<Byte>, widths: seq<nat>, k: nat)
    requires |b| >= Total(widths)
    requires AllPositive(widths)
    requires k < |widths|
    ensures Total(widths[..k]) + widths[k] <= |b|
    ensures DecodeFields(b, widths)[k] == Signed(b[Total(widths[..k])..Total(widths[..k]) + widths[k]])
    decreases k
  {
    if k == 0 {
      assert widths[..0] == [];
    } else {
      var rest := b[widths[0]..];
      DecodeFieldAt(rest, widths[1..], k - 1);
      assert widths[..k][1..] == widths[1..][..k - 1];
      var off := Total(widths[..k]);
      assert off == widths[0] + Total(widths[1..][..k - 1]);
      assert rest[off - widths[0]..off - widths[0] + widths[k]] == b[off..off + widths[k]];
    }
  }

  /** The byte widths of `<ii12h`. */
  function Layout(): (ws: seq<nat>)
    ensures |ws| == 14
    ensures forall k :: 0 <= k < |ws| ==> ws[k] == Width(k)
    ensures Total(ws) == PayloadSize && AllPositive(ws)
  {
    var ws := seq(14, k => Width(k));
    PositiveFrom(ws);
    PrefixTotal(ws, 14);
    assert ws[..14] == ws;
    ws
  }

  lemma {:induction false} PositiveFrom(ws: seq<nat>)
    requires forall k :: 0 <= k < |ws| ==> ws[k] >= 1
    ensures AllPositive(ws)
    decreases |ws|
  {
    if ws != [] {
      PositiveFrom(ws[1..]);
    }
  }

  /** The first `k` widths of the layout add up to the offset of field `k`. */
  lemma {:induction false} PrefixTotal(ws: seq<nat>, k: nat)
    requires k <= |ws| && forall i :: 0 <= i < |ws| ==> ws[i] == Width(i)
    ensures Total(ws[..k]) == Offset(k)
    decreases k
  {
    if k > 0 {
      PrefixTotal(ws, k - 1);
      TotalSnoc(ws[..k - 1], ws[k - 1]);
      assert ws[..k] == ws[..k - 1] + [ws[k - 1]];
    }
  }


  /** The fourteen values of one frame, in wire order. */
  datatype SensorFrame = SensorFrame(
    lat: int, lon: int,
    alt: int, spd: int,
    ax: int, ay: int, az: int,
    gx: int, gy: int, lineState: int,
    vbat: int, temp: int,
    pwmServo: int, pwmMotor: int)

  function Values(f: SensorFrame): (vs: seq<int>)
    ensures |vs| == |Layout()|
  {
    [f.lat, f.lon, f.alt, f.spd, f.ax, f.ay, f.az, f.gx, f.gy, f.lineState, f.vbat, f.temp,
     f.pwmServo, f.pwmMotor]
  }

  function FromValues(vs: seq<int>): SensorFrame
    requires |vs| == |Layout()|
  {
    SensorFrame(vs[0], vs[1], vs[2], vs[3], vs[4], vs[5], vs[6], vs[7], vs[8], vs[9], vs[10],
                vs[11], vs[12], vs[13])
  }

  lemma ValuesOfFromValues(vs: seq<int>)
    requires |vs| == |Layout()|
    ensures Values(FromValues(vs)) == vs
  {
  }


  predicate IsI16(v: int) { -32768 <= v <= 32767 }
  predicate IsI32(v: int) { -2147483648 <= v <= 2147483647 }

  /** The values a frame can carry: lat and lon are signed 32-bit, the
      twelve others signed 16-bit. */
  predicate InRange(f: SensorFrame)
  {
    && IsI32(f.lat) && IsI32(f.lon)
    && IsI16(f.alt) && IsI16(f.spd) && IsI16(f.ax) && IsI16(f.ay) && IsI16(f.az)
    && IsI16(f.gx) && IsI16(f.gy) && IsI16(f.lineState) && IsI16(f.vbat)
    && IsI16(f.temp) && IsI16(f.pwmServo) && IsI16(f.pwmMotor)
  }

  /** In range means every field fits the width the layout gives it. */
  lemma InRangeFits(f: SensorFrame)
    ensures InRange(f) <==>
      forall i :: 0 <= i < |Layout()| ==> Fits(Values(f)[i], Layout()[i])
  {
    var vs := Values(f);
    forall i | 0 <= i < |Layout()|
      ensures Fits(vs[i], Layout()[i]) <==> if i < 2 then IsI32(vs[i]) else IsI16(vs[i])
    {
      FitsWidth(vs[i]);
    }
    if InRange(f) {
      AllI16(f);
    } else if forall i :: 0 <= i < |Layout()| ==> Fits(vs[i], Layout()[i]) {
      FitsInRange(f);
    }
  }

  /** The converse: a frame whose every field fits its width is in range. */
  lemma FitsInRange(f: SensorFrame)
    requires forall i :: 0 <= i < |Layout()| ==> Fits(Values(f)[i], Layout()[i])
    ensures InRange(f)
  {
    var vs, ws := Values(f), Layout();
    assert Fits(vs[0], ws[0]) && Fits(vs[1], ws[1]);
    assert Fits(vs[2], ws[2]) && Fits(vs[3], ws[3]) && Fits(vs[4], ws[4]) && Fits(vs[5], ws[5]);
    assert Fits(vs[6], ws[6]) && Fits(vs[7], ws[7]) && Fits(vs[8], ws[8]) && Fits(vs[9], ws[9]);
    assert Fits(vs[10], ws[10]) && Fits(vs[11], ws[11]) && Fits(vs[12], ws[12]);
    assert Fits(vs[13], ws[13]);
    Widths();
  }

  lemma AllI16(f: SensorFrame)
    requires InRange(f)
    ensures forall i :: 2 <= i < |Values(f)| ==> IsI16(Values(f)[i])
  {
    var vs := Values(f);
    assert vs[2..] == [f.alt, f.spd, f.ax, f.ay, f.az, f.gx, f.gy, f.lineState, f.vbat, f.temp,
                       f.pwmServo, f.pwmMotor];
    forall i | 2 <= i < |vs| ensures IsI16(vs[i]) {
      assert vs[i] == vs[2..][i - 2];
    }
  }

  /** `i` is a 4-byte field, `h` a 2-byte one. */
  lemma FitsWidth(v: int)
    ensures Fits(v, 4) <==> IsI32(v)
    ensures Fits(v, 2) <==> IsI16(v)
  {
    Widths();
  }


  /** `struct.unpack("<ii12h", data)`: MicroPython only needs the buffer to
      hold 32 bytes; a shorter one raises (None). The fields are read one
      after the other in the order of `Values`. */
  function Unpack(b: seq<Byte>): (r: Option<SensorFrame>)
    ensures r.Some? <==> |b| >= PayloadSize
  {
    if |b| < PayloadSize then None else Some(FromValues(DecodeFields(b, Layout())))
  }

  /** The frame's fields, in wire order, are the values the layout decodes. */
  lemma UnpackValues(b: seq<Byte>)
    requires |b| >= PayloadSize
    ensures Values(Unpack(b).value) == DecodeFields(b, Layout())
  {
    ValuesOfFromValues(DecodeFields(b, Layout()));
  }

  /** Any 32 bytes decode to an in-range frame: each field is read from 4 or
      2 bytes, so no check can fail. */
  lemma UnpackInRange(b: seq<Byte>)
    requires |b| >= PayloadSize
    ensures InRange(Unpack(b).value)
  {
    UnpackValues(b);
    InRangeFits(Unpack(b).value);
  }

  /** Field `k` of a decoded frame (in the wire order of `Values`) is the
      little-endian signed value of the `Width(k)` bytes that start at
      `Offset(k)`: two 4-byte fields, then twelve 2-byte ones. */
  lemma DecodedAt(b: seq<Byte>, k: nat)
    requires |b| >= PayloadSize && k < |Layout()|
    ensures Offset(k) + Width(k) <= |b|
    ensures DecodeFields(b, Layout())[k] == Signed(b[Offset(k)..Offset(k) + Width(k)])
  {
    var ws := Layout();
    LayoutFieldAt(b, k);
    LayoutOffset(k);
    assert ws[k] == Width(k);
    var start := Total(ws[..k]);
    assert start == Offset(k);
    assert DecodeFields(b, ws)[k] == Signed(b[start..start + ws[k]]);
  }

  lemma LayoutFieldAt(b: seq<Byte>, k: nat)
    requires |b| >= PayloadSize && k < |Layout()|
    ensures Total(Layout()[..k]) + Layout()[k] <= |b|
    ensures DecodeFields(b, Layout())[k] == Signed(b[Total(Layout()[..k])..Total(Layout()[..k]) + Layout()[k]])
  {
    DecodeFieldAt(b, Layout(), k);
  }

  /** Byte width of field `k` of the layout. */
  function Width(k: int): nat
  {
    if k < 2 then 4 else 2
  }

  /** Byte offset of field `k` of the layout. */
  function Offset(k: nat): nat
  {
    if k < 2 then 4 * k else 8 + 2 * (k - 2)
  }

  lemma LayoutOffset(k: nat)
    requires k < |Layout()|
    ensures Total(Layout()[..k]) == Offset(k)
  {
    PrefixTotal(Layout(), k);
  }


  lemma {:induction false} TotalSnoc(ws: seq<nat>, w: nat)
    ensures Total(ws + [w]) == Total(ws) + w
  {
    if ws != [] {
      assert (ws + [w])[1..] == ws[1..] + [w];
      TotalSnoc(ws[1..], w);
    }
  }

  /** `struct.pack("<ii12h", ...)` on the sending side (which is not part of
      this model): the partner that `Unpack` inverts. */
  function Pack(f: SensorFrame): (b: seq<Byte>)
    requires InRange(f)
    ensures |b| == PayloadSize
  {
    InRangeFits(f);
    EncodeFields(Values(f), Layout())
  }

  /** Every in-range frame survives packing and unpacking. */
  lemma UnpackPack(f: SensorFrame)
    requires InRange(f)
    ensures Unpack(Pack(f)) == Some(f)
  {
    InRangeFits(f);
    DecodeEncodeFields(Values(f), Layout());
  }

  /** Every 32-byte payload decodes, and its decoding determines it: the
      frame layout is a bijection between 32-byte strings and in-range
      frames. */
  lemma PackUnpack(b: seq<Byte>)
    requires |b| == PayloadSize
    ensures Unpack(b).Some? && InRange(Unpack(b).value)
    ensures Pack(Unpack(b).value) == b
  {
    UnpackInRange(b);
    UnpackValues(b);
    EncodeDecodeFields(b, Layout());
  }
}
