/** The few string operations of the MicroPython runtime that the telemetry
    record relies on: `str.strip()`, `str.split(",")`, `str(int)` and `int(str)`. */
module Text {
  import opened Common

  /** ASCII whitespace, the set MicroPython's `strip()` and `int()` skip:
      space, tab, line feed, vertical tab, form feed, carriage return. */
  predicate IsSpace(c: char)
  {
    c == ' ' || ('\t' <= c <= '\r')
  }

  predicate IsDigit(c: char)
  {
    '0' <= c <= '9'
  }

  predicate AllDigits(s: string)
  {
    forall i :: 0 <= i < |s| ==> IsDigit(s[i])
  }

  /** Drops the leading whitespace of `s`, and nothing else. */
  function StripLeft(s: string): (r: string)
    ensures |r| <= |s| && r == s[|s| - |r|..]
    ensures r == [] || !IsSpace(r[0])
    ensures forall k :: 0 <= k < |s| - |r| ==> IsSpace(s[k])
  {
    if s != [] && IsSpace(s[0]) then StripLeft(s[1..]) else s
  }

  /** Drops the trailing whitespace of `s`, and nothing else. */
  function StripRight(s: string): (r: string)
    ensures |r| <= |s| && r == s[..|r|]
    ensures r == [] || !IsSpace(r[|r| - 1])
    ensures forall k :: |r| <= k < |s| ==> IsSpace(s[k])
  {
    if s != [] && IsSpace(s[|s| - 1]) then StripRight(s[..|s| - 1]) else s
  }

  /** `s.strip()`: the result neither starts nor ends with whitespace. */
  function Strip(s: string): (r: string)
    ensures |r| <= |s|
    ensures r == [] || (!IsSpace(r[0]) && !IsSpace(r[|r| - 1]))
  {
    StripRight(StripLeft(s))
  }

  /** A text that already starts and ends with a non-space is left alone
      by `strip()`, and so is it followed by a line feed. */
  lemma StripFramed(t: string)
    requires t != [] && !IsSpace(t[0]) && !IsSpace(t[|t| - 1])
    ensures Strip(t) == t
    ensures Strip(t + "\n") == t
  {
    assert StripLeft(t + "\n") == t + "\n";
    var u := t + "\n";
    assert u[..|u| - 1] == t;
  }

  /** `sep.join(fields)`. */
  function Join(fields: seq<string>, sep: char): string
    requires |fields| >= 1
  {
    if |fields| == 1 then fields[0] else fields[0] + [sep] + Join(fields[1..], sep)
  }

  /** A join of non-empty fields starts with the first field's first
      character and ends with the last field's last character. */
  lemma {:induction false} JoinEnds(fields: seq<string>, sep: char)
    requires |fields| >= 1
    requires forall i :: 0 <= i < |fields| ==> fields[i] != []
    ensures var j := Join(fields, sep);
            j != [] && j[0] == fields[0][0] && j[|j| - 1] == fields[|fields| - 1][|fields[|fields| - 1]| - 1]
  {
    if |fields| > 1 {
      JoinEnds(fields[1..], sep);
    }
  }

  /** `s.split(sep)` for a one-character separator: the pieces between
      separators, empty ones included, so there is always at least one. */
  function Split(s: string, sep: char): (fields: seq<string>)
    ensures |fields| == Count(s, sep) + 1
    ensures forall i :: 0 <= i < |fields| ==> sep !in fields[i]
    ensures Join(fields, sep) == s
  {
    if s == [] then [""]
    else
      var rest := Split(s[1..], sep);
      if s[0] == sep then
        assert s == [sep] + s[1..];
        [""] + rest
      else
        var fields := [[s[0]] + rest[0]] + rest[1..];
        assert fields[1..] == rest[1..];
        assert s == [s[0]] + s[1..];
        fields
  }

  /** A field without separator followed by a separator splits off as the
      first field. */
  lemma {:induction false} SplitCons(f: string, t: string, sep: char)
    requires sep !in f
    ensures Split(f + [sep] + t, sep) == [f] + Split(t, sep)
  {
    if f == [] {
      assert [] + [sep] + t == [sep] + t;
      assert ([sep] + t)[1..] == t;
    } else {
      var s := f + [sep] + t;
      assert s[1..] == f[1..] + [sep] + t;
      SplitCons(f[1..], t, sep);
      assert [f[0]] + f[1..] == f;
    }
  }

  /** A field without separator is a single field. */
  lemma {:induction false} SplitSingle(f: string, sep: char)
    requires sep !in f
    ensures Split(f, sep) == [f]
  {
    if f != [] {
      SplitSingle(f[1..], sep);
      assert [f[0]] + f[1..] == f;
    }
  }

  /** `split` undoes `join` when no field holds the separator. */
  lemma {:induction false} SplitJoin(fields: seq<string>, sep: char)
    requires |fields| >= 1
    requires forall i :: 0 <= i < |fields| ==> sep !in fields[i]
    ensures Split(Join(fields, sep), sep) == fields
  {
    if |fields| == 1 {
      SplitSingle(fields[0], sep);
    } else {
      SplitJoin(fields[1..], sep);
      SplitCons(fields[0], Join(fields[1..], sep), sep);
    }
  }

  function DigitChar(d: int): (c: char)
    requires 0 <= d < 10
    ensures IsDigit(c) && c as int - '0' as int == d
  {
    ('0' as int + d) as char
  }

  /** Decimal rendering of a natural number, most significant digit first,
      without leading zeros. */
  function NatText(n: nat): (s: string)
    ensures |s| >= 1 && AllDigits(s)
  {
    if n < 10 then [DigitChar(n)] else NatText(n / 10) + [DigitChar(n % 10)]
  }

  /** `str(x)` / `f"{x}"` for an integer. */
  function IntText(x: int): (s: string)
    ensures |s| >= 1 && !IsSpace(s[0]) && !IsSpace(s[|s| - 1]) && ',' !in s
  {
    if x < 0 then "-" + NatText(-x) else NatText(x)
  }

  /** Value of a run of decimal digits. */
  function DigitsValue(d: string): nat
    requires AllDigits(d)
  {
    if d == [] then 0 else 10 * DigitsValue(d[..|d| - 1]) + (d[|d| - 1] as int - '0' as int)
  }

  lemma {:induction false} DigitsValueOfNatText(n: nat)
    ensures DigitsValue(NatText(n)) == n
  {
    if n >= 10 {
      DigitsValueOfNatText(n / 10);
      var s := NatText(n);
      assert s[..|s| - 1] == NatText(n / 10);
    }
  }

  /** MicroPython `int(s)` in base 10: surrounding whitespace, an optional
      sign and at least one decimal digit; anything else raises (None). */
  function ParseInt(s: string): (r: Option<int>)
    ensures r.Some? ==> Strip(s) != [] && (r.value < 0 ==> Strip(s)[0] == '-')
  {
    ParseNumeral(Strip(s))
  }

  /** The numeral `int` accepts once the whitespace is gone. */
  function ParseNumeral(t: string): (r: Option<int>)
    ensures r.Some? <==> (|t| >= 1 && AllDigits(t))
                         || (|t| >= 2 && (t[0] == '-' || t[0] == '+') && AllDigits(t[1..]))
    ensures r.Some? && r.value < 0 ==> t[0] == '-'
  {
    if |t| >= 2 && (t[0] == '-' || t[0] == '+') && AllDigits(t[1..]) then
      var magnitude: int := DigitsValue(t[1..]);
      Some(if t[0] == '-' then -magnitude else magnitude)
    else if |t| >= 1 && AllDigits(t) then
      Some(DigitsValue(t))
    else
      None
  }

  /** `int(str(x)) == x`. */
  lemma ParseIntText(x: int)
    ensures ParseInt(IntText(x)) == Some(x)
  {
    if x < 0 {
      var d := NatText(-x);
      assert DigitsValue(d) == -x by { DigitsValueOfNatText(-x); }
      assert ParseInt("-" + d) == Some(x) by { ParseNegative(d); }
      assert IntText(x) == "-" + d;
    } else {
      var d := NatText(x);
      assert DigitsValue(d) == x by { DigitsValueOfNatText(x); }
      assert ParseInt(d) == Some(x) by { ParseDigits(d); }
    }
  }

  lemma ParseNegative(d: string)
    requires |d| >= 1 && AllDigits(d)
    ensures ParseInt("-" + d) == Some(-(DigitsValue(d) as int))
  {
    NegativeFramed(d);
    NegativeNumeral(d);
  }

  lemma NegativeFramed(d: string)
    requires |d| >= 1 && AllDigits(d)
    ensures Strip("-" + d) == "-" + d
  {
    var t := "-" + d;
    assert t[|t| - 1] == d[|d| - 1];
    StripFramed(t);
  }

  lemma NegativeNumeral(d: string)
    requires |d| >= 1 && AllDigits(d)
    ensures ParseNumeral("-" + d) == Some(-(DigitsValue(d) as int))
  {
    var t := "-" + d;
    assert t[1..] == d;
  }

  lemma ParseDigits(d: string)
    requires |d| >= 1 && AllDigits(d)
    ensures ParseInt(d) == Some(DigitsValue(d))
  {
    StripFramed(d);
  }
}
