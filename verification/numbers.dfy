/** JavaScript number behaviour used by the screens and date helpers:
    `parseInt` with and without an explicit radix, and `Math.ceil` of a
    millisecond span divided by the length of a day. */
module Numbers {
  import opened Strings

  /** The values `parseInt` can produce: NaN or an integer. (The sign of a
      zero is not modelled; `-0` is `Int(0)`.) */
  datatype Number = NaN | Int(value: int)

  /** Value of `c` as a digit in the radix-36 alphabet `0-9a-z` (either
      case); 36 for every other character. */
  function RadixDigit(c: char): (v: nat)
    ensures v <= 36
    ensures v < 10 <==> IsDigit(c)
    ensures IsDigit(c) ==> v == DigitValue(c)
  {
    if '0' <= c <= '9' then c as int - '0' as int
    else if 'a' <= c <= 'z' then c as int - 'a' as int + 10
    else if 'A' <= c <= 'Z' then c as int - 'A' as int + 10
    else 36
  }

  /** Length of the longest prefix of `s` made of radix-`radix` digits. */
  function DigitRun(s: string, radix: nat): (k: nat)
    ensures k <= |s|
    ensures forall i :: 0 <= i < k ==> RadixDigit(s[i]) < radix
    ensures k < |s| ==> RadixDigit(s[k]) >= radix
    decreases |s|
  {
    if |s| > 0 && RadixDigit(s[0]) < radix then 1 + DigitRun(s[1..], radix) else 0
  }

  /** Value of a radix-`radix` numeral, most significant digit first. */
  function RadixValue(s: string, radix: nat): nat {
    if |s| == 0 then 0 else RadixValue(s[..|s| - 1], radix) * radix + RadixDigit(s[|s| - 1])
  }

  /** In radix 10 a numeral is worth what its decimal digits say. */
  lemma {:induction false} RadixValueDecimal(s: string)
    requires AllDigits(s)
    ensures RadixValue(s, 10) == DigitsValue(s)
  {
    if |s| > 0 {
      RadixValueDecimal(s[..|s| - 1]);
    }
  }

  /** `parseInt(s, radix)` (ECMAScript section 19.2.5); `radix == 0` stands
      for an omitted radix. Leading whitespace is skipped and one sign is
      read; the rest is read by `ParseUnsigned`. */
  function ParseInt(s: string, radix: int): Number {
    var t := TrimStart(s);
    if |t| > 0 && t[0] == '-' then Negate(ParseUnsigned(t[1..], radix))
    else if |t| > 0 && t[0] == '+' then ParseUnsigned(t[1..], radix)
    else ParseUnsigned(t, radix)
  }

  function Negate(v: Number): Number {
    match v
    case NaN => NaN
    case Int(k) => Int(-k)
  }

  /** The unsigned part of `parseInt`: a radix outside 2..36 gives NaN, a
      `0x`/`0X` prefix switches to hexadecimal when the radix is omitted or
      16, and the longest run of digits that follows is read; no digit at
      all gives NaN. Trailing text is ignored. */
  function ParseUnsigned(u: string, radix: int): Number {
    if radix != 0 && (radix < 2 || radix > 36) then NaN
    else if HasHexPrefix(u, radix) then ReadRun(u[2..], 16)
    else ReadRun(u, if radix == 0 then 10 else radix)
  }

  predicate HasHexPrefix(u: string, radix: int) {
    (radix == 0 || radix == 16) && |u| >= 2 && u[0] == '0' && (u[1] == 'x' || u[1] == 'X')
  }

  /** The value of the longest run of radix-`radix` digits at the start of
      `v`, or NaN when there is none. */
  function ReadRun(v: string, radix: nat): Number {
    var k := DigitRun(v, radix);
    if k == 0 then NaN else Int(RadixValue(v[..k], radix))
  }

  /** `parseInt` reads back what `String(n)` printed, and stops at the first
      character that is not a decimal digit, so `"30j"` reads as 30. The
      one exception is the hexadecimal prefix: with the radix omitted,
      `"0x1A"` is 26, not 0. */
  lemma ParseIntOfText(n: int, rest: string, radix: int)
    requires radix == 0 || radix == 10
    requires |rest| > 0 ==> !IsDigit(rest[0]) && !(radix == 0 && n == 0 && (rest[0] == 'x' || rest[0] == 'X'))
    ensures ParseInt(IntText(n) + rest, radix) == Int(n)
  {
    var m := if n < 0 then -n else n;
    var d := DecimalText(m);
    DecimalTextRoundTrip(m);
    ZeroText(d);
    IntTextParts(n, rest);
    var u := d + rest;
    assert ParseUnsigned(u, radix) == Int(m) && |u| > 0 && IsDigit(u[0]) by {
      UnsignedDigits(d, rest, radix);
      LeadingDigit(d, rest);
    }
    if n < 0 {
      NegatedRead(u, radix, m);
    } else {
      PlainDigits(u, radix);
    }
  }

  lemma ZeroText(d: string)
    requires AllDigits(d)
    ensures d == "0" ==> DigitsValue(d) == 0
  {
    if d == "0" {
      assert d[..0] == [];
    }
  }

  lemma IntTextParts(n: int, rest: string)
    ensures var d := DecimalText(if n < 0 then -n else n);
            IntText(n) + rest == if n < 0 then "-" + (d + rest) else d + rest
  {
  }

  /** A run of decimal digits followed by a non-digit tail reads as the
      value of the digits. */
  lemma PositiveDigits(d: string, rest: string, radix: int)
    requires radix == 0 || radix == 10
    requires |d| > 0 && AllDigits(d)
    requires |rest| > 0 ==> !IsDigit(rest[0]) && !(radix == 0 && d == "0" && (rest[0] == 'x' || rest[0] == 'X'))
    ensures ParseInt(d + rest, radix) == Int(DigitsValue(d))
  {
    var u := d + rest;
    assert ParseUnsigned(u, radix) == Int(DigitsValue(d)) && |u| > 0 && IsDigit(u[0]) by {
      UnsignedDigits(d, rest, radix);
      LeadingDigit(d, rest);
    }
    PlainDigits(u, radix);
  }

  lemma LeadingDigit(d: string, rest: string)
    requires |d| > 0 && AllDigits(d)
    ensures IsDigit((d + rest)[0])
  {
    assert (d + rest)[0] == d[0];
  }

  /** What the unsigned part reads, a leading minus negates. */
  lemma NegatedRead(u: string, radix: int, n: int)
    requires |u| > 0 && IsDigit(u[0]) && ParseUnsigned(u, radix) == Int(n)
    ensures ParseInt("-" + u, radix) == Int(-n)
  {
    MinusThenDigits(u, radix);
  }

  /** Without a sign, the unsigned part is the whole of what is read. */
  lemma PlainDigits(u: string, radix: int)
    requires |u| > 0 && IsDigit(u[0])
    ensures ParseInt(u, radix) == ParseUnsigned(u, radix)
  {
    NothingToTrim(u);
  }

  /** A leading minus negates what the unsigned part reads. */
  lemma MinusThenDigits(u: string, radix: int)
    requires |u| > 0 && IsDigit(u[0])
    ensures ParseInt("-" + u, radix) == Negate(ParseUnsigned(u, radix))
  {
    var s := "-" + u;
    assert s[0] == '-' && s[1..] == u;
    NothingToTrim(s);
  }

  lemma NothingToTrim(s: string)
    requires |s| > 0 && !IsWhitespace(s[0])
    ensures TrimStart(s) == s
  {
  }

  /** Digits followed by a non-digit read as the digits' value. */
  lemma UnsignedDigits(d: string, rest: string, radix: int)
    requires radix == 0 || radix == 10
    requires |d| > 0 && AllDigits(d)
    requires |rest| > 0 ==> !IsDigit(rest[0]) && !(radix == 0 && d == "0" && (rest[0] == 'x' || rest[0] == 'X'))
    ensures ParseUnsigned(d + rest, radix) == Int(DigitsValue(d))
  {
    var u := d + rest;
    assert !HasHexPrefix(u, radix) by {
      assert u[0] == d[0];
      if |d| >= 2 {
        assert u[1] == d[1];
      } else if |u| >= 2 {
        assert d == [d[0]];
        assert u[1] == rest[0];
      }
    }
    DigitRunOfDigits(d, rest);
    assert u[..|d|] == d;
    RadixValueDecimal(d);
  }

  /** The digit run of a digit string followed by a non-digit is the whole
      digit string. */
  lemma {:induction false} DigitRunOfDigits(d: string, rest: string)
    requires AllDigits(d)
    requires |rest| > 0 ==> !IsDigit(rest[0])
    ensures DigitRun(d + rest, 10) == |d|
    decreases |d|
  {
    if |d| > 0 {
      assert (d + rest)[1..] == d[1..] + rest;
      assert (d + rest)[0] == d[0];
      DigitRunOfDigits(d[1..], rest);
    } else {
      assert d + rest == rest;
    }
  }

  /** Text that has no digit where the number should start reads as NaN. */
  lemma ParseIntWithoutDigits(s: string, radix: int)
    requires radix == 0 || radix == 10
    requires var t := TrimStart(s);
             var u := if |t| > 0 && (t[0] == '-' || t[0] == '+') then t[1..] else t;
             |u| == 0 || !IsDigit(u[0])
    ensures ParseInt(s, radix) == NaN
  {
    var t := TrimStart(s);
    if |t| > 0 && (t[0] == '-' || t[0] == '+') {
      UnsignedWithoutDigits(t[1..], radix);
    } else {
      UnsignedWithoutDigits(t, radix);
    }
  }

  /** No leading digit, no hexadecimal prefix and no run: NaN. */
  lemma UnsignedWithoutDigits(u: string, radix: int)
    requires radix == 0 || radix == 10
    requires |u| == 0 || !IsDigit(u[0])
    ensures ParseUnsigned(u, radix) == NaN
  {
    assert !HasHexPrefix(u, radix);
  }

  /** Milliseconds in a day, `1000 * 60 * 60 * 24`. */
  const MsPerDay: int := 86_400_000

  /** `Math.ceil(ms / 86400000)`: the least whole number of days that
      covers the span. */
  function CeilDays(ms: int): (r: int)
    ensures (r - 1) * MsPerDay < ms <= r * MsPerDay
  {
    -((-ms) / MsPerDay)
  }

  /** "0" reads as 0. */
  lemma ZeroReadsZero()
    ensures ParseInt("0", 0) == Int(0)
  {
    ParseIntOfText(0, "", 0);
    assert IntText(0) + "" == "0";
  }
}
