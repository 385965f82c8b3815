/** Reading numbers back: the C library's strtoul as the repository calls it, and duStrToUint64. */
module NumberReading {
  import opened Integers
  import opened Numerals
  import opened Text

  /** The value, the index of the first character not consumed (0 when nothing was converted), and
      whether errno reports a value out of range. */
  datatype Conversion = Conversion(value: uint64, end: nat, range: bool)

  predicate IsSpace(c: char) {
    c == ' ' || '\t' <= c <= '\r'
  }

  function Spaces(s: string): (n: nat)
    ensures n <= |s|
  {
    if s == [] || !IsSpace(s[0]) then 0 else 1 + Spaces(s[1..])
  }

  /** The length of the longest prefix of digits. */
  function Span(s: string, radix: nat): (n: nat)
    ensures n <= |s|
  {
    if s == [] || DigitValue(s[0]) >= radix then 0 else 1 + Span(s[1..], radix)
  }

  function Unsigned(s: string): (u: string)
    ensures |u| <= |s|
  {
    if s != [] && (s[0] == '-' || s[0] == '+') then s[1..] else s
  }

  predicate HexPrefix(u: string) {
    |u| >= 3 && u[0] == '0' && (u[1] == 'x' || u[1] == 'X') && DigitValue(u[2]) < 16
  }

  /** The radix that base 0 stands for. */
  function Radix(base: nat, u: string): (r: nat)
    requires base == 0 || base == 16
    ensures 2 <= r <= 16
  {
    if base == 16 || HexPrefix(u) then 16 else if u != [] && u[0] == '0' then 8 else 10
  }

  function Magnitude(value: nat, end: nat, negative: bool): Conversion {
    if value > UINT64_MAX then Conversion(UINT64_MAX, end, true)
    else if negative then Conversion((UINT64_MAX + 1 - value) % (UINT64_MAX + 1), end, false)
    else Conversion(value, end, false)
  }

  /** strtoul of ISO C, for a 64-bit unsigned long: blanks, a sign, a prefix, digits. */
  function Strtoul(s: string, base: nat): Conversion
    requires base == 0 || base == 16
  {
    var t := s[Spaces(s)..];
    var u := Unsigned(t);
    var digits := if HexPrefix(u) then u[2..] else u;
    var n := Span(digits, Radix(base, u));
    if n == 0 then Conversion(0, 0, false)
    else Magnitude(ValueOf(digits[..n], Radix(base, u)), |s| - |digits| + n, t != [] && t[0] == '-')
  }

  /** The whole string must be one number within range; NULL is refused. */
  function StrToUint64(pStr: Option<string>): Option<uint64> {
    if pStr.None? then None
    else
      var c := Strtoul(pStr.value, 0);
      if c.range || c.end != |pStr.value| || c.end == 0 then None else Some(c.value)
  }

  lemma {:induction false} SpanOfDigits(s: string, radix: nat)
    requires AllDigits(s, radix)
    ensures Span(s, radix) == |s|
  {
    if s != [] {
      SpanOfDigits(s[1..], radix);
    }
  }

  lemma DigitCharacter(c: char)
    requires DigitValue(c) < 16
    ensures !IsSpace(c) && c != '-' && c != '+' && c != 'x' && c != 'X'
  {
  }

  /** When everything after the sign and the prefix is digits, everything is consumed. */
  lemma WholeConversion(t: string, u: string, digits: string, base: nat)
    requires base == 0 || base == 16
    requires t != [] && !IsSpace(t[0]) && u == Unsigned(t)
    requires digits == if HexPrefix(u) then u[2..] else u
    requires digits != [] && AllDigits(digits, Radix(base, u))
    ensures Strtoul(t, base) == Magnitude(ValueOf(digits, Radix(base, u)), |t|, t[0] == '-')
  {
    SpanOfDigits(digits, Radix(base, u));
    assert t[Spaces(t)..] == t && digits[..|digits|] == digits;
  }

  function Fitting(value: nat): Option<uint64> {
    if value <= UINT64_MAX then Some(value) else None
  }

  /** A digit string not starting with zero is read in decimal, if it fits. */
  lemma DecimalRead(s: string)
    requires s != [] && AllDigits(s, 10) && s[0] != '0'
    ensures StrToUint64(Some(s)) == Fitting(ValueOf(s, 10))
  {
    DigitCharacter(s[0]);
    WholeConversion(s, s, s, 0);
  }

  /** A digit string starting with zero is read in octal. */
  lemma OctalRead(s: string)
    requires s != [] && AllDigits(s, 8) && s[0] == '0'
    ensures StrToUint64(Some(s)) == Fitting(ValueOf(s, 8))
  {
    DigitCharacter(s[0]);
    if |s| >= 2 {
      DigitCharacter(s[1]);
    }
    WholeConversion(s, s, s, 0);
  }

  /** Behind 0x, digits are read in hexadecimal. */
  lemma HexRead(s: string)
    requires s != [] && AllDigits(s, 16)
    ensures StrToUint64(Some("0x" + s)) == Fitting(ValueOf(s, 16))
  {
    var t := "0x" + s;
    assert t[2] == s[0] && t[2..] == s;
    WholeConversion(t, t, s, 0);
  }

  /** Decimal output is read back, and so is hexadecimal output behind its prefix. */
  lemma PrintedReadsBack(value: uint64, upper: bool)
    ensures StrToUint64(Some(Numeral(value, 10, upper))) == Some(value)
    ensures StrToUint64(Some("0x" + Numeral(value, 16, upper))) == Some(value)
  {
    NumeralDenotes(value, 10, upper);
    NumeralDigits(value, 10, upper);
    NumeralDenotes(value, 16, upper);
    NumeralDigits(value, 16, upper);
    HexRead(Numeral(value, 16, upper));
    NoLeadingZero(value, 10, upper);
    if value == 0 {
      OneDigit(0, 8, upper);
      OctalRead(Numeral(0, 10, upper));
    } else {
      DecimalRead(Numeral(value, 10, upper));
    }
  }

  lemma Negated(value: nat, end: nat)
    requires 0 < value <= UINT64_MAX
    ensures Magnitude(value, end, true) == Conversion(UINT64_MAX + 1 - value, end, false)
  {
  }

  /** A minus sign is not refused: the value wraps around. */
  lemma NegativeWraps(s: string)
    requires s != [] && AllDigits(s, 10) && s[0] != '0' && 0 < ValueOf(s, 10) <= UINT64_MAX
    ensures StrToUint64(Some("-" + s)) == Some(UINT64_MAX + 1 - ValueOf(s, 10))
  {
    var t := "-" + s;
    assert t[0] == '-' && t[1..] == s;
    DigitCharacter(s[0]);
    WholeConversion(t, s, s, 0);
    Negated(ValueOf(s, 10), |t|);
  }
}
