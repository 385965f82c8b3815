/** Digit strings and the numbers they denote. */
module Numerals {

  const LOWER_TABLE: string := "0123456789abcdef"
  const UPPER_TABLE: string := "0123456789ABCDEF"

  /** The value of a character as a digit; 16 for every character that is not a hex digit. */
  function DigitValue(c: char): nat {
    if '0' <= c <= '9' then c as nat - '0' as nat
    else if 'a' <= c <= 'f' then c as nat - 'a' as nat + 10
    else if 'A' <= c <= 'F' then c as nat - 'A' as nat + 10
    else 16
  }

  ghost predicate AllDigits(s: string, radix: nat) {
    forall i :: 0 <= i < |s| ==> DigitValue(s[i]) < radix
  }

  /** What a digit string denotes, most significant digit first. */
  function ValueOf(s: string, radix: nat): nat {
    if s == [] then 0 else ValueOf(s[..|s| - 1], radix) * radix + DigitValue(s[|s| - 1])
  }

  function Digit(d: nat, upper: bool): (c: char)
    requires d < 16
    ensures DigitValue(c) == d
  {
    if d < 10 then '0' + d as char else if upper then 'A' + (d - 10) as char else 'a' + (d - 10) as char
  }

  /** The usual digit string of a number. */
  function Numeral(value: nat, radix: nat, upper: bool): (s: string)
    requires 2 <= radix <= 16
    ensures |s| >= 1
  {
    if value < radix then [Digit(value, upper)]
    else Numeral(value / radix, radix, upper) + [Digit(value % radix, upper)]
  }

  lemma TablesHoldDigits(d: nat)
    requires d < 16
    ensures |LOWER_TABLE| == 16 == |UPPER_TABLE|
    ensures LOWER_TABLE[d] == Digit(d, false) && UPPER_TABLE[d] == Digit(d, true)
  {
  }

  lemma Division(value: nat, radix: nat)
    requires radix > 0
    ensures value / radix * radix + value % radix == value
  {
  }

  lemma ProductBounds(q: nat, m: nat)
    requires m >= 1
    ensures q <= q * m
  {
    assert q * m == q * (m - 1) + q;
    assert q * (m - 1) >= 0;
  }

  lemma DivisionBounds(value: nat, radix: nat, q: nat, d: nat)
    requires radix > 0 && q * radix + d == value && d < radix
    ensures q <= value && (radix == 1 ==> q == value && d == 0)
  {
    ProductBounds(q, radix);
  }

  lemma ValueOfMore(s: string, c: char, radix: nat)
    ensures ValueOf(s + [c], radix) == ValueOf(s, radix) * radix + DigitValue(c)
  {
    assert (s + [c])[..|s + [c]| - 1] == s;
  }

  lemma QuotientBetween(value: nat, radix: nat, q: nat, d: nat)
    requires 2 <= radix <= value && q * radix + d == value && d < radix
    ensures 0 < q < value
  {
    assert q * radix == q * (radix - 2) + 2 * q;
    assert q * (radix - 2) >= 0;
  }

  lemma NumeralMore(value: nat, radix: nat, upper: bool, q: nat, d: nat)
    requires 2 <= radix <= 16 && radix <= value
    requires q == value / radix && d == value % radix
    ensures d < radix && 0 < q < value && q * radix + d == value
    ensures Numeral(value, radix, upper) == Numeral(q, radix, upper) + [Digit(d, upper)]
  {
    Division(value, radix);
    QuotientBetween(value, radix, q, d);
  }

  /** The digits that stand before the last one. */
  function Leading(q: nat, radix: nat, upper: bool): string
    requires 2 <= radix <= 16
  {
    if q == 0 then "" else Numeral(q, radix, upper)
  }

  lemma NumeralSplits(value: nat, radix: nat, upper: bool, q: nat, d: nat)
    requires 2 <= radix <= 16 && q == value / radix && d == value % radix
    ensures d < radix && q <= value && (q == value ==> value == 0)
    ensures Numeral(value, radix, upper) == Leading(q, radix, upper) + [Digit(d, upper)]
  {
    if value < radix {
      QuotientUnique(0, value, q, d, radix) by {
        Division(value, radix);
      }
    } else {
      NumeralMore(value, radix, upper, q, d);
    }
  }

  lemma OneDigit(d: nat, radix: nat, upper: bool)
    requires d < radix <= 16
    ensures ValueOf([Digit(d, upper)], radix) == d
  {
    assert [Digit(d, upper)][..0] == [];
    assert ValueOf([], radix) == 0;
  }

  /** A numeral denotes its number. */
  lemma {:induction false} NumeralDenotes(value: nat, radix: nat, upper: bool)
    requires 2 <= radix <= 16
    ensures ValueOf(Numeral(value, radix, upper), radix) == value
  {
    if value < radix {
      OneDigit(value, radix, upper);
    } else {
      var q, d := value / radix, value % radix;
      NumeralMore(value, radix, upper, q, d);
      NumeralDenotes(q, radix, upper);
      ValueOfMore(Numeral(q, radix, upper), Digit(d, upper), radix);
    }
  }

  /** The digits in their order, and the case of the letters. */
  lemma DigitsInOrder(d: nat)
    requires d < 16
    ensures DigitValue("0123456789abcdef"[d]) == d && DigitValue("0123456789ABCDEF"[d]) == d
    ensures Digit(d, false) == "0123456789abcdef"[d] && Digit(d, true) == "0123456789ABCDEF"[d]
  {
  }

  /** A numeral is written in digits and letters of one case. */
  lemma {:induction false} NumeralLetters(value: nat, radix: nat, upper: bool, i: nat)
    requires 2 <= radix <= 16 && i < |Numeral(value, radix, upper)|
    ensures DigitValue(Numeral(value, radix, upper)[i]) < 16
    ensures Numeral(value, radix, upper)[i] ==
      (if upper then "0123456789ABCDEF" else "0123456789abcdef")[DigitValue(Numeral(value, radix, upper)[i])]
    decreases value
  {
    if value < radix {
      DigitsInOrder(value);
    } else {
      var q, d := value / radix, value % radix;
      Division(value, radix);
      DivisionBounds(value, radix, q, d);
      NumeralMore(value, radix, upper, q, d);
      DigitsInOrder(d);
      if i < |Numeral(q, radix, upper)| {
        NumeralLetters(q, radix, upper, i);
      }
    }
  }

  /** A numeral uses digits of its radix only. */
  lemma {:induction false} NumeralDigits(value: nat, radix: nat, upper: bool)
    requires 2 <= radix <= 16
    ensures AllDigits(Numeral(value, radix, upper), radix)
  {
    if value >= radix {
      var q, d := value / radix, value % radix;
      NumeralMore(value, radix, upper, q, d);
      NumeralDigits(q, radix, upper);
    }
  }

  lemma NoMultiple(k: int, m: nat)
    requires -(m as int) < k * m < m
    ensures k == 0
  {
  }

  lemma QuotientUnique(q: nat, r: nat, q': nat, r': nat, m: nat)
    requires q * m + r == q' * m + r' && r < m && r' < m
    ensures q == q' && r == r'
  {
    assert (q - q') * m == q * m - q' * m;
    NoMultiple(q - q', m);
  }

  lemma LastDigit(head: nat, d: nat, radix: nat)
    requires d < radix
    ensures (head * radix + d) / radix == head && (head * radix + d) % radix == d
  {
    var v := head * radix + d;
    Division(v, radix);
    QuotientUnique(head, d, v / radix, v % radix, radix);
  }

  /** No digit string that denotes the same number is shorter. */
  lemma {:induction false} NumeralIsShortest(s: string, radix: nat, upper: bool)
    requires 2 <= radix <= 16
    requires s != [] && AllDigits(s, radix)
    ensures |Numeral(ValueOf(s, radix), radix, upper)| <= |s|
  {
    var value, head := ValueOf(s, radix), s[..|s| - 1];
    if value >= radix {
      LastDigit(ValueOf(head, radix), DigitValue(s[|s| - 1]), radix);
      NumeralIsShortest(head, radix, upper);
    }
  }

  /** Only zero has a leading zero. */
  lemma {:induction false} NoLeadingZero(value: nat, radix: nat, upper: bool)
    requires 2 <= radix <= 16
    ensures Numeral(value, radix, upper)[0] == '0' <==> value == 0
  {
    if value >= radix {
      var q, d := value / radix, value % radix;
      NumeralMore(value, radix, upper, q, d);
      NoLeadingZero(q, radix, upper);
    }
  }

  function Power(base: nat, n: nat): nat {
    if n == 0 then 1 else base * Power(base, n - 1)
  }

  lemma QuotientBelow(value: nat, radix: nat, p: nat)
    requires radix > 0 && value < radix * p
    ensures value / radix < p
  {
    Division(value, radix);
  }

  /** A number below radix^n has at most n digits. */
  lemma {:induction false} NumeralLength(value: nat, radix: nat, upper: bool, n: nat)
    requires 2 <= radix <= 16 && n >= 1
    requires value < Power(radix, n)
    ensures |Numeral(value, radix, upper)| <= n
  {
    if value >= radix {
      if n == 1 {
        assert false;
      } else {
        var q, d := value / radix, value % radix;
        NumeralMore(value, radix, upper, q, d);
        QuotientBelow(value, radix, Power(radix, n - 1));
        NumeralLength(q, radix, upper, n - 1);
      }
    }
  }
}
