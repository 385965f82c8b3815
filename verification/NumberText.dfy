/** Printing numbers into caller buffers: uint64ToStr and ui64ToStr, reversed in place. */
module NumberText {
  import opened Integers
  import opened Numerals
  import opened Text

  const EOK: int := 0

  /** A place the caller lends for one number. */
  class Count {
    var value: int

    constructor (value: int)
      ensures this.value == value
    {
      this.value := value;
    }
  }

  function Reversed(s: string): (r: string)
    ensures |r| == |s|
  {
    seq(|s|, i requires 0 <= i < |s| => s[|s| - 1 - i])
  }

  lemma ReversedMore(s: string, c: char)
    ensures Reversed(s + [c]) == [c] + Reversed(s)
  {
  }

  /** The first len characters change places end for end; nothing else moves. */
  method ReverseFront(buf: array<char>, len: uint32)
    requires len <= buf.Length
    modifies buf
    ensures buf[..] == Reversed(old(buf[..len])) + old(buf[len..])
  {
    var i: uint32 := 0;
    while i < len / 2
      invariant i <= len / 2
      invariant forall k :: 0 <= k < i ==> buf[k] == old(buf[len - 1 - k]) && buf[len - 1 - k] == old(buf[k])
      invariant forall k :: i <= k < len - i || len <= k < buf.Length ==> buf[k] == old(buf[k])
    {
      var tmp := buf[i];
      buf[i] := buf[len - i - 1];
      buf[len - i - 1] := tmp;
      i := i + 1;
    }
    forall k | 0 <= k < len
      ensures buf[k] == Reversed(old(buf[..len]))[k]
    {
      if len - i <= k {
        assert buf[len - 1 - (len - 1 - k)] == old(buf[len - 1 - k]);
      }
    }
  }

  // ---------- how long a 64-bit number can get ----------

  lemma ProductGrows(a: nat, b: nat, c: nat, d: nat)
    requires a <= c && b <= d
    ensures a * b <= c * d
  {
    assert c * d == a * b + a * (d - b) + (c - a) * d;
  }

  lemma {:induction false} PowerGrows(base: nat, n: nat)
    requires base >= 2
    ensures Power(2, n) <= Power(base, n)
  {
    if n > 0 {
      PowerGrows(base, n - 1);
      ProductGrows(2, Power(2, n - 1), base, Power(base, n - 1));
    }
  }

  lemma TimesAssociates(a: nat, b: nat, c: nat)
    ensures a * (b * c) == (a * b) * c
  {
  }

  lemma {:induction false} PowerAdds(base: nat, m: nat, n: nat)
    ensures Power(base, m + n) == Power(base, m) * Power(base, n)
  {
    if m > 0 {
      PowerAdds(base, m - 1, n);
      TimesAssociates(base, Power(base, m - 1), Power(base, n));
    }
  }

  lemma TwoToThe64()
    ensures Power(2, 64) == UINT64_MAX + 1
  {
    assert Power(2, 8) == 256 by {
      assert Power(2, 4) == 16;
      PowerAdds(2, 4, 4);
    }
    PowerAdds(2, 8, 8);
    PowerAdds(2, 16, 16);
    PowerAdds(2, 32, 32);
  }

  lemma AtMost64Digits(value: uint64, radix: nat, upper: bool)
    requires 2 <= radix <= 16
    ensures |Numeral(value, radix, upper)| <= 64
  {
    TwoToThe64();
    PowerGrows(radix, 64);
    NumeralLength(value, radix, upper, 64);
  }

  // ---------- uint64ToStr ----------

  /** What the print loop produces; in radix 1 it never ends on a number other than zero. */
  predicate Ends(value: nat, radix: nat) {
    2 <= radix <= 16 || (radix == 1 && value == 0)
  }

  function Printed(value: nat, radix: nat, upper: bool): string
    requires Ends(value, radix)
  {
    if radix == 1 then "0" else Numeral(value, radix, upper)
  }

  /** The digits still to be produced: the loop body runs before its first test. */
  function Pending(v: nat, radix: nat, upper: bool, more: bool): string
    requires 2 <= radix <= 16
  {
    if more then Numeral(v, radix, upper) else Leading(v, radix, upper)
  }

  /** A digit that comes last in the numeral goes to the end of front. */
  lemma PrintStep(whole: string, ahead: string, c: char, front: string)
    requires whole == (ahead + [c]) + Reversed(front)
    ensures whole == ahead + Reversed(front + [c])
  {
    ReversedMore(front, c);
  }

  /** What a text written from the first cell on leaves in a buffer; the rest of a text that is longer
      than the buffer lands behind it. */
  function Over(before: string, text: string): (mem: string)
    ensures |mem| == |before|
  {
    if |text| <= |before| then text + before[|text|..] else text[..|before|]
  }

  lemma OverAt(before: string, text: string, k: nat)
    requires k < |before|
    ensures Over(before, text)[k] == if k < |text| then text[k] else before[k]
  {
  }

  /** The number's digits and the terminator behind them. */
  function Line(value: nat, radix: nat, upper: bool): (line: string)
    requires Ends(value, radix)
    ensures |line| == |Printed(value, radix, upper)| + 1
  {
    Printed(value, radix, upper) + [NUL]
  }

  /** The terminator behind the text. The source writes it wherever the text ends; where that is the cell
      behind the buffer it is not part of the cells described here. */
  method Terminate(buf: array<char>, len: uint32, ghost text: string, ghost before: string)
    requires len == |text| <= buf.Length == |before| && buf[..] == text + before[len..]
    modifies buf
    ensures buf[..] == Over(before, text + [NUL])
  {
    if len < buf.Length {
      buf[len] := NUL;
    }
  }

  /** The lowest digit, looked up in the table, and what remains. */
  method NextDigit(v: uint64, radix: uint32, upper: bool) returns (c: char, rest: uint64)
    requires 1 <= radix <= 16
    ensures radix >= 2 ==> Numeral(v, radix, upper) == Leading(rest, radix, upper) + [c]
    ensures radix == 1 ==> c == '0' && rest == v
  {
    var table := if upper then UPPER_TABLE else LOWER_TABLE;
    var digit := v % radix;
    var quotient := v / radix;
    Division(v, radix);
    DivisionBounds(v, radix, quotient, digit);
    TablesHoldDigits(digit);
    c := table[digit];
    rest := quotient;
    if radix >= 2 {
      NumeralSplits(v, radix, upper, quotient, digit);
    }
  }

  /** The digits of a number, lowest first; nothing past the first bufSize cells is written. */
  method LowDigits(value: uint64, buf: array<char>, bufSize: uint64, radix: uint32, upper: bool)
    returns (ok: bool, len: uint32)
    requires 1 <= radix <= 16 && bufSize <= buf.Length
    requires radix == 1 ==> bufSize <= UINT32_MAX
    modifies buf
    ensures ok <==> Ends(value, radix) && |Printed(value, radix, upper)| <= bufSize
    ensures ok ==> len <= bufSize && len <= 64 && Printed(value, radix, upper) == Reversed(buf[..len])
    ensures forall k :: (if ok then len else bufSize) <= k < buf.Length ==> buf[k] == old(buf[k])
  {
    var v: uint64 := value;
    var more := true;
    ok, len := false, 0;
    if radix >= 2 {
      AtMost64Digits(value, radix, upper);
    }
    while more
      invariant len <= bufSize
      invariant forall k :: len <= k < buf.Length ==> buf[k] == old(buf[k])
      invariant !more ==> v == 0 && len > 0
      invariant radix >= 2 ==>
        Numeral(value, radix, upper) == Pending(v, radix, upper, more) + Reversed(buf[..len])
      invariant radix == 1 ==> v == value && (more && value == 0 ==> len == 0) && (!more ==> buf[..len] == "0")
      decreases bufSize - len, more
    {
      if len >= bufSize {
        return;
      }
      ghost var front := buf[..len];
      var c, rest := NextDigit(v, radix, upper);
      buf[len] := c;
      assert buf[..len + 1] == front + [c];
      if radix >= 2 {
        PrintStep(Numeral(value, radix, upper), Leading(rest, radix, upper), c, front);
      }
      len := len + 1;
      v := rest;
      more := v != 0;
    }
    ok := true;
  }

  /** Prints the number with its terminator, or says why not; a failure past the argument checks
      leaves everything from bufSize on unchanged. The terminator is not part of the size check. */
  method Uint64ToStr(value: uint64, pBuf: array?<char>, bufSize: uint64, radix: uint32, pSize: Count?)
    returns (ret: int)
    requires pBuf != null ==> bufSize <= pBuf.Length
    requires radix == 1 ==> bufSize <= UINT32_MAX
    modifies pBuf, pSize
    ensures ret == if pBuf == null then -1 else if radix > 16 || radix == 0 then -2
                   else if Ends(value, radix) && |Printed(value, radix, false)| <= bufSize then EOK else -3
    ensures ret == EOK ==> pBuf[..] == Over(old(pBuf[..]), Line(value, radix, false))
    ensures ret == EOK && pSize != null ==> pSize.value == |Line(value, radix, false)|
    ensures ret != EOK && pSize != null ==> pSize.value == old(pSize.value)
    ensures ret == -2 ==> pBuf[..] == old(pBuf[..])
    ensures ret == -3 ==> pBuf[bufSize..] == old(pBuf[bufSize..])
  {
    if pBuf == null {
      return -1;
    }
    if radix > 16 || radix == 0 {
      return -2;
    }
    var ok, len := LowDigits(value, pBuf, bufSize, radix, false);
    if !ok {
      return -3;
    }
    ReverseFront(pBuf, len);
    assert pBuf[..] == Printed(value, radix, false) + old(pBuf[..])[len..];
    Terminate(pBuf, len, Printed(value, radix, false), old(pBuf[..]));
    if pSize != null {
      pSize.value := len + 1;
    }
    return EOK;
  }

  lemma TenIsTwoDigits()
    ensures Printed(10, 10, false) == "10"
  {
    NumeralMore(10, 10, false, 1, 0);
  }

  /** A line is at home in the first size cells exactly when its digits leave room for the terminator. */
  lemma LineInside(before: string, size: nat, value: nat, radix: nat, upper: bool)
    requires size < |before| && before[size] != NUL && before[size] != '0' && Ends(value, radix)
    requires value == 0 || |Printed(value, radix, upper)| <= size
    ensures Over(before, Line(value, radix, upper))[size] == before[size] <==> |Printed(value, radix, upper)| < size
  {
    OverAt(before, Line(value, radix, upper), size);
  }

  /** The printer stays inside the size it was given exactly when the digits leave room for the
      terminator: the cell behind that size is overwritten if and only if they fill it. */
  method PrintsInside(value: uint64, pBuf: array<char>, bufSize: uint64, radix: uint32) returns (ret: int)
    requires bufSize < pBuf.Length && pBuf[bufSize] != NUL && pBuf[bufSize] != '0'
    requires radix == 1 ==> bufSize <= UINT32_MAX
    modifies pBuf
    ensures ret == EOK ==>
      Ends(value, radix) && (pBuf[bufSize] == old(pBuf[bufSize]) <==> |Printed(value, radix, false)| < bufSize)
  {
    ret := Uint64ToStr(value, pBuf, bufSize, radix, null);
    if ret == EOK {
      LineInside(old(pBuf[..]), bufSize, value, radix, false);
      assert pBuf[bufSize] == pBuf[..][bufSize];
    }
  }

  /** Ten, printed into two cells: the terminator lands in the third. */
  method PrintsPastTheEnd(pBuf: array<char>) returns (ret: int)
    requires pBuf.Length == 3
    modifies pBuf
    ensures ret == EOK && pBuf[..] == "10" + [NUL]
  {
    TenIsTwoDigits();
    ret := Uint64ToStr(10, pBuf, 2, 10, null);
  }

  // ---------- ui64ToStr ----------

  const DU_OK: int := 0
  const CONTENT_ERR_INVALID_ARGUMENT: int := 2
  const CONTENT_ERR_BUFFER_TOO_SMALL: int := 4

  /** The two stores for zero; what lies behind the buffer is not described. */
  method PrintZero(buf: array<char>)
    modifies buf
    ensures buf[..] == Over(old(buf[..]), "0" + [NUL])
  {
    if buf.Length > 0 {
      buf[0] := '0';
    }
    if buf.Length > 1 {
      buf[1] := NUL;
    }
  }

  lemma ZeroIsOneDigit(radix: nat, upper: bool)
    requires 1 <= radix <= 16
    ensures Printed(0, radix, upper) == "0"
  {
  }

  /** The same with upper-case digits; zero is written without looking at bufSize or the radix's
      digits, and the loop therefore runs at least once. */
  method Ui64ToStr(value: uint64, pBuf: array<char>, bufSize: uint32, radix: uint32, pSize: Count)
    returns (ret: int)
    requires bufSize <= pBuf.Length
    modifies pBuf, pSize
    ensures ret == if radix > 16 || radix == 0 then CONTENT_ERR_INVALID_ARGUMENT
                   else if value == 0 || (Ends(value, radix) && |Printed(value, radix, true)| <= bufSize) then DU_OK
                   else CONTENT_ERR_BUFFER_TOO_SMALL
    ensures ret == DU_OK ==> pBuf[..] == Over(old(pBuf[..]), Line(value, radix, true))
    ensures ret == DU_OK ==> pSize.value == |Line(value, radix, true)|
    ensures ret != DU_OK ==> pSize.value == old(pSize.value)
    ensures ret == CONTENT_ERR_INVALID_ARGUMENT ==> pBuf[..] == old(pBuf[..])
    ensures ret == CONTENT_ERR_BUFFER_TOO_SMALL ==> pBuf[bufSize..] == old(pBuf[bufSize..])
  {
    if radix > 16 || radix == 0 {
      return CONTENT_ERR_INVALID_ARGUMENT;
    }
    if value == 0 {
      ZeroIsOneDigit(radix, true);
      PrintZero(pBuf);
      pSize.value := 2;
      return DU_OK;
    }
    var ok, len := LowDigits(value, pBuf, bufSize, radix, true);
    if !ok {
      return CONTENT_ERR_BUFFER_TOO_SMALL;
    }
    ReverseFront(pBuf, len);
    assert pBuf[..] == Printed(value, radix, true) + old(pBuf[..])[len..];
    Terminate(pBuf, len, Printed(value, radix, true), old(pBuf[..]));
    pSize.value := len + 1;
    return DU_OK;
  }

  /** The same as PrintsInside for the upper-case printer, where zero needs two cells whatever the size. */
  method PrintsUpperInside(value: uint64, pBuf: array<char>, bufSize: uint32, radix: uint32, pSize: Count)
    returns (ret: int)
    requires bufSize < pBuf.Length && pBuf[bufSize] != NUL && pBuf[bufSize] != '0'
    modifies pBuf, pSize
    ensures ret == DU_OK ==>
      Ends(value, radix) && (pBuf[bufSize] == old(pBuf[bufSize]) <==> |Printed(value, radix, true)| < bufSize)
  {
    ret := Ui64ToStr(value, pBuf, bufSize, radix, pSize);
    if ret == DU_OK {
      LineInside(old(pBuf[..]), bufSize, value, radix, true);
      assert pBuf[bufSize] == pBuf[..][bufSize];
    }
  }

  /** Zero, printed into no cells at all, is no error and takes the two cells behind. */
  method ZeroIgnoresTheSize(pBuf: array<char>, pSize: Count) returns (ret: int)
    requires pBuf.Length == 2
    modifies pBuf, pSize
    ensures ret == DU_OK && pBuf[..] == "0" + [NUL]
  {
    ZeroIsOneDigit(10, true);
    ret := Ui64ToStr(0, pBuf, 0, 10, pSize);
  }
}
