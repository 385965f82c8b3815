/** The hex codec: duHexStrAsByteArray and duU8ArrayToStr. */
module HexText {
  import opened Integers
  import opened Numerals
  import opened NumberReading
  import opened Text

  datatype Rcode = DU_OK | DUCOMMON_ERR_INVALID_ARGUMENT

  const RADIX_HEXADECIMAL: int := 16

  // ---------- decoding ----------

  /** What two characters decode to: a hex digit counts, and so does one after a blank or a plus
      sign; anything else counts as zero, except a negative number. */
  function TokenByte(c0: char, c1: char): Option<byte> {
    var high, low := DigitValue(c0), DigitValue(c1);
    if high < 16 then Some(if low < 16 then 16 * high + low else high)
    else if IsSpace(c0) || c0 == '+' then Some(if low < 16 then low else 0)
    else if c0 == '-' && 0 < low < 16 then None
    else Some(0)
  }

  lemma ShortDigits(u: string)
    requires |u| <= 2
    ensures !HexPrefix(u)
    ensures u == [] || DigitValue(u[0]) >= 16 ==> Span(u, 16) == 0
    ensures |u| == 1 && DigitValue(u[0]) < 16 ==> Span(u, 16) == 1
    ensures |u| == 2 && DigitValue(u[0]) < 16 ==> Span(u, 16) == if DigitValue(u[1]) < 16 then 2 else 1
  {
    if |u| == 2 {
      assert u[1..][1..] == [];
    }
  }

  lemma ShortValues(u: string)
    requires 1 <= |u| <= 2
    ensures ValueOf(u[..1], 16) == DigitValue(u[0])
    ensures |u| == 2 ==> ValueOf(u[..2], 16) == 16 * DigitValue(u[0]) + DigitValue(u[1])
  {
    ValueOfMore([], u[0], 16);
    assert [] + [u[0]] == u[..1];
    if |u| == 2 {
      ValueOfMore(u[..1], u[1], 16);
      assert u[..1] + [u[1]] == u[..2];
    }
  }

  lemma AfterSign(c0: char, c1: char)
    ensures var t := [c0, c1][Spaces([c0, c1])..];
      && Unsigned(t) == (if IsSpace(c0) then if IsSpace(c1) || c1 == '+' || c1 == '-' then "" else [c1]
                         else if c0 == '+' || c0 == '-' then [c1] else [c0, c1])
      && (t != [] && t[0] == '-' <==> c0 == '-' || (IsSpace(c0) && c1 == '-'))
  {
    var s := [c0, c1];
    assert s[1..] == [c1] && s[1..][1..] == [] && s[0..] == s;
  }

  /** strtoul on the two characters, refused when out of a byte's range. */
  lemma TokenMeans(c0: char, c1: char)
    ensures var c := Strtoul([c0, c1], 16);
      TokenByte(c0, c1) == if c.range || c.value > 255 then None else Some(c.value)
  {
    AfterSign(c0, c1);
    var u := Unsigned([c0, c1][Spaces([c0, c1])..]);
    ShortDigits(u);
    if u != [] {
      ShortValues(u);
    }
  }

  method ConvertToken(c0: char, c1: char) returns (ok: bool, tmp: uint64)
    ensures ok <==> TokenByte(c0, c1).Some?
    ensures ok ==> tmp == TokenByte(c0, c1).value
  {
    TokenMeans(c0, c1);
    var utilsTok := [c0, c1];
    var c := Strtoul(utilsTok, 16);
    tmp := c.value;
    ok := !(c.range || tmp > 255);
  }

  function TokenAt(s: string, k: nat): Option<byte>
    requires 2 * k + 1 < |s|
  {
    TokenByte(s[2 * k], s[2 * k + 1])
  }

  predicate Decodable(s: string, n: nat)
    requires 2 * n <= |s|
  {
    forall k :: 0 <= k < n ==> TokenAt(s, k).Some?
  }

  function Decoded(s: string, n: nat): (bytes: seq<byte>)
    requires 2 * n <= |s| && Decodable(s, n)
    ensures |bytes| == n
  {
    seq(n, k requires 0 <= k < n => TokenAt(s, k).value)
  }

  /** At most len bytes are decoded. */
  function Tokens(s: string, len: nat): nat {
    if |s| / 2 < len then |s| / 2 else len
  }

  /** Decodes a terminated string; a failure leaves the array unchanged from the token on. */
  method HexStrAsByteArray(pOutData: array?<byte>, pHexSrc: Option<string>, len: uint32) returns (ret: Rcode)
    requires pOutData != null ==> len <= pOutData.Length
    modifies pOutData
    ensures ret == DU_OK <==>
      && pHexSrc.Some? && |pHexSrc.value| % 2 == 0 && pOutData != null
      && Decodable(pHexSrc.value, Tokens(pHexSrc.value, len))
    ensures ret == DU_OK ==>
      var n := Tokens(pHexSrc.value, len);
      pOutData[..] == Decoded(pHexSrc.value, n) + old(pOutData[n..])
    ensures ret != DU_OK && pOutData != null && pHexSrc.Some? ==>
      forall k :: Tokens(pHexSrc.value, len) <= k < pOutData.Length ==> pOutData[k] == old(pOutData[k])
  {
    if pHexSrc.None? || |pHexSrc.value| % 2 != 0 || pOutData == null {
      return DUCOMMON_ERR_INVALID_ARGUMENT;
    }
    var src, out := pHexSrc.value, pOutData;
    var pPos, count: uint32 := 0, 0;
    while count < len
      invariant count <= len && pPos == 2 * count <= |src|
      invariant Decodable(src, count)
      invariant forall k :: 0 <= k < count ==> out[k] == TokenAt(src, k).value
      invariant forall k :: count <= k < out.Length ==> out[k] == old(out[k])
    {
      if pPos == |src| {
        break;
      }
      var ok, tmp := ConvertToken(src[pPos], src[pPos + 1]);
      if !ok {
        assert TokenAt(src, count).None?;
        return DUCOMMON_ERR_INVALID_ARGUMENT;
      }
      out[count] := tmp;
      pPos := pPos + 2;
      count := count + 1;
    }
    return DU_OK;
  }

  // ---------- encoding ----------

  function HexDigitAt(bytes: seq<byte>, i: nat): char
    requires i < 2 * |bytes|
  {
    if i % 2 == 0 then Digit(bytes[i / 2] / 16, false) else Digit(bytes[i / 2] % 16, false)
  }

  function Encoded(bytes: seq<byte>): (s: string)
    ensures |s| == 2 * |bytes|
  {
    seq(2 * |bytes|, i requires 0 <= i < 2 * |bytes| => HexDigitAt(bytes, i))
  }

  /** Writes two digits per byte and a terminator, or leaves the buffer alone. */
  method U8ArrayToStr(pOutData: array?<char>, outSize: uint32, pArray: array?<byte>, arraySize: uint32)
    returns (ret: Rcode)
    requires pOutData != null ==> outSize <= pOutData.Length
    requires pArray != null ==> arraySize <= pArray.Length
    modifies pOutData
    ensures ret == if pOutData != null && pArray != null && arraySize <= UINT32_MAX / 2 && 2 * arraySize < outSize
                   then DU_OK else DUCOMMON_ERR_INVALID_ARGUMENT
    ensures ret == DU_OK ==>
      pOutData[..] == Encoded(pArray[..arraySize]) + [NUL] + old(pOutData[2 * arraySize + 1..])
    ensures ret != DU_OK && pOutData != null ==> pOutData[..] == old(pOutData[..])
  {
    var value := LOWER_TABLE;
    if pOutData == null || pArray == null {
      return DUCOMMON_ERR_INVALID_ARGUMENT;
    }
    if arraySize > UINT32_MAX / 2 {
      return DUCOMMON_ERR_INVALID_ARGUMENT;
    }
    if arraySize * 2 >= outSize {
      return DUCOMMON_ERR_INVALID_ARGUMENT;
    }
    ghost var bytes := pArray[..arraySize];
    var pos: uint32 := 0;
    var i: uint32 := 0;
    while i < arraySize
      invariant i <= arraySize && pos == 2 * i
      invariant forall k :: 0 <= k < pos ==> pOutData[k] == HexDigitAt(bytes, k)
      invariant forall k :: pos <= k < pOutData.Length ==> pOutData[k] == old(pOutData[k])
    {
      TablesHoldDigits(pArray[i] / RADIX_HEXADECIMAL);
      TablesHoldDigits(pArray[i] % RADIX_HEXADECIMAL);
      pOutData[pos] := value[pArray[i] / RADIX_HEXADECIMAL];
      var tmpPos: uint32 := pos + 1;
      pOutData[tmpPos] := value[pArray[i] % RADIX_HEXADECIMAL];
      pos := tmpPos + 1;
      i := i + 1;
    }
    pOutData[pos] := NUL;
    return DU_OK;
  }

  // ---------- round trips ----------

  lemma HalvesOfByte(bytes: seq<byte>, k: nat)
    requires k < |bytes|
    ensures HexDigitAt(bytes, 2 * k) == Digit(bytes[k] / 16, false)
    ensures HexDigitAt(bytes, 2 * k + 1) == Digit(bytes[k] % 16, false)
  {
    assert (2 * k) / 2 == k == (2 * k + 1) / 2;
  }

  /** Decoding what was encoded gives the bytes back. */
  lemma DecodesEncoded(bytes: seq<byte>)
    ensures Decodable(Encoded(bytes), |bytes|)
    ensures Decoded(Encoded(bytes), |bytes|) == bytes
  {
    var s := Encoded(bytes);
    forall k | 0 <= k < |bytes|
      ensures TokenAt(s, k) == Some(bytes[k])
    {
      HalvesOfByte(bytes, k);
    }
  }

  function LowerChar(c: char): char {
    if 'A' <= c <= 'Z' then c - 'A' + 'a' else c
  }

  function Lowered(s: string): (t: string)
    ensures |t| == |s|
  {
    seq(|s|, i requires 0 <= i < |s| => LowerChar(s[i]))
  }

  lemma LowerDigit(c: char)
    ensures DigitValue(c) < 16 ==> Digit(DigitValue(c), false) == LowerChar(c)
    ensures DigitValue(LowerChar(c)) == DigitValue(c)
  {
  }

  lemma HalvesBack(b: byte, high: nat, low: nat)
    requires b == 16 * high + low && low < 16
    ensures b / 16 == high && b % 16 == low
  {
  }

  lemma ReEncodesToken(s: string, bytes: seq<byte>, k: nat, c0: char, c1: char)
    requires k < |bytes| && |s| == 2 * |bytes| && c0 == s[2 * k] && c1 == s[2 * k + 1]
    requires DigitValue(c0) < 16 && DigitValue(c1) < 16 && TokenByte(c0, c1) == Some(bytes[k])
    ensures HexDigitAt(bytes, 2 * k) == LowerChar(c0) && HexDigitAt(bytes, 2 * k + 1) == LowerChar(c1)
  {
    HalvesOfByte(bytes, k);
    HalvesBack(bytes[k], DigitValue(c0), DigitValue(c1));
    LowerDigit(c0);
    LowerDigit(c1);
  }

  lemma HexStringsReEncode(s: string, n: nat, i: nat)
    requires |s| == 2 * n && i < |s| && Decodable(s, n) && AllDigits(s, 16)
    ensures Encoded(Decoded(s, n))[i] == LowerChar(s[i])
  {
    var k := i / 2;
    assert i == 2 * k || i == 2 * k + 1;
    assert TokenAt(s, k) == Some(Decoded(s, n)[k]);
    ReEncodesToken(s, Decoded(s, n), k, s[2 * k], s[2 * k + 1]);
  }

  lemma EncodedIsHex(bytes: seq<byte>, i: nat)
    requires i < 2 * |bytes|
    ensures DigitValue(Encoded(bytes)[i]) < 16
  {
  }

  /** Encoding what was decoded gives the lower-case form back exactly for hex strings: other
      characters can be decoded too, but not recovered. */
  lemma ReEncodes(s: string, n: nat)
    requires |s| == 2 * n && Decodable(s, n)
    ensures Encoded(Decoded(s, n)) == Lowered(s) <==> AllDigits(s, 16)
  {
    var bytes := Decoded(s, n);
    if AllDigits(s, 16) {
      forall i | 0 <= i < |s|
        ensures Encoded(bytes)[i] == LowerChar(s[i])
      {
        HexStringsReEncode(s, n, i);
      }
    } else {
      var i :| 0 <= i < |s| && DigitValue(s[i]) >= 16;
      LowerDigit(s[i]);
      EncodedIsHex(bytes, i);
      assert Encoded(bytes)[i] != Lowered(s)[i];
    }
  }

  /** A string that is decoded but not recovered: a blank before a digit becomes the byte 5, which is
      written as 05. */
  lemma BlankIsLost(s: string)
    requires s == " 5"
    ensures Decodable(s, 1) && Decoded(s, 1) == [5]
    ensures Encoded([5]) == "05" && Encoded(Decoded(s, 1)) != Lowered(s)
  {
    assert TokenByte(' ', '5') == Some(5);
    HalvesOfByte([5], 0);
    assert Encoded([5])[0] == '0' && Encoded([5])[1] == '5';
    assert Lowered(s)[0] == ' ';
  }
}
