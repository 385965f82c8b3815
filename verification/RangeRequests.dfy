/** constructRange, and what the text it builds selects by section 14.1.2 of RFC 9110. */
module RangeRequests {
  import opened Integers
  import opened Numerals
  import opened NumberText
  import opened Paths
  import opened Text

  const REMOTE_SIZE_MAX: nat := 100

  datatype RangeResult = RangeOk | InvalidArgument | GenericError

  // ---------- the text ----------

  /** The unsigned difference, wrapping below zero. */
  function LastByte(start: nat, block: nat): uint64 {
    (start + block + UINT64_MAX) % (UINT64_MAX + 1)
  }

  /** An open range when it would reach the end of the file, a closed one otherwise. */
  function RangeText(start: nat, block: nat, fileSize: nat): string {
    Numeral(start, 10, true) + "-" + if start + block < fileSize then Numeral(LastByte(start, block), 10, true) else ""
  }

  lemma TwentyDigits(value: uint64)
    ensures |Numeral(value, 10, true)| <= 20
  {
    assert Power(10, 2) == 100;
    PowerAdds(10, 2, 2);
    PowerAdds(10, 4, 1);
    assert Power(10, 1) == 10;
    PowerAdds(10, 5, 5);
    PowerAdds(10, 10, 10);
    NumeralLength(value, 10, true, 20);
  }

  lemma NoTerminatorInside(value: nat)
    ensures NUL !in Numeral(value, 10, true)
  {
    NumeralDigits(value, 10, true);
    assert DigitValue(NUL) == 16;
  }

  /** Appends at most n characters to a terminated string that leaves room for them. */
  method Strncat(dst: array<char>, ghost done: string, src: string, n: nat, ghost before: string)
    requires Holds(dst[..], done, before) && NUL !in done
    requires |done| + |Take(src, n)| < dst.Length
    modifies dst
    ensures Holds(dst[..], done + Take(src, n), before)
  {
    ghost var start := dst[..];
    StrLenIs(start, done);
    assert start[..|done|] == done;
    CopyIn(dst, StrLen(dst[..]), Take(src, n));
    HoldsMore(dst[..], done, Take(src, n), before, start);
  }

  /** Prints a number into a buffer of the fixed size. */
  method PrintDecimal(value: uint64, buf: array<char>)
    requires buf.Length == REMOTE_SIZE_MAX
    modifies buf
    ensures Holds(buf[..], Numeral(value, 10, true), old(buf[..]))
    ensures |Numeral(value, 10, true)| <= 20 && NUL !in Numeral(value, 10, true)
  {
    var numSize := new Count(0);
    TwentyDigits(value);
    NoTerminatorInside(value);
    var ret := Ui64ToStr(value, buf, REMOTE_SIZE_MAX, 10, numSize);
  }

  /** Appends the last position of a closed range. */
  method AppendLast(start: array<char>, ghost done: string, last: uint64, ghost before: string)
    requires start.Length == REMOTE_SIZE_MAX && Holds(start[..], done, before) && NUL !in done && |done| <= 21
    modifies start
    ensures Holds(start[..], done + Numeral(last, 10, true), before)
  {
    var end := new char[REMOTE_SIZE_MAX](_ => NUL);
    ghost var blank := end[..];
    PrintDecimal(last, end);
    StrLenIs(end[..], Numeral(last, 10, true));
    StrLenIs(start[..], done);
    var endText := end[..StrLen(end[..])];
    assert endText == Numeral(last, 10, true);
    Strncat(start, done, endText, REMOTE_SIZE_MAX - StrLen(start[..]) - 1, before);
  }

  /** The range text, or a refusal when its end does not fit 64 bits. */
  method ConstructRange(startOffset: uint64, blockSize: uint64, fileSize: uint64, pRange: array?<char>)
    returns (ret: RangeResult)
    requires pRange != null ==> pRange.Length >= REMOTE_SIZE_MAX
    modifies pRange
    ensures ret == if pRange == null then InvalidArgument
                   else if startOffset + blockSize > UINT64_MAX then GenericError else RangeOk
    ensures ret == RangeOk ==> Holds(pRange[..], RangeText(startOffset, blockSize, fileSize), old(pRange[..]))
    ensures ret == GenericError ==> pRange[..] == old(pRange[..])
  {
    if pRange == null {
      return InvalidArgument;
    }
    var start := new char[REMOTE_SIZE_MAX](_ => NUL);
    ghost var blank := start[..];
    PrintDecimal(startOffset, start);
    Strncat(start, Numeral(startOffset, 10, true), "-", REMOTE_SIZE_MAX - 1, blank);
    ghost var text := Numeral(startOffset, 10, true) + "-";
    var added, result := AddU64(startOffset, blockSize, 0);
    if !added {
      return GenericError;
    }
    if result < fileSize {
      var last := LastByte(startOffset, blockSize);
      AppendLast(start, text, last, blank);
      NoTerminatorInside(last);
      TwentyDigits(last);
      text := text + Numeral(last, 10, true);
    }
    assert text == RangeText(startOffset, blockSize, fileSize);
    StrLenIs(start[..], text);
    var source := start[..StrLen(start[..])];
    assert source == text;
    var wanted := Strlcpy(pRange, source, REMOTE_SIZE_MAX);
    return RangeOk;
  }

  // ---------- what a range text selects ----------

  predicate Digits(s: string) {
    s != "" && forall i :: 0 <= i < |s| ==> DigitValue(s[i]) < 10
  }

  /** The half-open interval of a file of n bytes that one byte range selects; none when the range
      is malformed or cannot be satisfied. */
  function Selected(text: string, n: nat): Option<(nat, nat)> {
    match FindFirst(text, "-", 0)
    case None => None
    case Some(i) => SelectedBy(text[..i], text[i + 1..], n)
  }

  /** The same, from the parts before and behind the dash. */
  function SelectedBy(first: string, last: string, n: nat): Option<(nat, nat)> {
    if first == "" then Suffix(last, n)
    else if !Digits(first) || ValueOf(first, 10) >= n then None
    else if last == "" then Some((ValueOf(first, 10), n))
    else if !Digits(last) || ValueOf(last, 10) < ValueOf(first, 10) then None
    else Some((ValueOf(first, 10), Min(ValueOf(last, 10) + 1, n)))
  }

  /** The last bytes of the file. */
  function Suffix(last: string, n: nat): Option<(nat, nat)> {
    if !Digits(last) || ValueOf(last, 10) == 0 || n == 0 then None
    else Some((if ValueOf(last, 10) < n then n - ValueOf(last, 10) else 0, n))
  }

  function Min(a: nat, b: nat): nat {
    if a < b then a else b
  }

  lemma DashAfterDigits(first: string, last: string)
    requires Digits(first)
    ensures FindFirst(first + "-" + last, "-", 0) == Some(|first|)
  {
    var text := first + "-" + last;
    assert OccursAt(text, "-", |first|);
    forall i: nat | i < |first|
      ensures !OccursAt(text, "-", i)
    {
      assert text[i] == first[i] && DigitValue('-') == 16;
      assert text[i..i + 1][0] == text[i];
    }
  }

  lemma NumeralIsDigits(value: nat)
    ensures Digits(Numeral(value, 10, true)) && ValueOf(Numeral(value, 10, true), 10) == value
  {
    NumeralDigits(value, 10, true);
    NumeralDenotes(value, 10, true);
  }

  lemma SelectedParts(first: string, last: string, n: nat)
    requires Digits(first)
    ensures Selected(first + "-" + last, n) == SelectedBy(first, last, n)
  {
    DashAfterDigits(first, last);
    var text := first + "-" + last;
    assert text[..|first|] == first;
    assert text[|first| + 1..] == last;
  }

  /** The request selects exactly the bytes from start up to start + block or the end of the file,
      also when the size that was reported is larger than the file. */
  lemma RangeSelects(start: nat, block: nat, reported: nat, n: nat)
    requires start < n <= reported && block >= 1 && start + block <= UINT64_MAX
    ensures Selected(RangeText(start, block, reported), n) == Some((start, Min(start + block, n)))
  {
    var first := Numeral(start, 10, true);
    NumeralIsDigits(start);
    if start + block < reported {
      assert LastByte(start, block) == start + block - 1;
      NumeralIsDigits(start + block - 1);
      SelectedParts(first, Numeral(start + block - 1, 10, true), n);
    } else {
      SelectedParts(first, "", n);
    }
  }

  lemma EmptyBlock(start: nat, reported: nat, n: nat)
    requires start < n <= reported <= UINT64_MAX
    ensures Selected(RangeText(start, 0, reported), n) == if start == 0 then Some((0, n)) else None
  {
    var last := if start == 0 then UINT64_MAX else start - 1;
    assert LastByte(start, 0) == last;
    NumeralIsDigits(start);
    NumeralIsDigits(last);
    SelectedParts(Numeral(start, 10, true), Numeral(last, 10, true), n);
  }

  /** The request selects what was asked exactly when the block is not empty: the end of an empty
      block at the start of the file wraps around, and the whole file is asked for. */
  lemma RangeExactly(start: nat, block: nat, reported: nat, n: nat)
    requires start < n <= reported <= UINT64_MAX && start + block <= UINT64_MAX
    ensures Selected(RangeText(start, block, reported), n) == Some((start, Min(start + block, n))) <==> block >= 1
  {
    if block >= 1 {
      RangeSelects(start, block, reported, n);
    } else {
      EmptyBlock(start, reported, n);
    }
  }

  lemma BeyondTheEnd(start: nat, block: nat, reported: nat, n: nat)
    requires n <= start
    ensures Selected(RangeText(start, block, reported), n) == None
  {
    NumeralIsDigits(start);
    var first := Numeral(start, 10, true);
    var last := if start + block < reported then Numeral(LastByte(start, block), 10, true) else "";
    SelectedParts(first, last, n);
  }

  lemma RangeTextIsPlain(start: nat, block: nat, fileSize: nat)
    ensures NUL !in RangeText(start, block, fileSize)
  {
    NoTerminatorInside(start);
    NoTerminatorInside(LastByte(start, block));
  }

  // ---------- requests one after the other ----------

  function Total(blocks: seq<nat>): nat {
    if blocks == [] then 0 else blocks[0] + Total(blocks[1..])
  }

  /** What a server that follows the standard sends for one request. */
  function Sent(source: seq<byte>, text: string): (s: seq<byte>) {
    var sel := Selected(text, |source|);
    if sel.Some? && sel.value.0 <= sel.value.1 <= |source| then source[sel.value.0..sel.value.1] else []
  }

  /** The answers to requests each of which starts where the one before ended; past the end of the
      file no request is made. */
  function InTurn(answer: (nat, nat) -> seq<byte>, n: nat, start: nat, blocks: seq<nat>): seq<byte>
    decreases |blocks|
  {
    if blocks == [] || start >= n then []
    else answer(start, blocks[0]) + InTurn(answer, n, start + blocks[0], blocks[1..])
  }

  lemma Adjacent(source: seq<byte>, a: nat, b: nat, c: nat)
    requires a <= b <= c <= |source|
    ensures source[a..b] + source[b..c] == source[a..c]
  {
  }

  ghost predicate AnswersExactly(answer: (nat, nat) -> seq<byte>, source: seq<byte>) {
    forall start: nat, block: nat | start < |source| && block >= 1 && start + block <= UINT64_MAX ::
      answer(start, block) == source[start..Min(start + block, |source|)]
  }

  lemma {:induction false} ExactAnswersTile(answer: (nat, nat) -> seq<byte>, source: seq<byte>,
      start: nat, blocks: seq<nat>)
    requires AnswersExactly(answer, source)
    requires start + Total(blocks) <= UINT64_MAX && start <= |source|
    requires forall i :: 0 <= i < |blocks| ==> blocks[i] >= 1
    ensures InTurn(answer, |source|, start, blocks) == source[start..Min(start + Total(blocks), |source|)]
    decreases |blocks|
  {
    if blocks != [] && start < |source| {
      var rest, next := blocks[1..], start + blocks[0];
      if next <= |source| {
        ExactAnswersTile(answer, source, next, rest);
        Adjacent(source, start, next, Min(next + Total(rest), |source|));
      } else {
        assert InTurn(answer, |source|, next, rest) == [];
      }
    }
  }

  /** The text of each request, and what the server sends for it. */
  function AnswerFrom(source: seq<byte>): (nat, nat) -> seq<byte> {
    (start: nat, block: nat) => Sent(source, RangeText(start, block, |source|))
  }

  lemma ServerAnswers(source: seq<byte>, start: nat, block: nat)
    requires start < |source| <= UINT64_MAX && block >= 1 && start + block <= UINT64_MAX
    ensures AnswerFrom(source)(start, block) == source[start..Min(start + block, |source|)]
  {
    var text := RangeText(start, block, |source|);
    RangeSelects(start, block, |source|, |source|);
    assert AnswerFrom(source)(start, block) == Sent(source, text);
  }

  lemma ServerAnswersExactly(source: seq<byte>)
    requires |source| <= UINT64_MAX
    ensures AnswersExactly(AnswerFrom(source), source)
  {
    forall start: nat, block: nat | start < |source| && block >= 1 && start + block <= UINT64_MAX
      ensures AnswerFrom(source)(start, block) == source[start..Min(start + block, |source|)]
    {
      ServerAnswers(source, start, block);
    }
  }

  /** Successive requests cover the file once, without gap or overlap. */
  lemma RequestsTile(source: seq<byte>, start: nat, blocks: seq<nat>)
    requires start + Total(blocks) <= UINT64_MAX && start <= |source| <= UINT64_MAX
    requires forall i :: 0 <= i < |blocks| ==> blocks[i] >= 1
    ensures InTurn(AnswerFrom(source), |source|, start, blocks) == source[start..Min(start + Total(blocks), |source|)]
  {
    ServerAnswersExactly(source);
    ExactAnswersTile(AnswerFrom(source), source, start, blocks);
  }
}
