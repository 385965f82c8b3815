/** duCrc32: the table-driven loop is bit-by-bit division, and what the checksum detects. */
module Crc32 {
  import opened Crc32Table
  import opened ShiftRegisters

  const POLYNOMIAL: bv32 := 0xEDB88320
  const BITS_PER_BYTE: nat := 8

  // ---------- reference: bit by bit, section 8 of RFC 1952 ----------

  /** One bit of reflected polynomial division. */
  function BitStep(c: bv32): bv32 {
    if c & 1 == 1 then (c >> 1) ^ POLYNOMIAL else c >> 1
  }

  function ByteStep(c: bv32): bv32 {
    Iterate(BitStep, BITS_PER_BYTE, c)
  }

  function Xor32(a: bv32, b: bv32): bv32 { a ^ b }

  function Xor8(a: bv8, b: bv8): bv8 { a ^ b }

  function Widen(b: bv8): bv32 { b as bv32 }

  /** Bytes are brought in at the low end of a 32-bit register. */
  const CRC: Space<bv32, bv8> := Space(Xor32, 0, Xor8, 0, Widen, ByteStep)

  const ONES: bv32 := 0xFFFFFFFF

  /** The checksum: the register is complemented before and after. */
  function Crc(seed: bv32, s: seq<bv8>): bv32 {
    Checksum(CRC, ONES, seed, s)
  }

  // ---------- the table holds the division of every byte ----------

  lemma EightBits(c: bv32)
    ensures ByteStep(c) == BitStep(BitStep(BitStep(BitStep(BitStep(BitStep(BitStep(BitStep(c))))))))
  {
    var c2 := BitStep(BitStep(c));
    var c4 := BitStep(BitStep(c2));
    var c6 := BitStep(BitStep(c4));
    assert Iterate(BitStep, 8, c) == Iterate(BitStep, 6, c2);
    assert Iterate(BitStep, 6, c2) == Iterate(BitStep, 4, c4);
    assert Iterate(BitStep, 4, c4) == Iterate(BitStep, 2, c6);
    assert Iterate(BitStep, 2, c6) == Iterate(BitStep, 0, BitStep(BitStep(c6)));
  }

  lemma Row0Divides(j: bv8)
    requires j < 16
    ensures Row0(j) == ByteStep(0x00 ^ (j as bv32))
  {
    EightBits(0x00 ^ (j as bv32));
  }

  lemma Row1Divides(j: bv8)
    requires j < 16
    ensures Row1(j) == ByteStep(0x10 ^ (j as bv32))
  {
    EightBits(0x10 ^ (j as bv32));
  }

  lemma Row2Divides(j: bv8)
    requires j < 16
    ensures Row2(j) == ByteStep(0x20 ^ (j as bv32))
  {
    EightBits(0x20 ^ (j as bv32));
  }

  lemma Row3Divides(j: bv8)
    requires j < 16
    ensures Row3(j) == ByteStep(0x30 ^ (j as bv32))
  {
    EightBits(0x30 ^ (j as bv32));
  }

  lemma Row4Divides(j: bv8)
    requires j < 16
    ensures Row4(j) == ByteStep(0x40 ^ (j as bv32))
  {
    EightBits(0x40 ^ (j as bv32));
  }

  lemma Row5Divides(j: bv8)
    requires j < 16
    ensures Row5(j) == ByteStep(0x50 ^ (j as bv32))
  {
    EightBits(0x50 ^ (j as bv32));
  }

  lemma Row6Divides(j: bv8)
    requires j < 16
    ensures Row6(j) == ByteStep(0x60 ^ (j as bv32))
  {
    EightBits(0x60 ^ (j as bv32));
  }

  lemma Row7Divides(j: bv8)
    requires j < 16
    ensures Row7(j) == ByteStep(0x70 ^ (j as bv32))
  {
    EightBits(0x70 ^ (j as bv32));
  }

  lemma Row8Divides(j: bv8)
    requires j < 16
    ensures Row8(j) == ByteStep(0x80 ^ (j as bv32))
  {
    EightBits(0x80 ^ (j as bv32));
  }

  lemma Row9Divides(j: bv8)
    requires j < 16
    ensures Row9(j) == ByteStep(0x90 ^ (j as bv32))
  {
    EightBits(0x90 ^ (j as bv32));
  }

  lemma RowADivides(j: bv8)
    requires j < 16
    ensures RowA(j) == ByteStep(0xA0 ^ (j as bv32))
  {
    EightBits(0xA0 ^ (j as bv32));
  }

  lemma RowBDivides(j: bv8)
    requires j < 16
    ensures RowB(j) == ByteStep(0xB0 ^ (j as bv32))
  {
    EightBits(0xB0 ^ (j as bv32));
  }

  lemma RowCDivides(j: bv8)
    requires j < 16
    ensures RowC(j) == ByteStep(0xC0 ^ (j as bv32))
  {
    EightBits(0xC0 ^ (j as bv32));
  }

  lemma RowDDivides(j: bv8)
    requires j < 16
    ensures RowD(j) == ByteStep(0xD0 ^ (j as bv32))
  {
    EightBits(0xD0 ^ (j as bv32));
  }

  lemma RowEDivides(j: bv8)
    requires j < 16
    ensures RowE(j) == ByteStep(0xE0 ^ (j as bv32))
  {
    EightBits(0xE0 ^ (j as bv32));
  }

  lemma RowFDivides(j: bv8)
    requires j < 16
    ensures RowF(j) == ByteStep(0xF0 ^ (j as bv32))
  {
    EightBits(0xF0 ^ (j as bv32));
  }

  lemma TableDivides(i: bv8)
    ensures Entry(i) == ByteStep(i as bv32)
  {
    var row, j := i >> 4, i & 0xF;
    assert i as bv32 == ((row as bv32) << 4) ^ (j as bv32);
    if row == 0 {
      Row0Divides(j);
    } else if row == 1 {
      Row1Divides(j);
    } else if row == 2 {
      Row2Divides(j);
    } else if row == 3 {
      Row3Divides(j);
    } else if row == 4 {
      Row4Divides(j);
    } else if row == 5 {
      Row5Divides(j);
    } else if row == 6 {
      Row6Divides(j);
    } else if row == 7 {
      Row7Divides(j);
    } else if row == 8 {
      Row8Divides(j);
    } else if row == 9 {
      Row9Divides(j);
    } else if row == 10 {
      RowADivides(j);
    } else if row == 11 {
      RowBDivides(j);
    } else if row == 12 {
      RowCDivides(j);
    } else if row == 13 {
      RowDDivides(j);
    } else if row == 14 {
      RowEDivides(j);
    } else {
      RowFDivides(j);
    }
  }

  // ---------- one bit: linear and invertible ----------

  lemma OddOdd(a: bv32, b: bv32)
    requires a & 1 == 1 && b & 1 == 1
    ensures BitStep(a ^ b) == BitStep(a) ^ BitStep(b)
  {
  }

  lemma OddEven(a: bv32, b: bv32)
    requires a & 1 == 1 && b & 1 == 0
    ensures BitStep(a ^ b) == BitStep(a) ^ BitStep(b)
    ensures BitStep(b ^ a) == BitStep(b) ^ BitStep(a)
  {
  }

  lemma EvenEven(a: bv32, b: bv32)
    requires a & 1 == 0 && b & 1 == 0
    ensures BitStep(a ^ b) == BitStep(a) ^ BitStep(b)
  {
  }

  lemma Parity(a: bv32)
    ensures a & 1 == 0 || a & 1 == 1
  {
  }

  lemma BitLinear(a: bv32, b: bv32)
    ensures BitStep(a ^ b) == BitStep(a) ^ BitStep(b)
  {
    Parity(a);
    Parity(b);
    if a & 1 == 1 && b & 1 == 1 {
      OddOdd(a, b);
    } else if a & 1 == 1 {
      OddEven(a, b);
    } else if b & 1 == 1 {
      OddEven(b, a);
    } else {
      EvenEven(a, b);
    }
  }

  /** The polynomial's top bit makes the step lose nothing. */
  lemma BitKeepsNonzero(a: bv32)
    ensures BitStep(a) == 0 <==> a == 0
  {
  }

  // ---------- the laws of the register ----------

  lemma BitAdditive()
    ensures Additive(BitStep, Xor32)
  {
    forall x, y
      ensures BitStep(Xor32(x, y)) == Xor32(BitStep(x), BitStep(y))
    {
      BitLinear(x, y);
    }
  }

  lemma ByteAdditive()
    ensures Additive(ByteStep, Xor32)
  {
    BitAdditive();
    forall x, y
      ensures ByteStep(Xor32(x, y)) == Xor32(ByteStep(x), ByteStep(y))
    {
      IterateAdditive(BitStep, Xor32, BITS_PER_BYTE, x, y);
    }
  }

  lemma ByteNonzero()
    ensures KeepsNonzero(ByteStep, 0)
  {
    assert KeepsNonzero(BitStep, 0) by {
      forall x ensures BitStep(x) == 0 <==> x == 0 {
        BitKeepsNonzero(x);
      }
    }
    forall x ensures ByteStep(x) == 0 <==> x == 0 {
      IterateKeepsNonzero(BitStep, 0, BITS_PER_BYTE, x);
    }
  }

  lemma XorZero(x: bv32, y: bv32)
    ensures x ^ y == 0 <==> x == y
    ensures x ^ 0 == x && 0 ^ x == x
  {
  }

  lemma XorCommutes(x: bv32, y: bv32)
    ensures x ^ y == y ^ x
  {
  }

  lemma XorAssociates(x: bv32, y: bv32, z: bv32)
    ensures (x ^ y) ^ z == x ^ (y ^ z)
  {
  }

  lemma ByteXorLaws(a: bv8, b: bv8)
    ensures a ^ b == 0 <==> a == b
    ensures a ^ 0 == a && 0 ^ a == a
    ensures (a ^ b) as bv32 == (a as bv32) ^ (b as bv32)
  {
  }

  lemma XorSelfInverse()
    ensures SelfInverse(Xor32, 0)
  {
    forall x, y
      ensures Xor32(x, y) == 0 <==> x == y
      ensures Xor32(x, 0) == x && Xor32(0, x) == x
    {
      XorZero(x, y);
    }
  }

  lemma XorIsCommutative()
    ensures Commutes(Xor32)
  {
    forall x, y
      ensures Xor32(x, y) == Xor32(y, x)
    {
      XorCommutes(x, y);
    }
  }

  lemma XorIsAssociative()
    ensures Associates(Xor32)
  {
    forall x, y, z
      ensures Xor32(Xor32(x, y), z) == Xor32(x, Xor32(y, z))
    {
      XorAssociates(x, y, z);
    }
  }

  lemma XorMedial()
    ensures Medial(Xor32)
  {
    XorIsCommutative();
    XorIsAssociative();
    MedialOfGroup(Xor32);
  }

  lemma ByteXorSelfInverse()
    ensures SelfInverse(Xor8, 0)
  {
    forall a, b
      ensures Xor8(a, b) == 0 <==> a == b
      ensures Xor8(a, 0) == a && Xor8(0, a) == a
    {
      ByteXorLaws(a, b);
    }
  }

  lemma WidenEmbeds()
    ensures Embeds(Widen, Xor8, Xor32)
  {
    forall a, b
      ensures Widen(Xor8(a, b)) == Xor32(Widen(a), Widen(b))
    {
      ByteXorLaws(a, b);
    }
  }

  lemma CrcLaws()
    ensures Laws(CRC)
  {
    ByteAdditive();
    ByteNonzero();
    XorSelfInverse();
    XorMedial();
    ByteXorSelfInverse();
    WidenEmbeds();
  }

  // ---------- the table loop is the bit-by-bit division ----------

  lemma IterateOnce<R>(f: R -> R, n: nat, x: R, y: R, z: R)
    requires f(x) == y
    requires Iterate(f, n, y) == z
    ensures Iterate(f, n + 1, x) == z
  {
  }

  /** h moved up by n bits. */
  function Up(n: nat, h: bv32): bv32
    requires n <= 8
  {
    if n == 0 then h else if n == 1 then h << 1 else if n == 2 then h << 2 else if n == 3 then h << 3
    else if n == 4 then h << 4 else if n == 5 then h << 5 else if n == 6 then h << 6 else if n == 7 then h << 7
    else h << 8
  }

  lemma Down1(h: bv32)
    requires h <= 0xFFFFFF
    ensures BitStep(h << 1) == h
  {
  }

  lemma Down2(h: bv32)
    requires h <= 0xFFFFFF
    ensures BitStep(h << 2) == h << 1
  {
  }

  lemma Down3(h: bv32)
    requires h <= 0xFFFFFF
    ensures BitStep(h << 3) == h << 2
  {
  }

  lemma Down4(h: bv32)
    requires h <= 0xFFFFFF
    ensures BitStep(h << 4) == h << 3
  {
  }

  lemma Down5(h: bv32)
    requires h <= 0xFFFFFF
    ensures BitStep(h << 5) == h << 4
  {
  }

  lemma Down6(h: bv32)
    requires h <= 0xFFFFFF
    ensures BitStep(h << 6) == h << 5
  {
  }

  lemma Down7(h: bv32)
    requires h <= 0xFFFFFF
    ensures BitStep(h << 7) == h << 6
  {
  }

  lemma Down8(h: bv32)
    requires h <= 0xFFFFFF
    ensures BitStep(h << 8) == h << 7
  {
  }

  lemma Down(n: nat, h: bv32)
    requires h <= 0xFFFFFF && 1 <= n <= 8
    ensures BitStep(Up(n, h)) == Up(n - 1, h)
  {
    if n == 1 {
      Down1(h);
    } else if n == 2 {
      Down2(h);
    } else if n == 3 {
      Down3(h);
    } else if n == 4 {
      Down4(h);
    } else if n == 5 {
      Down5(h);
    } else if n == 6 {
      Down6(h);
    } else if n == 7 {
      Down7(h);
    } else {
      Down8(h);
    }
  }

  /** Dividing by n bits undoes moving up by n bits. */
  lemma {:induction false} Undo(n: nat, h: bv32)
    requires h <= 0xFFFFFF && n <= 8
    ensures Iterate(BitStep, n, Up(n, h)) == h
  {
    if n > 0 {
      Down(n, h);
      Undo(n - 1, h);
      IterateOnce(BitStep, n - 1, Up(n, h), Up(n - 1, h), h);
    }
  }

  lemma HighPartShifts(h: bv32)
    requires h <= 0xFFFFFF
    ensures ByteStep(h << 8) == h
  {
    Undo(8, h);
  }

  lemma SplitWord(c: bv32, b: bv8)
    ensures Xor32(c, Widen(b)) == Xor32(Xor32(c, Widen(b)) & 0xFF, (c >> 8) << 8)
  {
  }

  lemma ThreeBytes(c: bv32)
    ensures c >> 8 <= 0xFFFFFF
  {
  }

  lemma FeedByParts(c: bv32, b: bv8, low: bv32, high: bv32, down: bv32)
    requires Xor32(c, Widen(b)) == Xor32(low, high) && ByteStep(high) == down
    ensures Feed(CRC, c, b) == Xor32(ByteStep(low), down)
  {
    CrcLaws();
    FeedInParts(CRC, c, b, low, high, down);
  }

  lemma LowAndHigh(c: bv32, b: bv8, down: bv32)
    requires ByteStep((c >> 8) << 8) == down
    ensures Feed(CRC, c, b) == Xor32(ByteStep(Xor32(c, Widen(b)) & 0xFF), down)
  {
    SplitWord(c, b);
    FeedByParts(c, b, Xor32(c, Widen(b)) & 0xFF, (c >> 8) << 8, down);
  }

  /** One turn of the loop in the table's terms. */
  lemma FeedByTable(c: bv32, b: bv8)
    ensures Feed(CRC, c, b) == Xor32(ByteStep(Xor32(c, Widen(b)) & 0xFF), c >> 8)
  {
    ThreeBytes(c);
    HighPartShifts(c >> 8);
    LowAndHigh(c, b, c >> 8);
  }

  lemma LowByte(x: bv32)
    ensures x & 0xFF < 256 && Widen((x & 0xFF) as bv8) == x & 0xFF
  {
  }

  /** One table look-up. */
  method LookUp(i: bv8) returns (e: bv32)
    ensures e == ByteStep(Widen(i))
  {
    e := Entry(i);
    TableDivides(i);
  }

  /** One turn of the loop: a byte is brought in and divided out. */
  method Turn(finalCrc: bv32, b: bv8) returns (next: bv32)
    ensures next == Feed(CRC, finalCrc, b)
  {
    var x := Xor32(finalCrc, Widen(b));
    LowByte(x);
    var e := LookUp((x & 0xFF) as bv8);
    next := Xor32(e, finalCrc >> 8);
    FeedByTable(finalCrc, b);
  }

  /** duCrc32 equals the bit-by-bit definition on every seed and buffer. */
  method DuCrc32(seed: bv32, buffer: array<bv8>) returns (crc: bv32)
    ensures crc == Crc(seed, buffer[..])
  {
    var finalCrc := seed ^ 0xFFFFFFFF;
    var p, bufferSize := 0, buffer.Length;
    while bufferSize != 0
      invariant 0 <= p && 0 <= bufferSize && p + bufferSize == buffer.Length
      invariant Register(CRC, finalCrc, buffer[p..]) == Register(CRC, seed ^ 0xFFFFFFFF, buffer[..])
    {
      assert buffer[p..][1..] == buffer[p + 1..];
      finalCrc := Turn(finalCrc, buffer[p]);
      p := p + 1;
      bufferSize := bufferSize - 1;
    }
    crc := finalCrc ^ 0xFFFFFFFF;
  }

  // ---------- chaining and linearity ----------

  /** The checksum of a, given as the seed for b, is the checksum of a followed by b. */
  lemma ChecksumChains(seed: bv32, a: seq<bv8>, b: seq<bv8>)
    ensures Crc(Crc(seed, a), b) == Crc(seed, a + b)
  {
    CrcLaws();
    ChecksumConcat(CRC, ONES, seed, a, b);
  }

  /** The checksums of two equal-length buffers differ by the division of their difference,
      whatever the seed. */
  lemma ChecksumDifference(seed: bv32, a: seq<bv8>, b: seq<bv8>)
    requires |a| == |b|
    ensures Crc(seed, a) ^ Crc(seed, b) == Register(CRC, 0, Sum(CRC, a, b))
  {
    CrcLaws();
    ChecksumDiffer(CRC, ONES, seed, a, b);
  }

  lemma CrcAdditive(seed: bv32, a: seq<bv8>, b: seq<bv8>, zeros: seq<bv8>)
    requires |a| == |b| == |zeros| && forall i :: 0 <= i < |zeros| ==> zeros[i] == 0
    ensures Crc(seed, Sum(CRC, a, b)) == CRC.plus(CRC.plus(Crc(seed, a), Crc(seed, b)), Crc(seed, zeros))
  {
    CrcLaws();
    ChecksumAdditive(CRC, ONES, seed, a, b, zeros);
  }

  /** Linear over xor up to the checksum of zeros. */
  lemma ChecksumLinear(seed: bv32, a: seq<bv8>, b: seq<bv8>, zeros: seq<bv8>)
    requires |a| == |b| == |zeros| && forall i :: 0 <= i < |zeros| ==> zeros[i] == 0
    ensures Crc(seed, Sum(CRC, a, b)) == (Crc(seed, a) ^ Crc(seed, b)) ^ Crc(seed, zeros)
  {
    CrcAdditive(seed, a, b, zeros);
  }

  // ---------- burst detection ----------

  /** A register value below 2^24 tells what the register was before its last byte. */
  lemma Unfeed(c: bv32, b: bv8, r: bv32)
    requires Feed(CRC, c, b) == r && r <= 0xFFFFFF
    ensures c == (r << 8) ^ (b as bv32)
  {
    CrcLaws();
    HighPartShifts(r);
    Unfed(CRC, c, b, r << 8);
  }

  lemma SmallWords(w1: bv8, w2: bv8, w3: bv8)
    ensures (0 << 8) ^ (w3 as bv32) <= 0xFFFFFF
    ensures (((0 << 8) ^ (w3 as bv32)) << 8) ^ (w2 as bv32) <= 0xFFFFFF
    ensures (((((0 << 8) ^ (w3 as bv32)) << 8) ^ (w2 as bv32)) << 8) ^ (w1 as bv32) <= 0xFFFFFF
  {
  }

  lemma ZeroWord(w0: bv8, w1: bv8, w2: bv8, w3: bv8)
    requires
      0 == ((((((((0 as bv32) << 8) ^ (w3 as bv32)) << 8) ^ (w2 as bv32)) << 8) ^ (w1 as bv32)) << 8) ^ (w0 as bv32)
    ensures w0 == 0 && w1 == 0 && w2 == 0 && w3 == 0
  {
  }

  lemma FourByteWindow(w: seq<bv8>)
    requires |w| == 4 && Register(CRC, 0, w) == 0
    ensures w[0] == 0 && w[1] == 0 && w[2] == 0 && w[3] == 0
  {
    var r1 := Feed(CRC, 0, w[0]);
    var r2 := Feed(CRC, r1, w[1]);
    var r3 := Feed(CRC, r2, w[2]);
    RegisterFour(CRC, 0, w, r1, r2, r3);
    SmallWords(w[1], w[2], w[3]);
    Unfeed(r3, w[3], 0);
    Unfeed(r2, w[2], r3);
    Unfeed(r1, w[1], r2);
    Unfeed(0, w[0], r1);
    ZeroWord(w[0], w[1], w[2], w[3]);
  }

  lemma CrcWindow()
    ensures WindowLaw(CRC, 4)
  {
    forall w: seq<bv8> | |w| == 4 && Register(CRC, CRC.zero, w) == CRC.zero
      ensures AllZero(CRC, w)
    {
      FourByteWindow(w);
    }
  }

  /** Buffers of equal length that differ, with every difference inside four consecutive bytes,
      never get the same checksum for the same seed. */
  lemma BurstIsDetected(seed: bv32, a: seq<bv8>, b: seq<bv8>, k: nat)
    requires |a| == |b| && a != b
    requires forall i :: 0 <= i < |a| && !(k <= i < k + 4) ==> a[i] == b[i]
    ensures Crc(seed, a) != Crc(seed, b)
  {
    var m :| 0 <= m < |a| && a[m] != b[m];
    CrcLaws();
    CrcWindow();
    BurstDetected(CRC, 4, Xor32(seed, ONES), a, b, k, m);
    ChecksumTells(CRC, ONES, seed, a, b);
  }

  // ---------- the value of the checksum ----------

  /** One turn of the loop with its table index and the register after it. */
  lemma FedByte(c: bv32, b: bv8, low: bv32, i: bv8, e: bv32, next: bv32)
    requires low == Xor32(c, Widen(b)) & 0xFF && low == Widen(i) && e == Entry(i) && next == Xor32(e, c >> 8)
    ensures Feed(CRC, c, b) == next
  {
    FeedByTable(c, b);
    TableDivides(i);
  }

  lemma Digits1To3(s: seq<bv8>)
    ensures Register(CRC, 0xFFFFFFFF, [0x31, 0x32, 0x33] + s) == Register(CRC, 0x77B79C2D, s)
  {
    FedByte(0xFFFFFFFF, 0x31, 0xCE, 0xCE, 0x7CDCEFB7, 0x7C231048);
    FedByte(0x7C231048, 0x32, 0x7A, 0x7A, 0xB0D09822, 0xB0ACBB32);
    FedByte(0xB0ACBB32, 0x33, 0x01, 0x01, 0x77073096, 0x77B79C2D);
    RegisterThree(CRC, 0xFFFFFFFF, 0x31, 0x32, 0x33, s, 0x7C231048, 0xB0ACBB32, 0x77B79C2D);
  }

  lemma Digits4To6(s: seq<bv8>)
    ensures Register(CRC, 0x77B79C2D, [0x34, 0x35, 0x36] + s) == Register(CRC, 0xF68D2C9E, s)
  {
    FedByte(0x77B79C2D, 0x34, 0x19, 0x19, 0x646BA8C0, 0x641C1F5C);
    FedByte(0x641C1F5C, 0x35, 0x69, 0x69, 0x346ED9FC, 0x340AC5E3);
    FedByte(0x340AC5E3, 0x36, 0xD5, 0xD5, 0xF6B9265B, 0xF68D2C9E);
    RegisterThree(CRC, 0x77B79C2D, 0x34, 0x35, 0x36, s, 0x641C1F5C, 0x340AC5E3, 0xF68D2C9E);
  }

  lemma Digits7To9(s: seq<bv8>)
    ensures Register(CRC, 0xF68D2C9E, [0x37, 0x38, 0x39] + s) == Register(CRC, 0x340BC6D9, s)
  {
    FedByte(0xF68D2C9E, 0x37, 0xA9, 0xA9, 0xAF0A1B4C, 0xAFFC9660);
    FedByte(0xAFFC9660, 0x38, 0x58, 0x58, 0x65B0D9C6, 0x651F2550);
    FedByte(0x651F2550, 0x39, 0x69, 0x69, 0x346ED9FC, 0x340BC6D9);
    RegisterThree(CRC, 0xF68D2C9E, 0x37, 0x38, 0x39, s, 0xAFFC9660, 0x651F2550, 0x340BC6D9);
  }

  lemma CheckComplements()
    ensures Xor32(0, ONES) == 0xFFFFFFFF && Xor32(0x340BC6D9, ONES) == 0xCBF43926
  {
  }

  /** The check value of the checksum, that of the text "123456789". */
  lemma CheckValue(s: seq<bv8>)
    requires s == [0x31, 0x32, 0x33, 0x34, 0x35, 0x36, 0x37, 0x38, 0x39]
    ensures Crc(0, s) == 0xCBF43926
  {
    var last := [0x37, 0x38, 0x39] + [];
    var later := [0x34, 0x35, 0x36] + last;
    assert s == [0x31, 0x32, 0x33] + later;
    CheckComplements();
    Digits1To3(later);
    Digits4To6(last);
    Digits7To9([]);
    assert Register(CRC, 0xFFFFFFFF, s) == 0x340BC6D9;
  }

  /** The n lowest bytes of a word, low byte first. */
  function LowBytes(w: bv32, n: nat): (s: seq<bv8>)
    ensures |s| == n
  {
    if n == 0 then [] else [(w & 0xFF) as bv8] + LowBytes(w >> 8, n - 1)
  }

  function WithoutLow(w: bv32): bv32 { w >> 8 }

  lemma FourBytesAreAll(w: bv32)
    ensures (((w >> 8) >> 8) >> 8) >> 8 == 0
  {
  }

  lemma LowestByte(w: bv32)
    ensures w == Xor32(Widen((w & 0xFF) as bv8), WithoutLow(w) << 8)
  {
  }

  lemma RestMovesDown(w: bv32)
    ensures ByteStep(WithoutLow(w) << 8) == WithoutLow(w)
  {
    ThreeBytes(w);
    HighPartShifts(WithoutLow(w));
  }

  /** A word is its low byte and something that one step moves to its other bytes. */
  lemma NextByte(w: bv32) returns (up: bv32)
    ensures w == Xor32(Widen((w & 0xFF) as bv8), up) && ByteStep(up) == WithoutLow(w)
  {
    up := WithoutLow(w) << 8;
    LowestByte(w);
    RestMovesDown(w);
  }

  /** Bringing in a word low byte first divides it as a whole. */
  lemma {:induction false} BytesDivided(c: bv32, w: bv32, n: nat)
    requires Iterate(WithoutLow, n, w) == 0
    ensures Register(CRC, c, LowBytes(w, n)) == Iterate(ByteStep, n, Xor32(c, w))
    decreases n
  {
    if n == 0 {
      XorZero(c, 0);
    } else {
      var b, rest := (w & 0xFF) as bv8, WithoutLow(w);
      var up := NextByte(w);
      CrcLaws();
      BytesDivided(Feed(CRC, c, b), rest, n - 1);
      FeedRest(CRC, c, w, b, up, rest);
      RegisterOne(CRC, c, b, LowBytes(rest, n - 1), Feed(CRC, c, b));
    }
  }

  lemma WordDivided(c: bv32, w: bv32)
    ensures Register(CRC, c, LowBytes(w, 4)) == Iterate(ByteStep, 4, Xor32(c, w))
  {
    FourTimes(WithoutLow, w);
    FourBytesAreAll(w);
    BytesDivided(c, w, 4);
  }

  lemma ByteStepIs(c: bv32, i: bv8, next: bv32)
    requires c & 0xFF == Widen(i) && next == Xor32(Entry(i), c >> 8)
    ensures ByteStep(c) == next
  {
    XorZero(c, 0);
    FedByte(c, 0, c & 0xFF, i, Entry(i), next);
  }

  lemma OnesHalfDivided()
    ensures ByteStep(ByteStep(ONES)) == 0xBE26ED00
  {
    ByteStepIs(0xFFFFFFFF, 0xFF, 0x2DFD1072);
    ByteStepIs(0x2DFD1072, 0x72, 0xBE26ED00);
  }

  lemma OnesDivided()
    ensures Iterate(ByteStep, 4, ONES) == 0xDEBB20E3
  {
    OnesHalfDivided();
    ByteStepIs(0xBE26ED00, 0x00, 0x00BE26ED);
    ByteStepIs(0x00BE26ED, 0xED, 0xDEBB20E3);
    FourTimes(ByteStep, ONES);
  }

  /** A buffer followed by four bytes has the checksum 0x2144DF1C if and only if these are the buffer's own
      checksum, low byte first, whatever the seed. */
  lemma Residue(seed: bv32, s: seq<bv8>, w: bv32)
    ensures Crc(seed, s + LowBytes(w, 4)) == 0x2144DF1C <==> w == Crc(seed, s)
  {
    CrcLaws();
    forall c
      ensures Register(CRC, c, LowBytes(w, 4)) == Iterate(CRC.step, 4, CRC.plus(c, w))
    {
      WordDivided(c, w);
    }
    ResidueTells(CRC, ONES, seed, s, LowBytes(w, 4), w, 4);
    OnesDivided();
    assert Xor32(0xDEBB20E3, ONES) == 0x2144DF1C;
  }
}
