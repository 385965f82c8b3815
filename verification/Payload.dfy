/** The binary payload format: its layout, the strict Python parser and the C pointer walk. */
module Payload {
  import opened Integers
  import Numerals
  import opened Text

  const HEADER_SIZE: nat := 16
  const MAGIC_NVDUPLD: seq<byte> := [0x4E, 0x56, 0x44, 0x55, 0x50, 0x4C, 0x44, 0x00]
  const TWO_TO_32: int := 0x1_0000_0000
  const TWO_TO_64: int := 0x1_0000_0000_0000_0000

  // ---------- integers in bytes ----------

  function Le(b0: int, b1: int, b2: int, b3: int): int {
    b0 + 0x100 * b1 + 0x1_0000 * b2 + 0x100_0000 * b3
  }

  function Le32(s: seq<byte>, i: nat): nat
    requires i + 4 <= |s|
  {
    Le(s[i], s[i + 1], s[i + 2], s[i + 3])
  }

  function Le32Bytes(v: nat): (s: seq<byte>)
    requires v < TWO_TO_32
    ensures |s| == 4
  {
    [v % 0x100, v / 0x100 % 0x100, v / 0x100 / 0x100 % 0x100, v / 0x100 / 0x100 / 0x100]
  }

  lemma Peel(b: byte, rest: nat, v: nat)
    requires v == b + 0x100 * rest
    ensures v % 0x100 == b && v / 0x100 == rest
  {
  }

  lemma DigitsOfLe(b0: byte, b1: byte, b2: byte, b3: byte)
    ensures 0 <= Le(b0, b1, b2, b3) < TWO_TO_32
    ensures Le32Bytes(Le(b0, b1, b2, b3)) == [b0, b1, b2, b3]
  {
    var v1, v2 := b1 + 0x100 * b2 + 0x1_0000 * b3, b2 + 0x100 * b3;
    Peel(b0, v1, Le(b0, b1, b2, b3));
    Peel(b1, v2, v1);
    Peel(b2, b3, v2);
  }

  lemma BytesOfLe32(s: seq<byte>, i: nat)
    requires i + 4 <= |s|
    ensures Le32(s, i) < TWO_TO_32 && Le32Bytes(Le32(s, i)) == s[i..i + 4]
  {
    DigitsOfLe(s[i], s[i + 1], s[i + 2], s[i + 3]);
  }

  lemma LeOfDigits(v: nat)
    requires v < TWO_TO_32
    ensures var s := Le32Bytes(v); Le(s[0], s[1], s[2], s[3]) == v
  {
  }

  lemma Le32OfBytes(s: seq<byte>, i: nat, v: nat)
    requires v < TWO_TO_32 && i + 4 <= |s| && s[i..i + 4] == Le32Bytes(v)
    ensures Le32(s, i) == v
  {
    LeOfDigits(v);
    var t := s[i..i + 4];
    assert s[i] == t[0] && s[i + 1] == t[1] && s[i + 2] == t[2] && s[i + 3] == t[3];
  }

  function BigEndian(s: seq<byte>): nat {
    if s == [] then 0 else BigEndian(s[..|s| - 1]) * 0x100 + s[|s| - 1]
  }

  /** The bytes in front weigh more than all that follow. */
  lemma {:induction false} BigEndianParts(a: seq<byte>, b: seq<byte>)
    ensures BigEndian(a + b) == BigEndian(a) * Numerals.Power(0x100, |b|) + BigEndian(b)
    ensures BigEndian(b) < Numerals.Power(0x100, |b|)
    decreases |b|
  {
    if b == [] {
      assert a + b == a;
    } else {
      var c, last := b[..|b| - 1], b[|b| - 1];
      assert a + b == (a + c) + [last];
      BigEndianParts(a, c);
      Shifted(BigEndian(a), Numerals.Power(0x100, |c|), BigEndian(c), last);
    }
  }

  lemma Shifted(high: nat, weight: nat, low: nat, last: byte)
    requires low < weight
    ensures (high * weight + low) * 0x100 + last == high * (0x100 * weight) + (low * 0x100 + last)
    ensures low * 0x100 + last < 0x100 * weight
  {
  }

  lemma BigEndianMore(s: seq<byte>, last: byte)
    ensures BigEndian(s + [last]) == BigEndian(s) * 0x100 + last
  {
    assert (s + [last])[..|s|] == s;
  }

  /** One byte stands for itself, and the 32-bit numbers of the format have their lowest byte first. */
  lemma ByteOrder(b0: byte, b1: byte, b2: byte, b3: byte)
    ensures BigEndian([b0]) == b0
    ensures Le32([b0, b1, b2, b3], 0) == BigEndian([b3, b2, b1, b0])
  {
    BigEndianMore([], b0);
    BigEndianMore([], b3);
    BigEndianMore([b3], b2);
    BigEndianMore([b3, b2], b1);
    BigEndianMore([b3, b2, b1], b0);
    assert [] + [b0] == [b0] && [] + [b3] == [b3] && [b3] + [b2] == [b3, b2];
    assert [b3, b2] + [b1] == [b3, b2, b1] && [b3, b2, b1] + [b0] == [b3, b2, b1, b0];
  }

  // ---------- the layout ----------

  datatype Fields = Fields(name: seq<byte>, offsetBytes: seq<byte>, dataLen: nat)

  predicate Sizes(f: Fields) {
    |f.name| < TWO_TO_32 && |f.offsetBytes| < TWO_TO_32 && f.dataLen < TWO_TO_32
  }

  /** A payload up to its data. */
  function Layout(header: seq<byte>, f: Fields): (s: seq<byte>)
    requires Sizes(f)
    ensures |s| == |header| + 4 + |f.name| + 4 + |f.offsetBytes| + 4
  {
    header + Le32Bytes(|f.name|) + f.name + Le32Bytes(|f.offsetBytes|) + f.offsetBytes + Le32Bytes(f.dataLen)
  }

  predicate HasMagic(data: seq<byte>) {
    |data| >= HEADER_SIZE && data[..8] == MAGIC_NVDUPLD
  }

  predicate LaidOut(data: seq<byte>, f: Fields) {
    HasMagic(data) && Sizes(f) && Layout(data[..HEADER_SIZE], f) <= data
  }

  /** The fields read one after the other, as far as there are bytes. */
  function Reading(data: seq<byte>): Option<Fields> {
    if !HasMagic(data) || HEADER_SIZE + 4 > |data| then None else
      var p := HEADER_SIZE + 4 + Le32(data, HEADER_SIZE);
      if p + 4 > |data| then None else
        var q := p + 4 + Le32(data, p);
        if q + 4 > |data| then None
        else Some(Fields(data[HEADER_SIZE + 4..p], data[p + 4..q], Le32(data, q)))
  }

  /** A piece that ends a prefix of the data is found at its place. */
  lemma AtPlace(data: seq<byte>, left: seq<byte>, piece: seq<byte>)
    requires left + piece <= data
    ensures left <= data && |left| + |piece| <= |data| && data[|left|..|left| + |piece|] == piece
  {
    assert data[..|left| + |piece|] == left + piece;
    assert data[..|left|] == left;
  }

  lemma LaidOutReads(data: seq<byte>, f: Fields)
    requires LaidOut(data, f)
    ensures Reading(data) == Some(f)
  {
    var l1 := data[..HEADER_SIZE] + Le32Bytes(|f.name|);
    var l2 := l1 + f.name;
    var l3 := l2 + Le32Bytes(|f.offsetBytes|);
    var l4 := l3 + f.offsetBytes;
    AtPlace(data, l4, Le32Bytes(f.dataLen));
    AtPlace(data, l3, f.offsetBytes);
    AtPlace(data, l2, Le32Bytes(|f.offsetBytes|));
    AtPlace(data, l1, f.name);
    AtPlace(data, data[..HEADER_SIZE], Le32Bytes(|f.name|));
    Le32OfBytes(data, HEADER_SIZE, |f.name|);
    Le32OfBytes(data, |l2|, |f.offsetBytes|);
    Le32OfBytes(data, |l4|, f.dataLen);
  }

  lemma Cut(data: seq<byte>, i: nat, j: nat)
    requires i <= j <= |data|
    ensures data[..j] == data[..i] + data[i..j]
  {
  }

  lemma CutInSix(data: seq<byte>, i: nat, j: nat, k: nat, l: nat, m: nat, n: nat)
    requires i <= j <= k <= l <= m <= n <= |data|
    ensures data[..i] + data[i..j] + data[j..k] + data[k..l] + data[l..m] + data[m..n] == data[..n]
  {
    Cut(data, i, j);
    Cut(data, j, k);
    Cut(data, k, l);
    Cut(data, l, m);
    Cut(data, m, n);
  }

  lemma LaidOutBy(header: seq<byte>, f: Fields, a: seq<byte>, b: seq<byte>, c: seq<byte>)
    requires Sizes(f) && a == Le32Bytes(|f.name|) && b == Le32Bytes(|f.offsetBytes|) && c == Le32Bytes(f.dataLen)
    ensures Layout(header, f) == header + a + f.name + b + f.offsetBytes + c
  {
  }

  lemma ReadsLaidOut(data: seq<byte>, f: Fields)
    requires Reading(data) == Some(f)
    ensures LaidOut(data, f)
  {
    var h := HEADER_SIZE + 4;
    var p := h + |f.name|;
    var q := p + 4 + |f.offsetBytes|;
    BytesOfLe32(data, HEADER_SIZE);
    BytesOfLe32(data, p);
    BytesOfLe32(data, q);
    LaidOutBy(data[..HEADER_SIZE], f, data[HEADER_SIZE..h], data[p..p + 4], data[q..q + 4]);
    CutInSix(data, HEADER_SIZE, h, p, p + 4, q, q + 4);
  }

  /** Reading inverts the layout: a payload is laid out in one way at most, and reading finds it. */
  lemma ReadingInvertsLayout(data: seq<byte>, f: Fields)
    ensures LaidOut(data, f) <==> Reading(data) == Some(f)
  {
    if LaidOut(data, f) {
      LaidOutReads(data, f);
    }
    if Reading(data) == Some(f) {
      ReadsLaidOut(data, f);
    }
  }

  /** Whatever follows, a payload that was laid out is read back as the fields it was built from. */
  lemma LayoutReads(header: seq<byte>, f: Fields, rest: seq<byte>)
    requires |header| == HEADER_SIZE && HasMagic(header) && Sizes(f)
    ensures Reading(Layout(header, f) + rest) == Some(f)
  {
    var data := Layout(header, f) + rest;
    assert data[..HEADER_SIZE] == header;
    assert data[..8] == header[..8];
    LaidOutReads(data, f);
  }

  // ---------- the strict Python parser ----------

  class PyPayloadFile {
    var payloadFileLen: nat
    var partitionNameLen: nat
    var partitionName: seq<byte>
    var offsetLenBytes: nat
    var offset: nat
    var dataLen: nat

    /** The fields hold the reading f of a payload of n bytes. */
    ghost predicate Filled(n: nat, f: Fields)
      reads this
    {
      && payloadFileLen == n
      && partitionNameLen == |f.name| && partitionName == f.name
      && offsetLenBytes == |f.offsetBytes| && offset == BigEndian(f.offsetBytes)
      && dataLen == f.dataLen
    }

    /** Accepts exactly the payloads that follow the layout, and leaves the record alone otherwise. */
    method ParsePayload(data: seq<byte>) returns (ok: bool)
      modifies this
      ensures ok <==> Reading(data).Some?
      ensures ok ==> Filled(|data|, Reading(data).value)
      ensures !ok ==> unchanged(this)
    {
      if |data| < HEADER_SIZE {
        return false;
      }
      if data[..8] != MAGIC_NVDUPLD {
        return false;
      }
      var ptr := HEADER_SIZE;
      if ptr + 4 > |data| {
        return false;
      }
      var nameLen := Le32(data, ptr);
      ptr := ptr + 4;
      if ptr + nameLen > |data| {
        return false;
      }
      var name := data[ptr..ptr + nameLen];
      ptr := ptr + nameLen;
      if ptr + 4 > |data| {
        return false;
      }
      var offsetLen := Le32(data, ptr);
      ptr := ptr + 4;
      if ptr + offsetLen > |data| {
        return false;
      }
      var offsetBytes := data[ptr..ptr + offsetLen];
      ptr := ptr + offsetLen;
      if ptr + 4 > |data| {
        return false;
      }
      var length := Le32(data, ptr);
      payloadFileLen := |data|;
      partitionNameLen := nameLen;
      partitionName := name;
      offsetLenBytes := offsetLen;
      offset := BigEndian(offsetBytes);
      dataLen := length;
      return true;
    }
  }

  // ---------- the C pointer walk ----------

  /** The walk's own test: the data length starts inside the file. Its last bytes, and nothing else,
      may lie behind the end. */
  predicate StartsInside(f: Fields, n: int) {
    HEADER_SIZE + 4 + |f.name| + 4 + |f.offsetBytes| < n
  }

  lemma RemainderIs(v: nat, k: nat, r: nat, m: nat)
    requires v == k * m + r && r < m
    ensures v / m == k && v % m == r
  {
    Numerals.Division(v, m);
    Numerals.QuotientUnique(k, r, v / m, v % m, m);
  }

  /** A byte shifted in from the right, with 2^64 given as 256 times m. */
  lemma ShiftModulo(x: nat, k: nat, r: nat, j: nat, low: nat, b: byte, m: nat)
    requires x == k * (0x100 * m) + r && r == j * m + low && low < m
    ensures (r * 0x100) % (0x100 * m) == low * 0x100
    ensures (x * 0x100 + b) % (0x100 * m) == low * 0x100 + b
  {
    RemainderIs(r * 0x100, j, low * 0x100, 0x100 * m);
    assert x * 0x100 + b == (0x100 * k + j) * (0x100 * m) + (low * 0x100 + b);
    RemainderIs(x * 0x100 + b, 0x100 * k + j, low * 0x100 + b, 0x100 * m);
  }

  lemma ShiftIn(x: nat, r: nat, b: byte)
    requires r == x % TWO_TO_64
    ensures (r * 0x100) % TWO_TO_64 + b == (x * 0x100 + b) % TWO_TO_64
  {
    var m := 0x100_0000_0000_0000;
    Numerals.Division(x, TWO_TO_64);
    Numerals.Division(r, m);
    ShiftModulo(x, x / TWO_TO_64, r, r / m, r % m, b, m);
  }

  /** The fields, given where the offset length and the data length stand. */
  lemma ReadingAt(mem: seq<byte>, p: nat, q: nat)
    requires HasMagic(mem) && HEADER_SIZE + 4 <= p && p + 4 <= q && q + 4 <= |mem|
    requires p == HEADER_SIZE + 4 + Le32(mem, HEADER_SIZE) && q == p + 4 + Le32(mem, p)
    ensures Reading(mem) == Some(Fields(mem[HEADER_SIZE + 4..p], mem[p + 4..q], Le32(mem, q)))
  {
  }

  lemma NotInside(mem: seq<byte>, p: nat, n: nat)
    requires |mem| >= HEADER_SIZE + 4 && p == HEADER_SIZE + 4 + Le32(mem, HEADER_SIZE) && p + 4 <= |mem|
    requires p + 4 + Le32(mem, p) >= n
    ensures Reading(mem).Some? ==> !StartsInside(Reading(mem).value, n)
  {
  }

  class PayloadFile {
    /** A buffer of 4 MB, and what the structure holds behind it. */
    const payloadBuf: array<byte>
    var payloadFileLen: uint32
    var partitionNameLen: uint32
    /** The index the name pointer points to. */
    var partitionName: nat
    var offsetLenBytes: uint32
    var offset: uint64
    var dataLen: uint32

    /** The fields hold the reading f, the offset cut to 64 bits. */
    ghost predicate Filled(f: Fields)
      reads this, payloadBuf
    {
      && partitionNameLen == |f.name| && partitionName + |f.name| <= payloadBuf.Length
      && payloadBuf[partitionName..partitionName + |f.name|] == f.name
      && offsetLenBytes == |f.offsetBytes| && offset == BigEndian(f.offsetBytes) % TWO_TO_64
      && dataLen == f.dataLen
    }

    /** Accepts exactly the memory that follows the layout with the data length starting inside the
        file. */
    method ParsePayload() returns (pass: bool)
      requires payloadFileLen > HEADER_SIZE && payloadFileLen + 3 <= payloadBuf.Length
      modifies `partitionNameLen, `partitionName, `offsetLenBytes, `offset, `dataLen
      ensures pass <==> Reading(payloadBuf[..]).Some? && StartsInside(Reading(payloadBuf[..]).value, payloadFileLen)
      ensures pass ==> Filled(Reading(payloadBuf[..]).value)
    {
      ghost var mem := payloadBuf[..];
      var pEnd := payloadFileLen;
      if payloadBuf[..8] != MAGIC_NVDUPLD {
        return false;
      }
      var ptr: nat := HEADER_SIZE;
      if ptr >= pEnd {
        return false;
      }
      partitionNameLen := ReadLe32(ptr);
      ptr := ptr + 4;
      if ptr >= pEnd {
        return false;
      }
      partitionName := ptr;
      ptr := ptr + partitionNameLen;
      if ptr >= pEnd {
        return false;
      }
      pass := ParseOffset(ptr);
      if pass {
        ReadingAt(mem, ptr, ptr + 4 + offsetLenBytes);
      } else {
        NotInside(mem, ptr, pEnd);
      }
    }

    /** The walk from the offset length on. */
    method ParseOffset(p: nat) returns (pass: bool)
      requires p < payloadFileLen && payloadFileLen + 3 <= payloadBuf.Length
      modifies `offsetLenBytes, `offset, `dataLen
      ensures p + 4 <= payloadBuf.Length && pass == (p + 4 + Le32(payloadBuf[..], p) < payloadFileLen)
      ensures pass ==>
        var q := p + 4 + Le32(payloadBuf[..], p);
        && q + 4 <= payloadBuf.Length && offsetLenBytes == Le32(payloadBuf[..], p)
        && offset == BigEndian(payloadBuf[p + 4..q]) % TWO_TO_64 && dataLen == Le32(payloadBuf[..], q)
    {
      var ptr, pEnd := p, payloadFileLen;
      offsetLenBytes := ReadLe32(ptr);
      ptr := ptr + 4;
      if ptr + offsetLenBytes >= pEnd {
        return false;
      }
      offset := ReadBigEndian(ptr, offsetLenBytes);
      ptr := ptr + offsetLenBytes;
      dataLen := ReadLe32(ptr);
      return true;
    }

    /** The offset bytes, most significant first, in a 64-bit accumulator. */
    method ReadBigEndian(at: nat, len: uint32) returns (v: uint64)
      requires at + len <= payloadBuf.Length
      ensures v == BigEndian(payloadBuf[at..at + len]) % TWO_TO_64
    {
      v := 0;
      var i: uint32 := 0;
      while i < len
        invariant i <= len && v == BigEndian(payloadBuf[at..at + i]) % TWO_TO_64
      {
        assert payloadBuf[at..at + i + 1] == payloadBuf[at..at + i] + [payloadBuf[at + i]];
        ShiftIn(BigEndian(payloadBuf[at..at + i]), v, payloadBuf[at + i]);
        v := (v * 0x100) % TWO_TO_64 + payloadBuf[at + i];
        i := i + 1;
      }
    }

    /** An unaligned 32-bit read. */
    method ReadLe32(i: nat) returns (v: uint32)
      requires i + 4 <= payloadBuf.Length
      ensures v == Le32(payloadBuf[..], i)
    {
      BytesOfLe32(payloadBuf[..], i);
      v := Le(payloadBuf[i], payloadBuf[i + 1], payloadBuf[i + 2], payloadBuf[i + 3]);
    }
  }

  // ---------- the two parsers ----------

  lemma LaidOutInside(mem: seq<byte>, n: nat, f: Fields)
    requires n <= |mem|
    ensures LaidOut(mem[..n], f) <==> LaidOut(mem, f) && StartsInside(f, n - 3)
  {
    if n >= HEADER_SIZE {
      assert mem[..n][..8] == mem[..8] && mem[..n][..HEADER_SIZE] == mem[..HEADER_SIZE];
    }
  }

  /** Python accepts a file of n bytes exactly when C accepts it and the whole data length lies
      inside, not only its first byte; the fields are then the same. */
  lemma StrictIsInside(mem: seq<byte>, n: nat)
    requires n <= |mem|
    ensures Reading(mem[..n])
         == if Reading(mem).Some? && StartsInside(Reading(mem).value, n - 3) then Reading(mem) else None
  {
    if Reading(mem).Some? {
      var f := Reading(mem).value;
      ReadingInvertsLayout(mem, f);
      ReadingInvertsLayout(mem[..n], f);
      LaidOutInside(mem, n, f);
    }
    if Reading(mem[..n]).Some? {
      var g := Reading(mem[..n]).value;
      ReadingInvertsLayout(mem[..n], g);
      ReadingInvertsLayout(mem, g);
      LaidOutInside(mem, n, g);
    }
  }
}
