/** Bounded string building in caller buffers: strlcpy, strlcat, duStrCatNewBuf2/3 and duPathJoin. */
module Paths {
  import opened Text

  /** mem holds s with its terminator; the cells after it are those of before. */
  ghost predicate Holds(mem: string, s: string, before: string) {
    |mem| == |before| && |s| < |mem| && mem == s + [NUL] + before[|s| + 1..]
  }

  /** The index of the first terminator. */
  function StrLen(mem: string): (n: nat)
    requires NUL in mem
    ensures n < |mem| && mem[n] == NUL && NUL !in mem[..n]
  {
    if mem[0] == NUL then 0 else
      var n := 1 + StrLen(mem[1..]);
      assert mem[..n] == [mem[0]] + mem[1..][..n - 1];
      n
  }

  lemma {:induction false} StrLenIs(mem: string, s: string)
    requires |s| < |mem| && mem[..|s|] == s && mem[|s|] == NUL && NUL !in s
    ensures NUL in mem && StrLen(mem) == |s|
  {
  }

  /** memcpy of a piece to position at, and a terminator behind it. */
  method CopyIn(dst: array<char>, at: nat, piece: string)
    requires at + |piece| < dst.Length
    modifies dst
    ensures Holds(dst[..], old(dst[..])[..at] + piece, old(dst[..]))
  {
    forall i | 0 <= i < |piece| {
      dst[at + i] := piece[i];
    }
    dst[at + |piece|] := NUL;
  }

  /** Copies what fits and always terminates, unless the size is zero; returns what was wanted. */
  method Strlcpy(dst: array<char>, src: string, size: nat) returns (lenSrc: nat)
    requires size <= dst.Length
    modifies dst
    ensures lenSrc == |src|
    ensures size > 0 ==> Holds(dst[..], Take(src, size - 1), old(dst[..]))
    ensures size == 0 ==> dst[..] == old(dst[..])
  {
    lenSrc := |src|;
    if size > 0 {
      var lenCpy := if lenSrc < size - 1 then lenSrc else size - 1;
      assert src[..lenCpy] == Take(src, size - 1);
      CopyIn(dst, 0, src[..lenCpy]);
      assert old(dst[..])[..0] + src[..lenCpy] == src[..lenCpy];
    }
  }

  lemma HoldsMore(mem: string, text: string, more: string, before: string, start: string)
    requires Holds(mem, text + more, start) && Holds(start, text, before)
    ensures Holds(mem, text + more, before)
  {
    assert start[|text + more| + 1..] == before[|text + more| + 1..];
  }

  lemma TakeMore(done: string, part: string, room: nat)
    requires |done| <= room
    ensures Take(done + part, room) == done + Take(part, room - |done|)
  {
  }

  lemma Appended(now: string, start: string, done: string, piece: string, text: string, before: string)
    requires Holds(start, done, before) && Holds(now, done + piece, start) && text == done + piece
    ensures Holds(now, text, before)
  {
    HoldsMore(now, done, piece, before, start);
  }

  lemma TextOf(mem: string, s: string, before: string)
    requires Holds(mem, s, before) && NUL !in s
    ensures NUL in mem && StrLen(mem) == |s| && mem[..|s|] == s
  {
    assert mem[..|s|] == s;
    StrLenIs(mem, s);
  }

  /** Appends to the text done what fits into size, the terminator included, and returns the length
      that was wanted; a buffer that is already full stays as it is. */
  method Strlcat(dst: array<char>, src: string, size: nat, ghost done: string, ghost before: string)
    returns (wanted: nat)
    requires size <= dst.Length && Holds(dst[..], done, before) && NUL !in done
    modifies dst
    ensures wanted == |done| + |src|
    ensures Holds(dst[..], Take(done + src, if size - 1 > |done| then size - 1 else |done|), before)
  {
    ghost var start := dst[..];
    TextOf(start, done, before);
    var lenSrc := |src|;
    var lenDst := StrLen(dst[..]);
    wanted := lenDst + lenSrc;
    if size > lenDst + 1 {
      var lenCpy := if lenSrc < size - lenDst - 1 then lenSrc else size - lenDst - 1;
      var piece := src[..lenCpy];
      CopyIn(dst, lenDst, piece);
      TakeMore(done, src, size - 1);
      assert piece == Take(src, size - 1 - |done|);
      Appended(dst[..], start, done, piece, Take(done + src, size - 1), before);
    } else {
      assert Take(done + src, |done|) == done;
    }
  }

  method StrCatNewBuf2(pResBuf: array<char>, bufSz: nat, pStr1: string, pStr2: string) returns (strSz: nat)
    requires bufSz <= pResBuf.Length && NUL !in pStr1
    modifies pResBuf
    ensures strSz < bufSz <==> |pStr1 + pStr2| < bufSz
    ensures strSz < bufSz ==> strSz == |pStr1 + pStr2|
    ensures bufSz > 0 ==> Holds(pResBuf[..], Take(pStr1 + pStr2, bufSz - 1), old(pResBuf[..]))
    ensures bufSz == 0 ==> pResBuf[..] == old(pResBuf[..])
  {
    strSz := Strlcpy(pResBuf, pStr1, bufSz);
    if strSz < bufSz {
      strSz := Strlcat(pResBuf, pStr2, bufSz, pStr1, old(pResBuf[..]));
    } else if bufSz > 0 {
      assert Take(pStr1 + pStr2, bufSz - 1) == Take(pStr1, bufSz - 1);
    }
  }

  method StrCatNewBuf3(pResBuf: array<char>, bufSz: nat, pStr1: string, pStr2: string, pStr3: string)
    returns (strSz: nat)
    requires bufSz <= pResBuf.Length && NUL !in pStr1 && NUL !in pStr2
    modifies pResBuf
    ensures strSz < bufSz <==> |pStr1 + pStr2 + pStr3| < bufSz
    ensures strSz < bufSz ==> strSz == |pStr1 + pStr2 + pStr3|
    ensures bufSz > 0 ==> Holds(pResBuf[..], Take(pStr1 + pStr2 + pStr3, bufSz - 1), old(pResBuf[..]))
    ensures bufSz == 0 ==> pResBuf[..] == old(pResBuf[..])
  {
    strSz := StrCatNewBuf2(pResBuf, bufSz, pStr1, pStr2);
    if strSz < bufSz {
      strSz := Strlcat(pResBuf, pStr3, bufSz, pStr1 + pStr2, old(pResBuf[..]));
    } else if bufSz > 0 {
      assert Take(pStr1 + pStr2 + pStr3, bufSz - 1) == Take(pStr1 + pStr2, bufSz - 1);
    }
  }

  /** Non-null exactly when the joined path and its terminator fit. The buffer then holds the joined
      path, and otherwise the part of it that fits; nothing past bufSize is written. */
  method PathJoin(pPath1: Option<string>, pPath2: Option<string>, pBuf: array?<char>, bufSize: nat)
    returns (r: array?<char>)
    requires pBuf != null ==> bufSize <= pBuf.Length
    requires pPath1.Some? ==> NUL !in pPath1.value
    modifies pBuf
    ensures r == null || r == pBuf
    ensures r != null <==>
      pBuf != null && pPath1.Some? && pPath2.Some? && |Joined(pPath1.value, pPath2.value)| < bufSize
    ensures r != null ==> Holds(r[..], Joined(pPath1.value, pPath2.value), old(pBuf[..]))
    ensures pBuf != null ==>
      if pPath1.Some? && pPath2.Some? && bufSize > 0
      then Holds(pBuf[..], Take(Joined(pPath1.value, pPath2.value), bufSize - 1), old(pBuf[..]))
      else pBuf[..] == old(pBuf[..])
  {
    if pBuf == null || pPath1.None? || pPath2.None? {
      return null;
    }
    var path1, path2 := pPath1.value, pPath2.value;
    var pStartPath2 := if |path2| > 0 && path2[0] == '/' then path2[1..] else path2;
    var strSz := |path1|;
    if strSz > 0 && path1[strSz - 1] == '/' {
      strSz := StrCatNewBuf2(pBuf, bufSize, path1, pStartPath2);
    } else {
      strSz := StrCatNewBuf3(pBuf, bufSize, path1, "/", pStartPath2);
    }
    if strSz >= bufSize {
      return null;
    }
    return pBuf;
  }
}
