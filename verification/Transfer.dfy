/** A file read chunk by chunk over a remote provider with a budget of retries. */
module Transfer {
  import opened Integers
  import opened Paths
  import opened RangeRequests
  import opened Text

  const DULINK_RETRY_NUMBER: nat := 10
  const MAX_CHUNK_LEN: nat := 16384
  const HTTP_OK: nat := 200
  const HTTP_PARTIAL_CONTENT: nat := 206

  // ---------- writeMemoryCB: a growing block of memory ----------

  /** A larger block that keeps the first bytes. */
  method Realloc(block: array<byte>, keep: nat, n: nat) returns (ptr: array<byte>)
    requires keep <= block.Length && keep <= n
    ensures fresh(ptr) && ptr.Length == n && ptr[..keep] == block[..keep]
  {
    ptr := new byte[n](i => 0);
    forall i | 0 <= i < keep {
      ptr[i] := block[i];
    }
  }

  method Memcpy(dst: array<byte>, at: nat, piece: seq<byte>)
    requires at + |piece| <= dst.Length
    modifies dst
    ensures dst[..at + |piece|] == old(dst[..at]) + piece
  {
    forall i | 0 <= i < |piece| {
      dst[at + i] := piece[i];
    }
    assert dst[..at] == old(dst[..at]);
    assert dst[at..at + |piece|] == piece;
  }

  class MemoryStruct {
    var pMemory: array<byte>
    var size: uint64

    ghost predicate Valid()
      reads this, pMemory
    {
      size < pMemory.Length
    }

    ghost function Contents(): seq<byte>
      requires Valid()
      reads this, pMemory
    {
      pMemory[..size]
    }

    constructor ()
      ensures Valid() && Contents() == [] && fresh(pMemory)
    {
      pMemory := new byte[1];
      size := 0;
    }

    /** Appends the delivered bytes and a zero behind them, or does nothing: when the sizes overflow
        or memory (the flag says whether the reallocation succeeds) is short. */
    method WriteMemoryCB(contents: seq<byte>, size: uint64, nmemb: uint64, memory: bool) returns (written: uint64)
      requires Valid() && |contents| == size * nmemb
      modifies this, pMemory
      ensures Valid() && (pMemory == old(pMemory) || fresh(pMemory))
      ensures
        if memory && |old(Contents())| + |contents| + 1 <= UINT64_MAX
        then written == |contents| && Contents() == old(Contents()) + contents && pMemory[this.size] == 0
        else written == 0 && Contents() == old(Contents())
    {
      var multiplied, realsize := MultU64(nmemb, size, 0);
      if !multiplied {
        return 0;
      }
      var added, result := AddU64(this.size, realsize, 0);
      if !added {
        return 0;
      }
      var room, result1 := AddU64(result, 1, 0);
      if !room || !memory {
        return 0;
      }
      var ptr := Realloc(pMemory, this.size, result1);
      pMemory := ptr;
      Memcpy(pMemory, this.size, contents);
      this.size := this.size + realsize;
      pMemory[this.size] := 0;
      return realsize;
    }
  }

  // ---------- the provider ----------

  datatype CbCode = CbOk | CbBusyRetry | CbInvalidArgument | CbIo

  datatype SizeReply = Size(n: int64) | CurlError | OtherError

  /** How a query for the size turns out: the header is there, it is missing, or the query fails. */
  datatype SizeQuery = Header | NoHeader | CurlFails | OtherFails

  /** What the surroundings do in one call: whether the server state is CONFIGURED, the size query, the curl
      handle, the status of the reply, how many of the selected bytes a reply with status 206 carries, what
      any other reply carries, and where the transfer breaks off or memory runs short, if it does. */
  datatype World = World(
    serving: bool,
    size: SizeQuery,
    handle: bool,
    status: nat,
    share: nat,
    other: seq<byte>,
    breaks: Option<nat>)

  /** What one call of the provider came to. */
  datatype Event =
    | Sized(code: CbCode)
    | Replied(offset: nat, length: nat, code: CbCode, whole: bool, data: seq<byte>)

  /** The bytes a read at offset may return: at most length of them, up to the end of the file. */
  function Requested(source: seq<byte>, offset: nat, length: nat): seq<byte> {
    if offset >= |source| then [] else source[offset..Min(offset + length, |source|)]
  }

  /** What an accepted reply carries: with status 206 a beginning of the requested bytes, and with status
      200, from a server that ignores the range, the whole file. */
  predicate Answer(source: seq<byte>, offset: nat, length: nat, whole: bool, data: seq<byte>) {
    if whole then data == source else data <= Requested(source, offset, length)
  }

  /** The size a query reports; a missing header reads as the largest unsigned number. */
  function Reported(source: seq<byte>, w: World): nat {
    if w.size == NoHeader then UINT64_MAX else |source|
  }

  /** The body of an accepted reply. */
  function Body(source: seq<byte>, offset: nat, length: nat, w: World): (body: seq<byte>)
    ensures |body| <= |source|
    ensures Answer(source, offset, length, w.status == HTTP_OK, body)
  {
    if w.status == HTTP_OK then source else Front(Requested(source, offset, length), w.share)
  }

  function Front(s: seq<byte>, n: nat): (r: seq<byte>)
    ensures r <= s && |r| == Min(n, |s|)
  {
    s[..Min(n, |s|)]
  }

  predicate Arrives(breaks: Option<nat>, length: nat) {
    breaks.None? || breaks.value >= length
  }

  /** The size is known, and the request reaches the server. */
  predicate Asks(source: seq<byte>, offset: nat, length: nat, w: World) {
    && w.serving && (w.size == Header || w.size == NoHeader)
    && offset < Reported(source, w) && offset + length <= UINT64_MAX && w.handle
  }

  /** The transfer works, and its status is one of the two that are accepted. */
  predicate Transferred(source: seq<byte>, offset: nat, length: nat, w: World) {
    && (w.status == HTTP_OK || w.status == HTTP_PARTIAL_CONTENT)
    && Arrives(w.breaks, |Body(source, offset, length, w)|)
  }

  /** A read is answered: at the end of the file, or by a transfer that works. */
  predicate Served(source: seq<byte>, offset: nat, length: nat, w: World) {
    && w.serving && (w.size == Header || w.size == NoHeader)
    && (offset >= Reported(source, w) ||
        (Asks(source, offset, length, w) && Transferred(source, offset, length, w)))
  }

  /** What failed may work another time: the size query in curl, or the transfer. */
  predicate Transient(source: seq<byte>, offset: nat, length: nat, w: World) {
    && w.serving
    && (w.size == CurlFails || (Asks(source, offset, length, w) && !Transferred(source, offset, length, w)))
  }

  /** A call answers what the surroundings let it. */
  predicate Faithful(source: seq<byte>, w: World, e: Event) {
    match e
    case Sized(code) =>
      && (code == CbOk <==> w.serving && w.size == Header)
      && (code == CbBusyRetry ==> w.serving && w.size == CurlFails)
    case Replied(offset, length, code, whole, data) =>
      && (code == CbOk <==> Served(source, offset, length, w))
      && (code == CbBusyRetry ==> Transient(source, offset, length, w))
      && (whole <==> code == CbOk && offset < Reported(source, w) && w.status == HTTP_OK)
      && data == if code == CbOk && offset < Reported(source, w) then Body(source, offset, length, w) else []
  }

  /** Every call answered what the surroundings let it. */
  ghost predicate AllFaithful(source: seq<byte>, world: nat -> World, log: seq<Event>) {
    log == [] ||
    (AllFaithful(source, world, log[..|log| - 1]) && Faithful(source, world(|log| - 1), log[|log| - 1]))
  }

  lemma FaithfulMore(source: seq<byte>, world: nat -> World, log: seq<Event>, e: Event)
    requires AllFaithful(source, world, log) && Faithful(source, world(|log|), e)
    ensures AllFaithful(source, world, log + [e])
  {
    assert (log + [e])[..|log|] == log;
  }

  /** A reply with status 206 that arrives with at least one byte is accepted: nothing else is asked of the
      server for a read inside the file. */
  lemma GoodReply(source: seq<byte>, offset: nat, length: nat, w: World)
    requires w.serving && (w.size == Header || w.size == NoHeader) && w.handle
    requires w.status == 206 && w.share >= 1 && w.breaks == None
    requires offset < |source| <= INT64_MAX && 1 <= length && offset + length <= UINT64_MAX
    ensures Served(source, offset, length, w) && !Transient(source, offset, length, w)
    ensures Body(source, offset, length, w) != []
  {
  }

  /** The request starts at the first byte and reaches the end of the file. */
  predicate CoversAll(source: seq<byte>, offset: nat, length: nat) {
    source == [] || (offset == 0 && |source| <= length)
  }

  lemma WholeIsRight(source: seq<byte>, offset: nat, length: nat)
    ensures source <= Requested(source, offset, length) <==> CoversAll(source, offset, length)
  {
    if source <= Requested(source, offset, length) {
      assert |source| <= |Requested(source, offset, length)|;
    }
  }

  /** Wherever the request lies, a reply is a beginning of what was requested exactly when it is not longer
      than that. A caller can tell before the call: exactly when the server keeps to the range, or the
      whole file is asked for. */
  lemma AnswerIsRight(source: seq<byte>, offset: nat, length: nat, whole: bool, data: seq<byte>)
    requires Answer(source, offset, length, whole, data)
    ensures data <= Requested(source, offset, length) <==> |data| <= |Requested(source, offset, length)|
    ensures data <= Requested(source, offset, length) <==> !whole || CoversAll(source, offset, length)
  {
    WholeIsRight(source, offset, length);
  }

  /** A reply that ignores the range for the last two bytes of three: one byte too long, and not what
      was requested. */
  lemma RangeIgnored(source: seq<byte>)
    requires source == [1, 2, 3]
    ensures Requested(source, 1, 2) == [2, 3] && Answer(source, 1, 2, true, source)
    ensures |source| > 2 && !(source <= Requested(source, 1, 2))
  {
  }

  /** The same for four bytes from the second on: the reply is shorter than the length asked for, and still
      not what was requested. */
  lemma RangeIgnoredAtTheEnd(source: seq<byte>)
    requires source == [1, 2, 3]
    ensures Requested(source, 1, 4) == [2, 3] && Answer(source, 1, 4, true, source)
    ensures |source| <= 4 && !(source <= Requested(source, 1, 4))
  {
  }

  /** A read inside the file that reaches the server is either answered or worth another attempt, and the
      latter exactly when the status is another one or the transfer breaks off before the end of the reply.
      A size query that fails in curl is worth another attempt, too. */
  lemma WorthRetrying(source: seq<byte>, offset: nat, length: nat, w: World)
    requires w.serving && w.handle && offset < |source| <= INT64_MAX && 1 <= length && offset + length <= UINT64_MAX
    ensures w.size == CurlFails ==> Transient(source, offset, length, w)
    ensures w.size == OtherFails ==> !Transient(source, offset, length, w) && !Served(source, offset, length, w)
    ensures w.size == Header || w.size == NoHeader ==>
      && (Served(source, offset, length, w) <==> !Transient(source, offset, length, w))
      && (Transient(source, offset, length, w) <==>
            (w.status != 200 && w.status != 206) ||
            (w.status == 200 && w.breaks.Some? && w.breaks.value < |source|) ||
            (w.status == 206 && w.breaks.Some? && w.breaks.value < w.share
             && w.breaks.value < length && w.breaks.value < |source| - offset))
  {
  }

  /** Whatever size was reported, the selected bytes are the requested ones. */
  lemma SentIsRequested(source: seq<byte>, offset: nat, length: nat, fileSize: nat)
    requires |source| <= fileSize <= UINT64_MAX && 1 <= length && offset + length <= UINT64_MAX
    ensures Sent(source, RangeText(offset, length, fileSize)) == Requested(source, offset, length)
  {
    if offset < |source| {
      RangeSelects(offset, length, fileSize, |source|);
    } else {
      BeyondTheEnd(offset, length, fileSize, |source|);
    }
  }

  lemma SentIsShort(source: seq<byte>, text: string)
    ensures |Sent(source, text)| <= |source|
  {
  }

  /** The terminated text in the range buffer. */
  method RangeString(offset: uint64, length: uint64, fileSize: uint64) returns (ok: bool, text: string)
    ensures ok <==> offset + length <= UINT64_MAX
    ensures ok ==> text == RangeText(offset, length, fileSize)
  {
    var range := new char[REMOTE_SIZE_MAX];
    ghost var blank := range[..];
    var constructed := ConstructRange(offset, length, fileSize, range);
    ok, text := constructed == RangeOk, "";
    if ok {
      RangeTextIsPlain(offset, length, fileSize);
      TextOf(range[..], RangeText(offset, length, fileSize), blank);
      text := range[..StrLen(range[..])];
    }
  }

  class RemoteProvider {
    /** The remote file, which does not change. */
    const source: seq<byte>
    /** What the surroundings do in each call. */
    const world: nat -> World
    var totalRetry: nat
    /** How many calls there were, and what each came to. */
    var calls: nat
    ghost var log: seq<Event>

    ghost predicate Valid()
      reads this
    {
      && |source| <= INT64_MAX && totalRetry <= DULINK_RETRY_NUMBER && calls == |log|
      && AllFaithful(source, world, log)
    }

    /** The size header of the file, which a server may leave out. */
    method GetRemoteFileSize(w: World) returns (reply: SizeReply)
      requires |source| <= INT64_MAX
      ensures reply == if w.size == Header then Size(|source|) else if w.size == NoHeader then Size(-1)
        else if w.size == CurlFails then CurlError else OtherError
    {
      match w.size {
        case Header => reply := Size(|source|);
        case NoHeader => reply := Size(-1);
        case CurlFails => reply := CurlError;
        case OtherFails => reply := OtherError;
      }
    }

    /** A failed transfer is worth another attempt while the budget lasts. */
    method Retry(worth: bool) returns (code: CbCode)
      requires totalRetry <= DULINK_RETRY_NUMBER
      modifies `totalRetry
      ensures totalRetry <= DULINK_RETRY_NUMBER
      ensures code == if worth && old(totalRetry) < DULINK_RETRY_NUMBER then CbBusyRetry else CbIo
      ensures totalRetry == old(totalRetry) + if code == CbBusyRetry then 1 else 0
    {
      if worth && totalRetry < DULINK_RETRY_NUMBER {
        totalRetry := totalRetry + 1;
        return CbBusyRetry;
      }
      return CbIo;
    }

    /** Pieces of a body, of any sizes, arrive one after the other, unless the transfer breaks off or the
        memory for a piece is not to be had. */
    method Deliver(body: seq<byte>, breaks: Option<nat>, chunk: MemoryStruct) returns (performed: bool)
      requires chunk.Valid() && chunk.Contents() == []
      modifies chunk, chunk.pMemory
      ensures chunk.Valid() && (chunk.pMemory == old(chunk.pMemory) || fresh(chunk.pMemory))
      ensures performed <==> Arrives(breaks, |body|) && |body| < UINT64_MAX
      ensures performed ==> chunk.Contents() == body
    {
      var sent: nat := 0;
      while sent < |body|
        invariant sent <= |body| && sent < UINT64_MAX && Arrives(breaks, sent) && chunk.Valid()
        invariant chunk.pMemory == old(chunk.pMemory) || fresh(chunk.pMemory)
        invariant chunk.Contents() == body[..sent]
      {
        var n: nat :| 1 <= n <= |body| - sent;
        var memory := Arrives(breaks, sent + n);
        if n > UINT64_MAX {
          return false;
        }
        if !memory {
          var broken: bool := *;
          if broken {
            return false;
          }
        }
        ghost var piece := body[sent..sent + n];
        assert body[..sent] + piece == body[..sent + n];
        var written := chunk.WriteMemoryCB(body[sent..sent + n], 1, n, memory);
        if written != n {
          return false;
        }
        sent := sent + n;
      }
      return true;
    }

    /** One HTTP transfer. The reply carries what the range selects, as far as the server sends it, with
        status 206, and the whole file with status 200; the body of any other reply is arbitrary. */
    method Perform(text: string, w: World, chunk: MemoryStruct) returns (performed: bool, retCode: nat)
      requires |source| <= INT64_MAX && chunk.Valid() && chunk.Contents() == []
      modifies chunk, chunk.pMemory
      ensures chunk.Valid() && (chunk.pMemory == old(chunk.pMemory) || fresh(chunk.pMemory))
      ensures retCode == w.status
      ensures retCode == HTTP_OK ==>
        (performed <==> Arrives(w.breaks, |source|)) && (performed ==> chunk.Contents() == source)
      ensures retCode == HTTP_PARTIAL_CONTENT ==>
        && (performed <==> Arrives(w.breaks, |Front(Sent(source, text), w.share)|))
        && (performed ==> chunk.Contents() == Front(Sent(source, text), w.share))
    {
      retCode := w.status;
      var body := w.other;
      if retCode == HTTP_OK {
        body := source;
      } else if retCode == HTTP_PARTIAL_CONTENT {
        SentIsShort(source, text);
        body := Front(Sent(source, text), w.share);
      }
      performed := Deliver(body, w.breaks, chunk);
    }

    /** The transfer of one range. The reply is copied without looking at the length that was asked for:
        what does not fit the lent buffer lands behind it and is not part of this model. */
    method Fetch(offset: uint64, length: uint64, w: World, pBuf: array<byte>)
      returns (code: CbCode, retVal: uint64, ghost data: seq<byte>)
      requires |source| <= INT64_MAX && totalRetry <= DULINK_RETRY_NUMBER && 1 <= length <= pBuf.Length
      requires w.serving && (w.size == Header || w.size == NoHeader) && offset < Reported(source, w)
      modifies `totalRetry, pBuf
      ensures totalRetry <= DULINK_RETRY_NUMBER
      ensures code == if Served(source, offset, length, w) then CbOk
        else if Transient(source, offset, length, w) && old(totalRetry) < DULINK_RETRY_NUMBER then CbBusyRetry
        else CbIo
      ensures totalRetry == old(totalRetry) + if code == CbBusyRetry then 1 else 0
      ensures data == if code == CbOk then Body(source, offset, length, w) else []
      ensures |data| == retVal && (retVal <= pBuf.Length ==> pBuf[..retVal] == data)
    {
      retVal, data := 0, [];
      var constructed, text := RangeString(offset, length, Reported(source, w));
      if !constructed || !w.handle {
        return CbIo, 0, [];
      }
      SentIsRequested(source, offset, length, Reported(source, w));
      var chunk := new MemoryStruct();
      var performed, retCode := Perform(text, w, chunk);
      if performed && (retCode == HTTP_OK || retCode == HTTP_PARTIAL_CONTENT) {
        data := chunk.Contents();
        CopyOut(chunk, pBuf);
        return CbOk, chunk.size, data;
      }
      code := Retry(true);
    }

    /** The reply goes to the lent buffer as far as that is long enough. */
    static method CopyOut(chunk: MemoryStruct, pBuf: array<byte>)
      requires chunk.Valid() && pBuf != chunk.pMemory
      modifies pBuf
      ensures chunk.size <= pBuf.Length ==> pBuf[..chunk.size] == chunk.Contents()
    {
      var fits := if chunk.size <= pBuf.Length then chunk.size else pBuf.Length;
      Memcpy(pBuf, 0, chunk.pMemory[..fits]);
      assert old(pBuf[..0]) + chunk.pMemory[..fits] == chunk.pMemory[..fits];
    }

    /** The read side of exportFileCB: answered exactly when the server is configured, the size is known, and
        the read lies behind the end or its transfer works; a failure that may pass is answered busy while
        retries last, and spends one; everything else is an error. The answer is a beginning of what was
        asked if and only if the server kept to the range or the request starts at the first byte and
        reaches the end of the file. */
    method Read(offset: uint64, length: uint64, pBuf: array<byte>)
      returns (code: CbCode, retVal: uint64, ghost whole: bool, ghost data: seq<byte>)
      requires Valid() && 1 <= length <= pBuf.Length
      modifies `totalRetry, `calls, `log, pBuf
      ensures Valid()
      ensures var w := world(old(calls));
        && (code == CbInvalidArgument <==> !w.serving)
        && (code == CbOk <==> Served(source, offset, length, w))
        && (code == CbBusyRetry <==> Transient(source, offset, length, w) && old(totalRetry) < DULINK_RETRY_NUMBER)
      ensures totalRetry == old(totalRetry) + if code == CbBusyRetry then 1 else 0
      ensures log == old(log) + [Replied(offset, length, code, whole, data)]
      ensures code == CbOk ==> Answer(source, offset, length, whole, data)
      ensures code == CbOk ==>
        (data <= Requested(source, offset, length) <==> !whole || CoversAll(source, offset, length))
      ensures |data| == retVal && (retVal <= pBuf.Length ==> pBuf[..retVal] == data)
    {
      var w := world(calls);
      code, retVal, whole, data := CbInvalidArgument, 0, false, [];
      if w.serving {
        var reply := GetRemoteFileSize(w);
        if !reply.Size? {
          code := Retry(reply.CurlError?);
        } else {
          var fileSize: uint64 := if reply.n < 0 then UINT64_MAX + 1 + reply.n else reply.n;
          if offset >= fileSize {
            code := CbOk;
          } else {
            code, retVal, data := Fetch(offset, length, w, pBuf);
            whole := code == CbOk && w.status == HTTP_OK;
          }
        }
      }
      if code == CbOk {
        AnswerIsRight(source, offset, length, whole, data);
      }
      FaithfulMore(source, world, log, Replied(offset, length, code, whole, data));
      calls := calls + 1;
      log := log + [Replied(offset, length, code, whole, data)];
    }

    /** The size side of exportFileCB. */
    method GetSize() returns (code: CbCode, retVal: uint64)
      requires Valid()
      modifies `totalRetry, `calls, `log
      ensures Valid()
      ensures var w := world(old(calls));
        && (code == CbInvalidArgument <==> !w.serving)
        && (code == CbOk <==> w.serving && w.size == Header)
        && (code == CbBusyRetry <==> w.serving && w.size == CurlFails && old(totalRetry) < DULINK_RETRY_NUMBER)
      ensures totalRetry == old(totalRetry) + if code == CbBusyRetry then 1 else 0
      ensures log == old(log) + [Sized(code)]
      ensures code == CbOk ==> retVal == |source|
    {
      var w := world(calls);
      code, retVal := CbInvalidArgument, 0;
      if w.serving {
        var reply := GetRemoteFileSize(w);
        if !reply.Size? {
          code := Retry(reply.CurlError?);
        } else if reply.n < 0 {
          code := CbIo;
        } else {
          code, retVal := CbOk, reply.n;
        }
      }
      FaithfulMore(source, world, log, Sized(code));
      calls := calls + 1;
      log := log + [Sized(code)];
    }
  }

  // ---------- the reader: dulinkReadRetry and the copy loop of execDeployCmd ----------

  datatype Rcode = DU_OK | DUCOMMON_ERR_GENERIC | SAMPLE_ERR_GENERIC

  predicate Busy(e: Event) {
    e.Replied? && e.code == CbBusyRetry
  }

  /** Asks again while the provider is busy, which is at most as often as retries are left; the last
      reply decides. */
  method ReadRetry(p: RemoteProvider, offset: uint64, length: uint64, pBuf: array<byte>)
    returns (ret: Rcode, retLen: uint64, ghost last: Event)
    requires p.Valid() && 1 <= length <= pBuf.Length
    modifies p`totalRetry, p`calls, p`log, pBuf
    ensures p.Valid() && (ret == DU_OK || ret == DUCOMMON_ERR_GENERIC)
    ensures p.calls - old(p.calls) == p.totalRetry - old(p.totalRetry) + 1
    ensures old(p.log) < p.log && p.log[p.calls - 1] == last
    ensures forall k :: |old(p.log)| <= k < |p.log| - 1 ==> Busy(p.log[k])
    ensures last.Replied? && last.offset == offset && last.length == length
    ensures !Busy(last) && (ret == DU_OK <==> last.code == CbOk)
    ensures |last.data| == retLen && (retLen <= pBuf.Length ==> pBuf[..retLen] == last.data)
    ensures ret == DU_OK ==> Answer(p.source, offset, length, last.whole, last.data)
  {
    while true
      invariant p.Valid() && old(p.log) <= p.log
      invariant p.calls - old(p.calls) == p.totalRetry - old(p.totalRetry)
      invariant forall k :: |old(p.log)| <= k < |p.log| ==> Busy(p.log[k])
      decreases DULINK_RETRY_NUMBER - p.totalRetry
    {
      ghost var whole, data;
      var code;
      code, retLen, whole, data := p.Read(offset, length, pBuf);
      last := Replied(offset, length, code, whole, data);
      if code == CbOk {
        return DU_OK, retLen, last;
      } else if code == CbBusyRetry {
        // sleep, and again
      } else {
        return DUCOMMON_ERR_GENERIC, retLen, last;
      }
    }
  }

  /** The staged file, open for writing. */
  class InstallFile {
    /** How many bytes each write can take. */
    const room: nat -> nat
    var bytes: seq<byte>
    /** Which of the writes so far went through. */
    var writes: seq<bool>

    /** fwrite of one item: writing no bytes counts as a failure, and a failing write may leave a
        part of them. */
    method Fwrite(data: seq<byte>) returns (items: nat)
      modifies this
      ensures items == if data != [] && room(|old(writes)|) >= |data| then 1 else 0
      ensures writes == old(writes) + [items == 1]
      ensures items == 1 ==> bytes == old(bytes) + data
      ensures items == 0 ==> old(bytes) <= bytes <= old(bytes) + data
    {
      var n := Min(room(|writes|), |data|);
      bytes := bytes + data[..n];
      items := if data != [] && n == |data| then 1 else 0;
      writes := writes + [items == 1];
    }
  }

  lemma Extends(source: seq<byte>, offset: nat, length: nat, data: seq<byte>)
    requires offset <= |source| && data <= Requested(source, offset, length)
    ensures offset + |data| <= |source| && source[..offset] + data == source[..offset + |data|]
  {
    assert data == source[offset..offset + |data|];
  }

  /** The size was refused, or a read came to something else than data or a busy reply. */
  predicate Failed(e: Event) {
    if e.Sized? then e.code != CbOk else e.code != CbOk && e.code != CbBusyRetry
  }

  /** A whole file in reply to a request behind its first byte, or that does not fit one chunk. */
  predicate Overlong(source: seq<byte>, e: Event) {
    e.Replied? && e.code == CbOk && e.whole && (e.offset > 0 || |source| > MAX_CHUNK_LEN)
  }

  ghost predicate SomeFailed(log: seq<Event>, from: nat) {
    from < |log| && (Failed(log[|log| - 1]) || SomeFailed(log[..|log| - 1], from))
  }

  ghost predicate SomeOverlong(source: seq<byte>, log: seq<Event>, from: nat) {
    from < |log| && (Overlong(source, log[|log| - 1]) || SomeOverlong(source, log[..|log| - 1], from))
  }

  ghost predicate SomeLost(writes: seq<bool>, from: nat) {
    from < |writes| && (!writes[|writes| - 1] || SomeLost(writes[..|writes| - 1], from))
  }

  /** The three in other words: an event, or a write, of the kind stands at position `from` or behind it. */
  lemma {:induction false} SomeExactly(source: seq<byte>, log: seq<Event>, from: nat)
    ensures SomeFailed(log, from) <==> exists k :: from <= k < |log| && Failed(log[k])
    ensures SomeOverlong(source, log, from) <==> exists k :: from <= k < |log| && Overlong(source, log[k])
  {
    if from < |log| {
      var shorter := log[..|log| - 1];
      SomeExactly(source, shorter, from);
      assert forall k :: 0 <= k < |shorter| ==> shorter[k] == log[k];
    }
  }

  lemma {:induction false} SomeLostExactly(writes: seq<bool>, from: nat)
    ensures SomeLost(writes, from) <==> exists k :: from <= k < |writes| && !writes[k]
  {
    if from < |writes| {
      var shorter := writes[..|writes| - 1];
      SomeLostExactly(shorter, from);
      assert forall k :: 0 <= k < |shorter| ==> shorter[k] == writes[k];
    }
  }

  /** In the copy a reply is longer than its request exactly when it is the whole file in reply to a request
      behind its first byte, or does not fit one chunk. It then overruns the buffer or the byte count. */
  lemma TooLongBreaks(source: seq<byte>, offset: nat, length: nat, e: Event)
    requires offset + length <= |source|
    requires length == MAX_CHUNK_LEN || (length < MAX_CHUNK_LEN && offset + length == |source|)
    requires e.Replied? && e.code == CbOk && e.offset == offset && Answer(source, offset, length, e.whole, e.data)
    ensures |e.data| > length <==> Overlong(source, e)
    ensures |e.data| > length ==> |e.data| > MAX_CHUNK_LEN || offset + |e.data| > |source|
    ensures |e.data| <= length ==> e.data <= Requested(source, offset, length)
  {
    AnswerIsRight(source, offset, length, e.whole, e.data);
  }

  lemma {:induction false} EventsSince(source: seq<byte>, log: seq<Event>, more: seq<Event>, from: nat)
    requires from <= |log| && log <= more
    ensures SomeFailed(more, from) <==> SomeFailed(log, from) || SomeFailed(more, |log|)
    ensures SomeOverlong(source, more, from) <==> SomeOverlong(source, log, from) || SomeOverlong(source, more, |log|)
    decreases |more|
  {
    if |more| == |log| {
      assert more == log;
    } else {
      EventsSince(source, log, more[..|more| - 1], from);
    }
  }

  lemma {:induction false} LostSince(writes: seq<bool>, more: seq<bool>, from: nat)
    requires from <= |writes| && writes <= more
    ensures SomeLost(more, from) <==> SomeLost(writes, from) || SomeLost(more, |writes|)
    decreases |more|
  {
    if |more| == |writes| {
      assert more == writes;
    } else {
      LostSince(writes, more[..|more| - 1], from);
    }
  }

  lemma {:induction false} BusyIsNeither(source: seq<byte>, log: seq<Event>, from: nat)
    requires forall k :: from <= k < |log| ==> Busy(log[k])
    ensures !SomeFailed(log, from) && !SomeOverlong(source, log, from)
  {
    if from < |log| {
      BusyIsNeither(source, log[..|log| - 1], from);
    }
  }

  /** Busy replies and one more: the last decides. */
  lemma LastDecides(source: seq<byte>, log: seq<Event>, from: nat, last: Event)
    requires from < |log| && log[|log| - 1] == last
    requires forall k :: from <= k < |log| - 1 ==> Busy(log[k])
    ensures SomeFailed(log, from) <==> Failed(last)
    ensures SomeOverlong(source, log, from) <==> Overlong(source, last)
  {
    BusyIsNeither(source, log[..|log| - 1], from);
  }

  /** The last reply overruns the buffer or the byte count. */
  predicate Breaks(source: seq<byte>, offset: nat, log: seq<Event>) {
    && log != []
    && var e := log[|log| - 1];
    && e.Replied? && e.offset == offset
    && (|e.data| > MAX_CHUNK_LEN || offset + |e.data| > |source|)
  }

  /** Everything a call needs: the server is configured, names the size, lends a handle, answers with status
      206 and at least one byte, and the transfer does not break off. */
  predicate GoodCall(w: World) {
    w.serving && w.size == Header && w.handle && w.status == 206 && w.share >= 1 && w.breaks == None
  }

  /** A good call is answered with some of the bytes asked for. */
  lemma GoodCallAnswers(source: seq<byte>, w: World, offset: nat, length: nat, e: Event)
    requires GoodCall(w) && Faithful(source, w, e) && e.Replied? && e.offset == offset && e.length == length
    requires 1 <= length && offset + length <= |source| <= INT64_MAX
    ensures e.code == CbOk && !e.whole && e.data != []
  {
    GoodReply(source, offset, length, w);
  }

  /** Every call from number `from` on is good. */
  ghost predicate AllGood(world: nat -> World, from: nat) {
    forall k :: k >= from ==> GoodCall(world(k))
  }

  /** Every write from number `from` on can take a whole chunk. */
  ghost predicate Spacious(room: nat -> nat, from: nat) {
    forall k :: k >= from ==> room(k) >= MAX_CHUNK_LEN
  }

  /** The reads of one turn end with an event that says what they came to. */
  lemma TurnDecided(source: seq<byte>, w: World, log: seq<Event>, from: nat, offset: nat, length: nat, e: Event)
    requires offset + length <= |source| <= INT64_MAX
    requires length == MAX_CHUNK_LEN || (1 <= length < MAX_CHUNK_LEN && offset + length == |source|)
    requires from < |log| && log[|log| - 1] == e && forall k :: from <= k < |log| - 1 ==> Busy(log[k])
    requires e.Replied? && e.offset == offset && e.length == length && !Busy(e) && Faithful(source, w, e)
    ensures SomeFailed(log, from) <==> e.code != CbOk
    ensures SomeOverlong(source, log, from) <==> e.code == CbOk && |e.data| > length
    ensures e.code == CbOk && |e.data| > length ==> w.status == HTTP_OK && Breaks(source, offset, log)
    ensures e.code == CbOk && |e.data| <= length ==> e.data <= Requested(source, offset, length)
    ensures GoodCall(w) ==> e.code == CbOk && 1 <= |e.data| <= length
  {
    LastDecides(source, log, from, e);
    if GoodCall(w) {
      GoodCallAnswers(source, w, offset, length, e);
    }
    if e.code == CbOk {
      TooLongBreaks(source, offset, length, e);
    }
  }

  /** The read of one turn: refused, or too long, or some of the bytes that come next. */
  method ReadChunk(p: RemoteProvider, dataBuf: array<byte>, offset: uint64, lenToRead: uint64)
    returns (ret: Rcode, bytesRead: uint64, ghost good: bool)
    requires p.Valid() && dataBuf.Length == MAX_CHUNK_LEN && offset + lenToRead <= |p.source|
    requires lenToRead == MAX_CHUNK_LEN || (1 <= lenToRead < MAX_CHUNK_LEN && offset + lenToRead == |p.source|)
    modifies p`totalRetry, p`calls, p`log, dataBuf
    ensures p.Valid() && old(p.log) < p.log && (ret == DU_OK || ret == DUCOMMON_ERR_GENERIC)
    ensures p.calls - old(p.calls) == p.totalRetry - old(p.totalRetry) + 1
    ensures SomeFailed(p.log, |old(p.log)|) <==> ret != DU_OK
    ensures SomeOverlong(p.source, p.log, |old(p.log)|) <==> ret == DU_OK && bytesRead > lenToRead
    ensures ret == DU_OK && bytesRead > lenToRead ==>
      p.world(p.calls - 1).status == HTTP_OK && Breaks(p.source, offset, p.log)
    ensures ret == DU_OK && bytesRead <= lenToRead ==> dataBuf[..bytesRead] <= Requested(p.source, offset, lenToRead)
    ensures good == GoodCall(p.world(p.calls - 1))
    ensures good ==> ret == DU_OK && 1 <= bytesRead <= lenToRead
  {
    ghost var before := p.log;
    ghost var e;
    ret, bytesRead, e := ReadRetry(p, offset, lenToRead, dataBuf);
    TurnDecided(p.source, p.world(p.calls - 1), p.log, |before|, offset, lenToRead, e);
    good := GoodCall(p.world(p.calls - 1));
  }

  /** The write of one turn. */
  method WriteChunk(file: InstallFile, data: seq<byte>, ghost source: seq<byte>, ghost offset: nat, ghost length: nat)
    returns (items: nat)
    requires offset + length <= |source| && data <= Requested(source, offset, length)
    requires file.bytes <= source && |file.bytes| == offset
    modifies file
    ensures old(file.writes) <= file.writes && file.bytes <= source
    ensures items == if |data| > 0 && file.room(|old(file.writes)|) >= |data| then 1 else 0
    ensures items == 0 <==> SomeLost(file.writes, |old(file.writes)|)
    ensures items == 1 ==> |file.bytes| == offset + |data|
  {
    ghost var writes := file.writes;
    assert file.bytes == source[..offset];
    Extends(source, offset, length, data);
    items := file.Fwrite(data);
    assert file.writes[..|writes|] == writes;
  }

  /** One turn of the copy loop. A reply that is longer than its request ends it: the source makes no such
      test, and from there on its buffer or its byte count is overrun. */
  method CopyChunk(p: RemoteProvider, file: InstallFile, dataBuf: array<byte>, offset: uint64, lenToRead: uint64)
    returns (duRet: Rcode, tooLong: bool, bytesRead: uint64, ghost good: bool)
    requires p.Valid() && dataBuf.Length == MAX_CHUNK_LEN && offset + lenToRead <= |p.source|
    requires lenToRead == MAX_CHUNK_LEN || (1 <= lenToRead < MAX_CHUNK_LEN && offset + lenToRead == |p.source|)
    requires file.bytes <= p.source && |file.bytes| == offset
    modifies p`totalRetry, p`calls, p`log, file, dataBuf
    ensures p.Valid() && old(p.log) < p.log && old(file.writes) <= file.writes
    ensures p.calls - old(p.calls) == p.totalRetry - old(p.totalRetry) + 1
    ensures duRet == DU_OK || duRet == SAMPLE_ERR_GENERIC
    ensures duRet == SAMPLE_ERR_GENERIC <==>
      SomeFailed(p.log, |old(p.log)|) || SomeLost(file.writes, |old(file.writes)|)
    ensures tooLong <==> SomeOverlong(p.source, p.log, |old(p.log)|)
    ensures tooLong ==>
      p.world(p.calls - 1).status == HTTP_OK && |file.bytes| == offset && Breaks(p.source, offset, p.log)
    ensures file.bytes <= p.source
    ensures duRet == DU_OK && !tooLong ==> 1 <= bytesRead <= lenToRead && |file.bytes| == offset + bytesRead
    ensures GoodCall(p.world(p.calls - 1)) ==> good
    ensures good && file.room(|old(file.writes)|) >= MAX_CHUNK_LEN ==> duRet == DU_OK && !tooLong
  {
    var ret;
    ret, bytesRead, good := ReadChunk(p, dataBuf, offset, lenToRead);
    if ret != DU_OK {
      return SAMPLE_ERR_GENERIC, false, bytesRead, good;
    }
    if bytesRead > lenToRead {
      return DU_OK, true, bytesRead, good;
    }
    var data := dataBuf[..bytesRead];
    assert |data| == bytesRead;
    var items := WriteChunk(file, data, p.source, offset, lenToRead);
    duRet, tooLong := if items == 0 then SAMPLE_ERR_GENERIC else DU_OK, false;
  }

  /** The copy ends on every pattern of failures, unless a reply is longer than its request: up to there,
      the staged bytes are a beginning of the source, and success means they are the source, whole and in
      order. It fails exactly when the size or a read is refused or a write does not go through; and it
      breaks exactly on a reply that is too long, which takes a reply with status 200. When every call and
      every write is good it succeeds. */
  method CopyChunks(p: RemoteProvider, file: InstallFile) returns (duRet: Rcode, tooLong: bool)
    requires p.Valid() && file.bytes == []
    modifies p`totalRetry, p`calls, p`log, file
    ensures p.Valid() && old(p.log) <= p.log && old(file.writes) <= file.writes
    ensures duRet == DU_OK || duRet == SAMPLE_ERR_GENERIC
    ensures duRet == SAMPLE_ERR_GENERIC <==>
      SomeFailed(p.log, |old(p.log)|) || SomeLost(file.writes, |old(file.writes)|)
    ensures tooLong <==> SomeOverlong(p.source, p.log, |old(p.log)|)
    ensures duRet == DU_OK && !tooLong ==> file.bytes == p.source
    ensures file.bytes <= p.source
    ensures p.calls - old(p.calls) <= |p.source| + (p.totalRetry - old(p.totalRetry)) + 2
    ensures (forall k :: p.world(k).status != HTTP_OK) ==> !tooLong
    ensures tooLong ==> Breaks(p.source, |file.bytes|, p.log)
    ensures AllGood(p.world, old(p.calls)) && Spacious(file.room, |old(file.writes)|) ==> duRet == DU_OK && !tooLong
  {
    ghost var log, writes := p.log, file.writes;
    var code, bytesRemaining := p.GetSize();
    assert p.log[..|log|] == log;
    if code != CbOk {
      return SAMPLE_ERR_GENERIC, false;
    }
    var dataBuf := new byte[MAX_CHUNK_LEN];
    var offset: uint64 := 0;
    duRet, tooLong := DU_OK, false;
    while bytesRemaining > 0
      invariant p.Valid() && old(p.totalRetry) <= p.totalRetry && log <= p.log && writes <= file.writes
      invariant duRet == DU_OK && !tooLong
      invariant offset <= |p.source| && offset + bytesRemaining == |p.source|
      invariant file.bytes <= p.source && |file.bytes| == offset
      invariant p.calls - |log| <= offset + (p.totalRetry - old(p.totalRetry)) + 1
      invariant !SomeFailed(p.log, |log|) && !SomeLost(file.writes, |writes|)
      invariant !SomeOverlong(p.source, p.log, |log|)
      decreases bytesRemaining
    {
      var lenToRead: uint64 := if bytesRemaining < MAX_CHUNK_LEN then bytesRemaining else MAX_CHUNK_LEN;
      ghost var log1, writes1 := p.log, file.writes;
      var bytesRead;
      ghost var good;
      duRet, tooLong, bytesRead, good := CopyChunk(p, file, dataBuf, offset, lenToRead);
      EventsSince(p.source, log1, p.log, |log|);
      LostSince(writes1, file.writes, |writes|);
      if duRet != DU_OK || tooLong {
        break;
      }
      bytesRemaining := bytesRemaining - bytesRead;
      offset := offset + bytesRead;
    }
  }
}
