/** performPush: the push run over a partition map, beside the callback that reports validation. */
module Push {
  import opened Text

  const DU_1MB: nat := 0x10_0000

  // ---------- the map and the plan ----------

  /** An element of the map: what its keys say, and whether its strings fit their buffers. */
  datatype Entry =
    | Image(image: string, partition: Option<string>, fits: bool)
    | Validate(target: string, json: Option<string>)
    | Reload(target: string)
    | Malformed

  datatype Mode = Validating | Enabled | Disabled

  /** What is written over DU Link. */
  datatype Out =
    | PushMode(mode: Mode)
    | Piece(partition: string, offset: nat, data: seq<byte>)
    | Request(target: string, json: string)
    | ReloadCommand(target: string)
    | Abort

  function Min(a: nat, b: nat): nat {
    if a < b then a else b
  }

  /** What one read at an offset finds. */
  function Chunk(file: seq<byte>, offset: nat): (c: seq<byte>)
    ensures |c| <= DU_1MB
  {
    file[Min(offset, |file|)..Min(offset + DU_1MB, |file|)]
  }

  /** The pieces of an image from an offset on. */
  function Pieces(partition: string, file: seq<byte>, offset: nat): seq<Out>
    decreases |file| - offset
  {
    if offset >= |file| then []
    else
      [Piece(partition, offset, Chunk(file, offset))]
      + Pieces(partition, file, offset + DU_1MB)
  }

  /** The piece one turn writes, and what the loop still has to do after it. */
  function OnePiece(partition: string, file: seq<byte>, offset: nat): seq<Out> {
    if Chunk(file, offset) == [] then [] else [Piece(partition, offset, Chunk(file, offset))]
  }

  lemma PiecesNext(partition: string, file: seq<byte>, offset: nat)
    requires offset <= |file|
    ensures var c := Chunk(file, offset);
      && Pieces(partition, file, offset)
        == OnePiece(partition, file, offset) + (if |c| == DU_1MB then Pieces(partition, file, offset + |c|) else [])
      && (|c| < DU_1MB ==> offset + |c| == |file|)
  {
  }

  type Package = map<string, seq<byte>>

  function FileOf(files: Package, image: string): seq<byte> {
    if image in files then files[image] else []
  }

  /** The writes of one entry when nothing fails. */
  function EntryPlan(files: Package, e: Entry): seq<Out> {
    match e
    case Image(image, partition, fits) =>
      if partition.Some? then Pieces(partition.value, FileOf(files, image), 0) else []
    case Validate(target, json) =>
      [PushMode(Validating)] + (if json.Some? then [Request(target, json.value)] else []) + [PushMode(Enabled)]
    case Reload(target) => [ReloadCommand(target)]
    case Malformed => []
  }

  /** An entry that can be carried out: well-formed, its strings fitting, its image in the package. */
  predicate Well(files: Package, e: Entry) {
    match e
    case Image(image, partition, fits) => partition.Some? && fits && image in files
    case Validate(target, json) => json.Some?
    case Reload(target) => true
    case Malformed => false
  }

  predicate AllWell(files: Package, entries: seq<Entry>) {
    forall k :: 0 <= k < |entries| ==> Well(files, entries[k])
  }

  function Plan(files: Package, entries: seq<Entry>): seq<Out> {
    if entries == [] then []
    else Plan(files, entries[..|entries| - 1]) + EntryPlan(files, entries[|entries| - 1])
  }

  lemma {:induction false} PlanPrefix(files: Package, entries: seq<Entry>, k: nat)
    requires k <= |entries|
    ensures Plan(files, entries[..k]) <= Plan(files, entries)
  {
    if k == |entries| {
      assert entries[..k] == entries;
    } else {
      var shorter := entries[..|entries| - 1];
      assert shorter[..k] == entries[..k];
      PlanPrefix(files, shorter, k);
    }
  }

  lemma PlanNext(files: Package, entries: seq<Entry>, k: nat)
    requires k < |entries|
    ensures Plan(files, entries[..k + 1]) == Plan(files, entries[..k]) + EntryPlan(files, entries[k])
    ensures Plan(files, entries[..k]) + EntryPlan(files, entries[k]) <= Plan(files, entries)
  {
    assert entries[..k + 1][..k] == entries[..k];
    PlanPrefix(files, entries, k + 1);
  }

  /** The bytes that pieces for one partition carry, one after the other. */
  function Carried(outs: seq<Out>, partition: string): seq<byte> {
    if outs == [] then []
    else (if outs[0].Piece? && outs[0].partition == partition then outs[0].data else []) + Carried(outs[1..], partition)
  }

  /** Nothing but pieces for the partition, each where the one before it ended, none of them empty or larger
      than a megabyte. */
  predicate InOrder(outs: seq<Out>, partition: string, offset: nat) {
    outs == [] ||
    (outs[0].Piece? && outs[0].partition == partition && outs[0].offset == offset
     && 1 <= |outs[0].data| <= 0x10_0000 && InOrder(outs[1..], partition, offset + |outs[0].data|))
  }

  /** The pieces of an image carry it whole and in order. */
  lemma {:induction false} PiecesTile(partition: string, file: seq<byte>, offset: nat)
    requires offset <= |file|
    ensures Carried(Pieces(partition, file, offset), partition) == file[offset..]
    ensures InOrder(Pieces(partition, file, offset), partition, offset)
    decreases |file| - offset
  {
    if offset < |file| {
      var c, rest := Chunk(file, offset), Pieces(partition, file, offset + DU_1MB);
      assert ([Piece(partition, offset, c)] + rest)[1..] == rest;
      if offset + DU_1MB <= |file| {
        PiecesTile(partition, file, offset + DU_1MB);
        assert file[offset..] == c + file[offset + DU_1MB..];
      } else {
        assert rest == [] && c == file[offset..];
      }
    }
  }

  /** These writes are what the entry asks for: the image in pieces, the announcement, request and enabling
      of a validation, or the reload. */
  predicate ActsAs(files: Package, e: Entry, outs: seq<Out>) {
    && (e.Image? && e.partition.Some? && e.image in files ==>
          Carried(outs, e.partition.value) == files[e.image] && InOrder(outs, e.partition.value, 0))
    && (e.Validate? && e.json.Some? ==>
          outs == [PushMode(Validating), Request(e.target, e.json.value), PushMode(Enabled)])
    && (e.Reload? ==> outs == [ReloadCommand(e.target)])
  }

  lemma EntryActs(files: Package, e: Entry)
    ensures ActsAs(files, e, EntryPlan(files, e))
  {
    if e.Image? && e.partition.Some? {
      PiecesTile(e.partition.value, FileOf(files, e.image), 0);
      assert FileOf(files, e.image)[0..] == FileOf(files, e.image);
    }
  }

  /** What the plan holds for entry k, and where. */
  lemma PlanOfEntry(files: Package, entries: seq<Entry>, k: nat)
    requires k < |entries|
    ensures var at, next := |Plan(files, entries[..k])|, |Plan(files, entries[..k + 1])|;
      at <= next <= |Plan(files, entries)| && ActsAs(files, entries[k], Plan(files, entries)[at..next])
  {
    PlanNext(files, entries, k);
    EntryActs(files, entries[k]);
    var before, own, plan := Plan(files, entries[..k]), EntryPlan(files, entries[k]), Plan(files, entries);
    assert plan[..|before + own|] == before + own;
    assert plan[|before|..|before + own|] == own;
  }

  // ---------- histories ----------

  datatype Status = InProgress | Succeeded | Failed

  /** What happens, in order: writes attempted and whether they were acknowledged in full, reads, status
      resets, results of the mutex and condition variable and the status found after the wait by the
      push thread; reports by the callback. */
  datatype Event =
    | Write(out: Out, acked: bool)
    | Read(image: string, offset: nat, ok: bool)
    | Reset
    | Sync(ok: bool)
    | Verdict(success: bool)
    | ReportSuccess
    | ReportFail

  /** What the surroundings answer to what happens at position t of the history: whether a write is accepted
      and how much of it is taken, whether a read works, and whether the mutex and the condition variable do. */
  datatype Env = Env(accepts: nat -> bool, taken: nat -> nat, works: nat -> bool, syncs: nat -> bool)

  /** A write is acknowledged in full. */
  predicate Acks(env: Env, t: nat, out: Out) {
    env.accepts(t) && (out.Piece? ==> env.taken(t) >= |out.data|)
  }

  /** The event says what the surroundings answered and what the status was. */
  predicate Truthful(env: Env, before: seq<Event>, e: Event) {
    match e
    case Write(out, acked) => acked == Acks(env, |before|, out)
    case Read(_, _, ok) => ok == env.works(|before|)
    case Sync(ok) => ok == env.syncs(|before|)
    case Verdict(success) => success == (StatusAfter(before) == Succeeded)
    case _ => true
  }

  /** The writes of a history. */
  function Writes(h: seq<Event>): seq<Out> {
    if h == [] then []
    else Writes(h[..|h| - 1]) + if h[|h| - 1].Write? then [h[|h| - 1].out] else []
  }

  /** The status a history leaves: the last reset or report decides. */
  function StatusAfter(h: seq<Event>): Status {
    if h == [] then Failed
    else StatusNow(StatusAfter(h[..|h| - 1]), h[|h| - 1])
  }

  function StatusNow(before: Status, e: Event): Status {
    match e
    case Reset => InProgress
    case ReportSuccess => Succeeded
    case ReportFail => Failed
    case _ => before
  }

  /** Nothing went wrong with this event. */
  predicate Fine(e: Event) {
    match e
    case Write(_, acked) => acked
    case Read(_, _, ok) => ok
    case Sync(ok) => ok
    case Verdict(success) => success
    case _ => true
  }

  /** Nothing went wrong from position n on. */
  predicate FineSince(h: seq<Event>, n: nat) {
    forall i :: n <= i < |h| ==> Fine(h[i])
  }

  lemma Extend(h: seq<Event>, e: Event)
    ensures Writes(h + [e]) == Writes(h) + if e.Write? then [e.out] else []
    ensures StatusAfter(h + [e]) == StatusNow(StatusAfter(h), e)
  {
    assert (h + [e])[..|h|] == h;
  }

  /** Before position i a success was reported, after a status reset with one write in between reset
      and position. */
  ghost predicate Released(h: seq<Event>, i: nat)
    requires i < |h|
  {
    exists r, s :: 0 <= r < s < i && h[r] == Reset && h[s] == ReportSuccess && |Writes(h[..r])| == |Writes(h[..i])| - 1
  }

  predicate Enables(e: Event) {
    e.Write? && e.out == PushMode(Enabled)
  }

  /** Push mode is enabled again only when released: the one write since the reset is the request, so
      the reset is this entry's own. */
  ghost predicate Gated(h: seq<Event>) {
    forall i: nat | i < |h| && Enables(h[i]) :: Released(h, i)
  }

  /** Every event says what was the case. */
  ghost predicate Honest(env: Env, h: seq<Event>) {
    forall i: nat | i < |h| :: Truthful(env, h[..i], h[i])
  }

  /** A status of success after a reset means a success was reported since. */
  lemma {:induction false} SuccessReported(h: seq<Event>, r: nat) returns (s: nat)
    requires r < |h| && h[r] == Reset && StatusAfter(h) == Succeeded
    ensures r < s < |h| && h[s] == ReportSuccess
  {
    var last := |h| - 1;
    if h[last] == ReportSuccess {
      s := last;
    } else {
      s := SuccessReported(h[..last], r);
    }
  }

  /** The last reset or report decides the status, whatever else happened after it. */
  lemma {:induction false} LastDecides(h: seq<Event>, k: nat)
    requires k < |h| && (h[k] == Reset || h[k] == ReportSuccess || h[k] == ReportFail)
    requires forall i :: k < i < |h| ==> h[i] != Reset && h[i] != ReportSuccess && h[i] != ReportFail
    ensures h[k] == Reset ==> StatusAfter(h) == InProgress
    ensures h[k] == ReportSuccess ==> StatusAfter(h) == Succeeded
    ensures h[k] == ReportFail ==> StatusAfter(h) == Failed
  {
    if k < |h| - 1 {
      LastDecides(h[..|h| - 1], k);
    }
  }

  lemma ReportedSince(mark: seq<Event>, h: seq<Event>) returns (s: nat)
    requires mark + [Reset] <= h && StatusAfter(h) == Succeeded
    ensures |mark| < s < |h| && h[s] == ReportSuccess
  {
    assert h[|mark|] == (mark + [Reset])[|mark|];
    s := SuccessReported(h, |mark|);
  }

  lemma ReleasedMore(h: seq<Event>, e: Event, i: nat)
    requires i < |h| && Released(h, i)
    ensures Released(h + [e], i)
  {
    var g := h + [e];
    var r, s :| 0 <= r < s < i && h[r] == Reset && h[s] == ReportSuccess && |Writes(h[..r])| == |Writes(h[..i])| - 1;
    assert g[..r] == h[..r] && g[..i] == h[..i];
    assert g[r] == Reset && g[s] == ReportSuccess;
  }

  lemma GatedMore(h: seq<Event>, e: Event)
    requires Gated(h) && (Enables(e) ==> Released(h + [e], |h|))
    ensures Gated(h + [e])
  {
    forall i: nat | i < |h + [e]| && Enables((h + [e])[i])
      ensures Released(h + [e], i)
    {
      if i < |h| {
        assert (h + [e])[i] == h[i];
        ReleasedMore(h, e, i);
      }
    }
  }

  lemma HonestMore(env: Env, h: seq<Event>, e: Event)
    requires Honest(env, h) && Truthful(env, h, e)
    ensures Honest(env, h + [e])
  {
    var g := h + [e];
    forall i: nat | i < |g|
      ensures Truthful(env, g[..i], g[i])
    {
      assert g[..i] == h[..i];
      assert h[..|h|] == h;
    }
  }

  lemma ReleasedNow(h: seq<Event>, e: Event, r: nat, s: nat)
    requires r < s < |h| && h[r] == Reset && h[s] == ReportSuccess && |Writes(h[..r])| == |Writes(h)| - 1
    ensures Released(h + [e], |h|)
  {
    var g := h + [e];
    assert g[..|h|] == h && g[..r] == h[..r] && g[r] == Reset && g[s] == ReportSuccess;
  }

  // ---------- partitions ----------

  /** A partition after data is written at an offset inside what it holds, or at its end. */
  function Overwrite(part: seq<byte>, offset: nat, data: seq<byte>): seq<byte>
    requires offset <= |part|
  {
    part[..offset] + data + if offset + |data| < |part| then part[offset + |data|..] else []
  }

  function PartOf(partitions: map<string, seq<byte>>, partition: string): seq<byte> {
    if partition in partitions then partitions[partition] else []
  }

  lemma OverwriteNothing(part: seq<byte>, offset: nat)
    requires offset <= |part|
    ensures Overwrite(part, offset, []) == part
  {
    assert part[..offset] + [] + part[offset..] == part;
  }

  /** Chunk behind chunk. */
  lemma OverwriteNext(part: seq<byte>, file: seq<byte>, offset: nat)
    requires offset <= |file|
    ensures var done := Overwrite(part, 0, file[..offset]);
      var c := Chunk(file, offset);
      && offset <= |done| && offset + |c| <= |file|
      && Overwrite(done, offset, c) == Overwrite(part, 0, file[..offset + |c|])
  {
    var done := Overwrite(part, 0, file[..offset]);
    var c := Chunk(file, offset);
    assert file[..offset + |c|] == file[..offset] + c;
    assert done[..offset] == file[..offset];
  }

  /** What an entry leaves in a partition. */
  function CopyEntry(files: Package, e: Entry, partition: string, part: seq<byte>): seq<byte> {
    if e.Image? && e.partition == Some(partition) then Overwrite(part, 0, FileOf(files, e.image)) else part
  }

  function Copied(files: Package, entries: seq<Entry>, partition: string, part: seq<byte>): seq<byte> {
    if entries == [] then part
    else CopyEntry(files, entries[|entries| - 1], partition, Copied(files, entries[..|entries| - 1], partition, part))
  }

  /** Every partition holds what the entries copied to it. */
  ghost predicate AllCopied(files: Package, entries: seq<Entry>,
      before: map<string, seq<byte>>, after: map<string, seq<byte>>)
  {
    forall p :: PartOf(after, p) == Copied(files, entries, p, PartOf(before, p))
  }

  ghost predicate EntryCopied(files: Package, e: Entry, before: map<string, seq<byte>>, after: map<string, seq<byte>>) {
    forall p :: PartOf(after, p) == CopyEntry(files, e, p, PartOf(before, p))
  }

  lemma AllCopiedNext(files: Package, entries: seq<Entry>, k: nat,
      before: map<string, seq<byte>>, now: map<string, seq<byte>>, after: map<string, seq<byte>>)
    requires k < |entries| && AllCopied(files, entries[..k], before, now) && EntryCopied(files, entries[k], now, after)
    ensures AllCopied(files, entries[..k + 1], before, after)
  {
    forall p
      ensures PartOf(after, p) == Copied(files, entries[..k + 1], p, PartOf(before, p))
    {
      CopiedNext(files, entries, k, p, PartOf(before, p));
    }
  }

  lemma CopiedNext(files: Package, entries: seq<Entry>, k: nat, partition: string, part: seq<byte>)
    requires k < |entries|
    ensures Copied(files, entries[..k + 1], partition, part)
         == CopyEntry(files, entries[k], partition, Copied(files, entries[..k], partition, part))
  {
    assert entries[..k + 1][..k] == entries[..k];
  }

  /** After entries of which the k-th is the last to copy to its partition, the partition starts with that
      entry's image, and what it held beyond is left as the entries before left it. */
  lemma {:induction false} ImageStands(files: Package, entries: seq<Entry>, k: nat, partition: string, part: seq<byte>)
    requires k < |entries| && entries[k].Image? && entries[k].partition == Some(partition) && entries[k].image in files
    requires forall j :: k < j < |entries| && entries[j].Image? ==> entries[j].partition != Some(partition)
    ensures var now, held := Copied(files, entries, partition, part), Copied(files, entries[..k], partition, part);
      var file := files[entries[k].image];
      && file <= now && |now| == (if |file| < |held| then |held| else |file|)
      && (forall i :: |file| <= i < |now| ==> now[i] == held[i])
  {
    var shorter := entries[..|entries| - 1];
    if k < |entries| - 1 {
      assert shorter[..k] == entries[..k];
      ImageStands(files, shorter, k, partition, part);
    }
  }

  /** A partition to which no entry copies stays as it was. */
  lemma {:induction false} UntouchedStays(files: Package, entries: seq<Entry>, partition: string, part: seq<byte>)
    requires forall j :: 0 <= j < |entries| && entries[j].Image? ==> entries[j].partition != Some(partition)
    ensures Copied(files, entries, partition, part) == part
  {
    if entries != [] {
      UntouchedStays(files, entries[..|entries| - 1], partition, part);
    }
  }

  // ---------- stretches of a run ----------

  datatype Outcome = Next | Failure | Blocked

  /** A stretch of a run that carries out the plan w: its writes are a beginning of w, and it went
      through exactly when it was well-formed, everything was written and nothing failed. It fails only
      when it was not well-formed or something failed. */
  ghost predicate Stretch(before: seq<Event>, after: seq<Event>, w: seq<Out>, well: bool, outcome: Outcome) {
    && before <= after
    && Writes(before) <= Writes(after) <= Writes(before) + w
    && (outcome == Next <==> well && Writes(after) == Writes(before) + w && FineSince(after, |before|))
    && (outcome == Failure ==> !well || !FineSince(after, |before|))
  }

  /** A stretch that is fine so far: of its plan w, rest is still to be written. */
  ghost predicate Pending(before: seq<Event>, now: seq<Event>, rest: seq<Out>, w: seq<Out>) {
    && before <= now && FineSince(now, |before|)
    && Writes(before) <= Writes(now) && Writes(now) + rest == Writes(before) + w
  }

  lemma OneMore(before: seq<Event>, mid: seq<Event>, e: Event)
    requires before <= mid && Writes(mid) == Writes(before) && FineSince(mid, |before|)
    ensures Stretch(before, mid + [e], if e.Write? then [e.out] else [], true, if Fine(e) then Next else Failure)
  {
    Extend(mid, e);
    assert (mid + [e])[|mid|] == e;
  }

  lemma FineJoined(a: seq<Event>, b: seq<Event>, c: seq<Event>)
    requires a <= b <= c
    ensures FineSince(c, |a|) <==> FineSince(b, |a|) && FineSince(c, |b|)
  {
    assert forall i :: 0 <= i < |b| ==> b[i] == c[i];
  }

  lemma PrefixSum(u: seq<Out>, v: seq<Out>, piece: seq<Out>, rest: seq<Out>)
    requires v <= u + piece
    ensures v <= u + (piece + rest)
    ensures v == u + piece ==> v + rest == u + (piece + rest)
    ensures v == u + (piece + rest) ==> rest == [] && v == u + piece
  {
    assert u + (piece + rest) == (u + piece) + rest;
  }

  /** One more piece: the stretch goes on, or has ended. */
  lemma StretchPending(before: seq<Event>, now: seq<Event>, after: seq<Event>,
      piece: seq<Out>, rest: seq<Out>, w: seq<Out>, pieceWell: bool, well: bool, outcome: Outcome)
    requires Pending(before, now, piece + rest, w) && Stretch(now, after, piece, pieceWell, outcome)
    requires well ==> pieceWell
    ensures outcome == Next ==> Pending(before, after, rest, w)
    ensures outcome != Next ==> Stretch(before, after, w, well, outcome)
  {
    FineJoined(before, now, after);
    PrefixSum(Writes(now), Writes(after), piece, rest);
  }

  lemma StretchDone(before: seq<Event>, now: seq<Event>, w: seq<Out>)
    requires Pending(before, now, [], w)
    ensures Stretch(before, now, w, true, Next)
  {
    assert Writes(now) + [] == Writes(now);
  }

  lemma PendingFirst(before: seq<Event>, w: seq<Out>)
    ensures Pending(before, before, w, w)
  {
  }

  /** A stretch that writes nothing in between. */
  lemma QuietPending(before: seq<Event>, now: seq<Event>, after: seq<Event>,
      rest: seq<Out>, w: seq<Out>, quietWell: bool, well: bool, outcome: Outcome)
    requires Pending(before, now, rest, w) && Stretch(now, after, [], quietWell, outcome)
    requires well ==> quietWell
    ensures outcome == Next ==> Pending(before, after, rest, w)
    ensures outcome != Next ==> Stretch(before, after, w, well, outcome)
  {
    assert [] + rest == rest;
    StretchPending(before, now, after, [], rest, w, quietWell, well, outcome);
  }

  /** A stretch cut short with something left to write has not gone through. */
  lemma CutShort(before: seq<Event>, now: seq<Event>, rest: seq<Out>, w: seq<Out>, well: bool, outcome: Outcome)
    requires Pending(before, now, rest, w) && (!well || (outcome == Blocked && rest != [])) && outcome != Next
    ensures Stretch(before, now, w, well, outcome)
  {
    assert Writes(now) <= Writes(now) + rest;
  }

  const BOOTCHAIN_A_VER: string := "0"
  const BOOTCHAIN_B_VER: string := "1"

  /** The entries of the inactive chain, when the active one is known and its list is readable. */
  function Chosen(active: Option<string>, listA: Option<seq<Entry>>, listB: Option<seq<Entry>>): Option<seq<Entry>> {
    if active == Some(BOOTCHAIN_A_VER) then listB
    else if active == Some(BOOTCHAIN_B_VER) then listA
    else None
  }

  function EntriesOf(list: Option<seq<Entry>>): seq<Entry> {
    if list.Some? then list.value else []
  }

  /** The list was found, its entries are well-formed, and no write, read, wait or validation failed. */
  ghost predicate AllWent(files: Package, list: Option<seq<Entry>>, h: seq<Event>) {
    list.Some? && AllWell(files, list.value) && FineSince(h, 0)
  }

  /** A run that has ended: a beginning of the plan, and one closing write. Push mode is disabled, after the
      whole plan, if the list was found, every entry is well-formed and nothing failed, and the deployment
      is aborted otherwise. */
  ghost predicate Ended(files: Package, list: Option<seq<Entry>>, h: seq<Event>) {
    && h != [] && h[|h| - 1].Write?
    && Writes(h[..|h| - 1]) <= Plan(files, EntriesOf(list))
    && h[|h| - 1].out == (if AllWent(files, list, h[..|h| - 1]) then PushMode(Disabled) else Abort)
    && (AllWent(files, list, h[..|h| - 1]) ==> Writes(h[..|h| - 1]) == Plan(files, EntriesOf(list)))
  }

  /** A run that ended in 'disabled' wrote exactly its plan before. */
  lemma DisabledWrote(files: Package, list: Option<seq<Entry>>, h: seq<Event>)
    requires Ended(files, list, h)
    ensures h[|h| - 1].out == PushMode(Disabled) ==>
      list.Some? && AllWell(files, list.value) && Writes(h) == Plan(files, list.value) + [PushMode(Disabled)]
  {
  }

  /** What the list of the active chain says does not matter. */
  lemma ActiveListIgnored(listA: Option<seq<Entry>>, listB: Option<seq<Entry>>, other: Option<seq<Entry>>)
    ensures Chosen(Some("0"), listA, listB) == Chosen(Some("0"), other, listB) == listB
    ensures Chosen(Some("1"), listA, listB) == Chosen(Some("1"), listA, other) == listA
  {
  }

  /** Everything outside works: writes are accepted and taken whole, reads and waits work. */
  ghost predicate AllWorks(env: Env) {
    forall t :: env.accepts(t) && env.taken(t) >= DU_1MB && env.works(t) && env.syncs(t)
  }

  lemma ChunksFit(files: Package, entries: seq<Entry>, out: Out)
    requires out in Plan(files, entries)
    ensures out.Piece? ==> |out.data| <= DU_1MB
  {
    if entries != [] {
      var shorter, e := entries[..|entries| - 1], entries[|entries| - 1];
      if out in Plan(files, shorter) {
        ChunksFit(files, shorter, out);
      } else if e.Image? && e.partition.Some? {
        PiecesFit(e.partition.value, FileOf(files, e.image), 0, out);
      }
    }
  }

  lemma {:induction false} PiecesFit(partition: string, file: seq<byte>, offset: nat, out: Out)
    requires out in Pieces(partition, file, offset)
    ensures out.Piece? && |out.data| <= DU_1MB
    decreases |file| - offset
  {
    if out != Pieces(partition, file, offset)[0] {
      PiecesFit(partition, file, offset + DU_1MB, out);
    }
  }

  lemma {:induction false} WriteOf(h: seq<Event>, i: nat)
    requires i < |h| && h[i].Write?
    ensures h[i].out in Writes(h)
  {
    if i < |h| - 1 {
      assert h[i] == h[..|h| - 1][i];
      WriteOf(h[..|h| - 1], i);
    }
  }

  /** When everything outside works, a found list of which every image has a partition, strings that fit and
      a file in the package, every validate entry its text, and nothing is malformed, is aborted only after
      a wait that found another status than success. */
  lemma AbortHasCause(files: Package, env: Env, entries: seq<Entry>, h: seq<Event>) returns (i: nat)
    requires Honest(env, h) && AllWorks(env) && Ended(files, Some(entries), h) && h[|h| - 1].out == Abort
    requires forall e | e in entries ::
      && (e.Image? ==> e.partition.Some? && e.fits && e.image in files)
      && (e.Validate? ==> e.json.Some?) && !e.Malformed?
    ensures i < |h| && h[i] == Verdict(false) && StatusAfter(h[..i]) != Succeeded
  {
    var body := h[..|h| - 1];
    assert AllWell(files, entries);
    i :| 0 <= i < |body| && !Fine(body[i]);
    assert h[i] == body[i] && Truthful(env, h[..i], h[i]);
    if h[i].Write? {
      WriteOf(body, i);
      ChunksFit(files, entries, h[i].out);
      assert false;
    }
  }

  lemma StillThere(mark: seq<Event>, was: seq<Event>, now: seq<Event>, s: nat)
    requires mark + [Reset] <= was <= now && s < |was| && was[s] == ReportSuccess
    ensures now[..|mark|] == mark && now[|mark|] == Reset && now[s] == ReportSuccess
  {
    assert now[..|was|] == was && was[..|mark| + 1] == mark + [Reset];
    assert now[s] == now[..|was|][s];
    assert now[|mark|] == now[..|was|][|mark|] == was[..|mark| + 1][|mark|];
    assert now[..|mark|] == was[..|mark| + 1][..|mark|];
  }

  lemma StillPending(before: seq<Event>, now: seq<Event>, after: seq<Event>, rest: seq<Out>, w: seq<Out>)
    requires Pending(before, now, rest, w) && Pending(now, after, [], [])
    ensures Pending(before, after, rest, w)
  {
    FineJoined(before, now, after);
    assert Writes(after) == Writes(after) + [] == Writes(now) + [] == Writes(now);
  }

  lemma FineFromStart(now: seq<Event>, after: seq<Event>)
    requires now <= after
    ensures FineSince(after, 0) <==> FineSince(now, 0) && FineSince(after, |now|)
  {
    FineJoined([], now, after);
  }

  /** A stretch from the start of the run. */
  lemma FromStart(run: seq<Event>, plan: seq<Out>, well: bool, outcome: Outcome)
    requires Stretch([], run, plan, well, outcome)
    ensures Writes(run) <= plan
    ensures outcome == Next ==> well && Writes(run) == plan && FineSince(run, 0)
    ensures outcome == Failure ==> !well || !FineSince(run, 0)
  {
    assert [] + plan == plan;
  }

  lemma ToStart(run: seq<Event>, plan: seq<Out>, well: bool, outcome: Outcome)
    requires Writes(run) <= plan
    requires outcome == Next <==> well && Writes(run) == plan && FineSince(run, 0)
    requires outcome == Failure ==> !well || !FineSince(run, 0)
    ensures Stretch([], run, plan, well, outcome)
  {
    assert [] + plan == plan;
  }

  /** One more entry: the run goes on, or has failed as a whole. */
  lemma EntryDone(files: Package, entries: seq<Entry>, k: nat, now: seq<Event>, after: seq<Event>, outcome: Outcome)
    requires k < |entries|
    requires Stretch([], now, Plan(files, entries[..k]), AllWell(files, entries[..k]), Next)
    requires Stretch(now, after, EntryPlan(files, entries[k]), Well(files, entries[k]), outcome)
    ensures outcome == Next ==>
      Stretch([], after, Plan(files, entries[..k + 1]), AllWell(files, entries[..k + 1]), Next)
    ensures outcome != Next ==> Stretch([], after, Plan(files, entries), AllWell(files, entries), outcome)
  {
    PlanNext(files, entries, k);
    FromStart(now, Plan(files, entries[..k]), AllWell(files, entries[..k]), Next);
    FineFromStart(now, after);
    WellNext(files, entries, k);
    if outcome == Next {
      ToStart(after, Plan(files, entries[..k + 1]), AllWell(files, entries[..k + 1]), Next);
    } else {
      ToStart(after, Plan(files, entries), AllWell(files, entries), outcome);
    }
  }

  lemma WellNext(files: Package, entries: seq<Entry>, k: nat)
    requires k < |entries| && AllWell(files, entries[..k])
    ensures AllWell(files, entries[..k + 1]) <==> Well(files, entries[k])
    ensures AllWell(files, entries) ==> Well(files, entries[k])
  {
    assert entries[..k + 1][k] == entries[k];
    assert forall j :: 0 <= j < k ==> entries[..k + 1][j] == entries[..k][j];
  }

  /** What happens beside the run between its end and the closing write changes nothing. */
  lemma BodyWent(run: seq<Event>, body: seq<Event>, plan: seq<Out>, well: bool, outcome: Outcome)
    requires Stretch([], run, plan, well, outcome) && outcome != Blocked
    requires run <= body && Writes(body) == Writes(run) && FineSince(body, |run|)
    ensures Writes(body) <= plan
    ensures well && FineSince(body, 0) <==> outcome == Next
    ensures outcome == Next ==> Writes(body) == plan
  {
    FromStart(run, plan, well, outcome);
    FineFromStart(run, body);
  }

  lemma LastOf(body: seq<Event>, e: Event, h: seq<Event>)
    requires h == body + [e]
    ensures h != [] && h[|h| - 1] == e && h[..|h| - 1] == body
  {
  }

  lemma ClosedRun(files: Package, list: Option<seq<Entry>>, body: seq<Event>, h: seq<Event>, ok: bool, went: bool)
    requires Writes(body) <= Plan(files, EntriesOf(list))
    requires went <==> AllWent(files, list, body)
    requires went ==> Writes(body) == Plan(files, EntriesOf(list))
    requires h == body + [Write(if went then PushMode(Disabled) else Abort, ok)]
    ensures Ended(files, list, h)
  {
    LastOf(body, Write(if went then PushMode(Disabled) else Abort, ok), h);
  }

  // ---------- the run ----------

  class PushRun {
    /** The package, the surroundings, and the buffer pieces travel through. */
    const files: Package
    const env: Env
    const pushFileBuf: array<byte>
    /** The status shared with the callback. */
    var status: Status
    var partitions: map<string, seq<byte>>
    var history: seq<Event>

    constructor (files: Package, env: Env, partitions: map<string, seq<byte>>)
      ensures this.files == files && this.env == env && this.partitions == partitions
      ensures Valid() && history == [] && fresh(pushFileBuf)
    {
      this.files, this.env, this.partitions := files, env, partitions;
      pushFileBuf := new byte[DU_1MB];
      status, history := Failed, [];
    }

    ghost predicate Valid()
      reads this
    {
      pushFileBuf.Length == DU_1MB && status == StatusAfter(history) && Gated(history) && Honest(env, history)
    }

    method Happen(e: Event)
      requires Valid() && (Enables(e) ==> Released(history + [e], |history|)) && Truthful(env, history, e)
      modifies `history, `status
      ensures Valid() && history == old(history) + [e]
    {
      Extend(history, e);
      GatedMore(history, e);
      HonestMore(env, history, e);
      status := StatusNow(status, e);
      history := history + [e];
    }

    /** The validate part of pushCB, called any number of times. */
    method Callbacks()
      requires Valid()
      modifies `history, `status
      ensures Valid() && old(history) <= history && Writes(history) == Writes(old(history))
      ensures FineSince(history, |old(history)|)
    {
      StretchDone(history, history, []);
      var calls: nat := *;
      while calls > 0
        invariant Valid() && Stretch(old(history), history, [], true, Next)
      {
        var success: bool := *;
        var e := if success then ReportSuccess else ReportFail;
        OneMore(old(history), history, e);
        Happen(e);
        calls := calls - 1;
      }
    }

    /** A write over DU Link, with callbacks before it; it happens at position at of the history. */
    method DulinkWrite(out: Out) returns (ok: bool, at: nat)
      requires Valid() && out != PushMode(Enabled)
      modifies `history, `status
      ensures Valid() && Stretch(old(history), history, [out], true, if ok then Next else Failure)
      ensures ok == Acks(env, at, out)
    {
      Callbacks();
      ghost var mid := history;
      at := |history|;
      ok := Acks(env, at, out);
      Happen(Write(out, ok));
      OneMore(old(history), mid, Write(out, ok));
    }

    /** An operation on the mutex or the condition variable. */
    method Synchronize() returns (ok: bool)
      requires Valid()
      modifies `history, `status
      ensures Valid() && Stretch(old(history), history, [], true, if ok then Next else Failure)
      ensures |history| > |old(history)|
    {
      Callbacks();
      ghost var mid := history;
      ok := env.syncs(|history|);
      Happen(Sync(ok));
      OneMore(old(history), mid, Sync(ok));
    }

    /** The closing write; the history up to it is the body. */
    method Close(out: Out) returns (ok: bool, ghost body: seq<Event>)
      requires Valid() && out != PushMode(Enabled)
      modifies `history, `status
      ensures Valid() && old(history) <= body && Writes(body) == Writes(old(history))
      ensures FineSince(body, |old(history)|)
      ensures history == body + [Write(out, ok)]
    {
      Callbacks();
      body := history;
      ok := Acks(env, |history|, out);
      Happen(Write(out, ok));
    }

    method FillBuffer(data: seq<byte>) returns (retLen: nat)
      requires |data| <= pushFileBuf.Length
      modifies pushFileBuf
      ensures retLen == |data| && pushFileBuf[..retLen] == data
    {
      forall i | 0 <= i < |data| {
        pushFileBuf[i] := data[i];
      }
      retLen := |data|;
      assert pushFileBuf[..retLen] == data;
    }

    /** A read of a file of the package, short only at the end of the file; there is none of other files. */
    method DulinkRead(image: string, offset: nat) returns (ok: bool, retLen: nat)
      requires Valid()
      modifies pushFileBuf, `history, `status
      ensures Valid() && Stretch(old(history), history, [], image in files, if ok then Next else Failure)
      ensures ok ==> image in files && retLen <= DU_1MB && pushFileBuf[..retLen] == Chunk(files[image], offset)
    {
      Callbacks();
      if image !in files {
        return false, 0;
      }
      ghost var mid := history;
      ok, retLen := env.works(|history|), 0;
      Happen(Read(image, offset, ok));
      OneMore(old(history), mid, Read(image, offset, ok));
      if ok {
        retLen := FillBuffer(Chunk(files[image], offset));
      }
    }

    /** A write of the buffer's front to a partition: some of it arrives, and how much is reported; it
        counts as acknowledged when that is all of it. */
    method WritePiece(partition: string, offset: nat, length: nat) returns (ok: bool, retLen: nat)
      requires Valid() && length <= DU_1MB && offset <= |PartOf(partitions, partition)|
      modifies `history, `status, `partitions
      ensures Valid()
      ensures Stretch(old(history), history, [Piece(partition, offset, pushFileBuf[..length])], true,
        if ok && retLen == length then Next else Failure)
      ensures retLen <= length
      ensures PartOf(partitions, partition)
           == Overwrite(PartOf(old(partitions), partition), offset, pushFileBuf[..retLen])
      ensures forall p :: p != partition ==> PartOf(partitions, p) == PartOf(old(partitions), p)
    {
      var at;
      ok, at := DulinkWrite(Piece(partition, offset, pushFileBuf[..length]));
      ok := env.accepts(at);
      retLen := Min(env.taken(at), length);
      partitions := partitions[partition := Overwrite(PartOf(partitions, partition), offset, pushFileBuf[..retLen])];
    }

    /** One turn of the copy loop: the next chunk is read, and written unless it is empty. */
    method PushChunk(image: string, partition: string, offset: nat) returns (outcome: Outcome, retLen: nat)
      requires Valid() && offset <= |FileOf(files, image)| && offset <= |PartOf(partitions, partition)|
      modifies this, pushFileBuf
      ensures Valid() && outcome != Blocked
      ensures Stretch(old(history), history, OnePiece(partition, FileOf(files, image), offset), image in files, outcome)
      ensures outcome == Next ==> retLen == |Chunk(FileOf(files, image), offset)|
      ensures outcome == Next ==>
        PartOf(partitions, partition) ==
          Overwrite(PartOf(old(partitions), partition), offset, Chunk(FileOf(files, image), offset))
      ensures forall p :: p != partition ==> PartOf(partitions, p) == PartOf(old(partitions), p)
    {
      ghost var start, w := history, OnePiece(partition, FileOf(files, image), offset);
      PendingFirst(start, w);
      var ok;
      ok, retLen := DulinkRead(image, offset);
      ghost var read := history;
      QuietPending(start, start, read, w, w, image in files, image in files, if ok then Next else Failure);
      if !ok {
        return Failure, 0;
      }
      if retLen == 0 {
        OverwriteNothing(PartOf(partitions, partition), offset);
        StretchDone(start, history, w);
        return Next, 0;
      }
      var readlen := retLen;
      ghost var chunk := Chunk(FileOf(files, image), offset);
      ok, retLen := WritePiece(partition, offset, retLen);
      assert w == [Piece(partition, offset, chunk)] && w + [] == w;
      StretchPending(start, read, history, w, [], w, true, image in files,
        if ok && retLen == readlen then Next else Failure);
      if readlen != retLen || !ok {
        return Failure, 0;
      }
      StretchDone(start, history, w);
      return Next, retLen;
    }

    /** One turn inside the copy of an image that started at start with the partition holding part. */
    method CopyTurn(image: string, partition: string, offset: nat, ghost start: seq<Event>, ghost part: seq<byte>)
      returns (outcome: Outcome, next: nat, more: bool)
      requires Valid() && offset <= |FileOf(files, image)|
      requires PartOf(partitions, partition) == Overwrite(part, 0, FileOf(files, image)[..offset])
      requires Pending(start, history, Pieces(partition, FileOf(files, image), offset), ImagePlan(partition, image))
      modifies this, pushFileBuf
      ensures Valid() && outcome != Blocked
      ensures outcome != Next ==> Stretch(start, history, ImagePlan(partition, image), image in files, outcome)
      ensures outcome == Next ==> offset <= next <= |FileOf(files, image)| && image in files
      ensures outcome == Next ==> if more then next > offset else next == |FileOf(files, image)|
      ensures outcome == Next ==> PartOf(partitions, partition) == Overwrite(part, 0, FileOf(files, image)[..next])
      ensures outcome == Next ==> Pending(start, history,
        if more then Pieces(partition, FileOf(files, image), next) else [], ImagePlan(partition, image))
      ensures forall p :: p != partition ==> PartOf(partitions, p) == PartOf(old(partitions), p)
    {
      ghost var file, now := FileOf(files, image), history;
      OverwriteNext(part, file, offset);
      PiecesNext(partition, file, offset);
      ghost var piece, end := OnePiece(partition, file, offset), offset + |Chunk(file, offset)|;
      ghost var rest := if |Chunk(file, offset)| == DU_1MB then Pieces(partition, file, end) else [];
      var retLen;
      outcome, retLen := PushChunk(image, partition, offset);
      StretchPending(start, now, history, piece, rest, ImagePlan(partition, image), image in files, image in files,
        outcome);
      next, more := offset + retLen, retLen == DU_1MB;
    }

    ghost function ImagePlan(partition: string, image: string): seq<Out> {
      Pieces(partition, FileOf(files, image), 0)
    }

    /** An image is copied exactly, whatever its length; the loop ends at the first read that does not
        fill the buffer. Other partitions stay as they are. */
    method PushImage(image: string, partition: string) returns (outcome: Outcome)
      requires Valid()
      modifies this, pushFileBuf
      ensures Valid() && outcome != Blocked
      ensures Stretch(old(history), history, Pieces(partition, FileOf(files, image), 0), image in files, outcome)
      ensures outcome == Next ==>
        PartOf(partitions, partition) == Overwrite(PartOf(old(partitions), partition), 0, FileOf(files, image))
      ensures forall p :: p != partition ==> PartOf(partitions, p) == PartOf(old(partitions), p)
    {
      ghost var start, part := history, PartOf(partitions, partition);
      ghost var file := FileOf(files, image);
      PendingFirst(start, ImagePlan(partition, image));
      var offset, more := 0, true;
      while more
        invariant Valid() && offset <= |file|
        invariant PartOf(partitions, partition) == Overwrite(part, 0, file[..offset])
        invariant forall p :: p != partition ==> PartOf(partitions, p) == PartOf(old(partitions), p)
        invariant
          Pending(start, history, if more then Pieces(partition, file, offset) else [], ImagePlan(partition, image))
        invariant !more ==> offset == |file| && image in files
        decreases |file| - offset, more
      {
        outcome, offset, more := CopyTurn(image, partition, offset, start, part);
        if outcome != Next {
          return Failure;
        }
      }
      assert file[..offset] == file;
      StretchDone(start, history, ImagePlan(partition, image));
      return Next;
    }

    /** The status is read, outside the mutex. */
    method Judge() returns (success: bool)
      requires Valid()
      modifies `history, `status
      ensures Valid() && history == old(history) + [Verdict(success)]
      ensures success <==> StatusAfter(old(history)) == Succeeded
    {
      success := status == Succeeded;
      Happen(Verdict(success));
    }

    /** The wait for a report after the reset at the end of mark. It is cut off after any number of
        wake-ups, which leaves the run blocked. The status is read once more after the wait. */
    method Await(patience: nat, ghost mark: seq<Event>) returns (outcome: Outcome, ghost s: nat)
      requires Valid() && mark + [Reset] <= history
      modifies `history, `status
      ensures Valid() && old(history) <= history
      ensures outcome != Blocked ==> Stretch(old(history), history, [], true, outcome)
      ensures outcome == Blocked ==> Pending(old(history), history, [], []) && status == InProgress
      ensures outcome == Blocked ==> |history| >= patience
      ensures outcome == Next ==> |mark| < s < |history| && history[s] == ReportSuccess
    {
      s := 0;
      PendingFirst(history, []);
      var left := patience;
      while status == InProgress
        invariant Valid() && Pending(old(history), history, [], []) && 0 <= left <= patience
        invariant |history| >= |old(history)| + (patience - left)
        decreases left
      {
        if left == 0 {
          return Blocked, s;
        }
        ghost var slept := history;
        var waited := Synchronize();
        QuietPending(old(history), slept, history, [], [], true, true, if waited then Next else Failure);
        if !waited {
          return Failure, s;
        }
        left := left - 1;
      }
      ghost var woken := history;
      var unlocked := Synchronize();
      QuietPending(old(history), woken, history, [], [], true, true, if unlocked then Next else Failure);
      if !unlocked {
        return Failure, s;
      }
      outcome, s := FinishAwait(mark, old(history));
    }

    /** After the wait the status decides. */
    method FinishAwait(ghost mark: seq<Event>, ghost start: seq<Event>) returns (outcome: Outcome, ghost s: nat)
      requires Valid() && mark + [Reset] <= history && Pending(start, history, [], [])
      modifies `history, `status
      ensures Valid() && outcome != Blocked && Stretch(start, history, [], true, outcome)
      ensures outcome == Next ==> |mark| < s < |history| && history[s] == ReportSuccess
    {
      s := 0;
      ghost var read := history;
      var success := Judge();
      outcome := if success then Next else Failure;
      OneMore(read, read, Verdict(success));
      QuietPending(start, read, history, [], [], true, true, outcome);
      if success {
        StretchDone(start, history, []);
        s := ReportedSince(mark, read);
        StillThere(mark, read, history, s);
      }
    }

    /** Push mode is enabled again after the report at s. */
    method EnableAgain(ghost mark: seq<Event>, ghost s: nat) returns (ok: bool)
      requires Valid() && mark + [Reset] <= history && |mark| < s < |history| && history[s] == ReportSuccess
      requires |Writes(mark)| == |Writes(history)| - 1
      modifies `history, `status
      ensures Valid() && Stretch(old(history), history, [PushMode(Enabled)], true, if ok then Next else Failure)
    {
      Callbacks();
      ghost var mid := history;
      ok := Acks(env, |history|, PushMode(Enabled));
      var e := Write(PushMode(Enabled), ok);
      StillThere(mark, old(history), mid, s);
      ReleasedNow(mid, e, |mark|, s);
      Happen(e);
      OneMore(old(history), mid, e);
    }

    /** Announces a validation and resets the status; the history up to the reset is the mark. */
    method Announce() returns (ok: bool, ghost mark: seq<Event>)
      requires Valid()
      modifies `history, `status
      ensures Valid() && Stretch(old(history), history, [PushMode(Validating)], true, if ok then Next else Failure)
      ensures ok ==> history == mark + [Reset] && Writes(mark) == Writes(history)
    {
      var at;
      ok, at := DulinkWrite(PushMode(Validating));
      mark := history;
      if ok {
        ghost var announced := history;
        Callbacks();
        mark := history;
        Extend(history, Reset);
        Happen(Reset);
        OneMore(announced, mark, Reset);
        FineJoined(old(history), announced, history);
      }
    }

    /** A validate entry: announced, the status reset, requested, and waited for. */
    method PushValidate(target: string, json: Option<string>, patience: nat) returns (outcome: Outcome)
      requires Valid()
      modifies `history, `status
      ensures Valid()
      ensures Stretch(old(history), history, EntryPlan(files, Validate(target, json)), json.Some?, outcome)
      ensures outcome == Blocked ==> status == InProgress && |history| >= patience
    {
      ghost var start, w := history, EntryPlan(files, Validate(target, json));
      ghost var middle := if json.Some? then [Request(target, json.value)] else [];
      ghost var last := [PushMode(Enabled)];
      assert w == [PushMode(Validating)] + (middle + last) && last + [] == last;
      PendingFirst(start, w);
      var ok;
      ghost var mark;
      ok, mark := Announce();
      ghost var h1 := history;
      StretchPending(start, start, h1, [PushMode(Validating)], middle + last, w, true, json.Some?,
        if ok then Next else Failure);
      if !ok {
        return Failure;
      }
      if json.None? {
        CutShort(start, h1, middle + last, w, false, Failure);
        return Failure;
      }
      var at;
      ok, at := DulinkWrite(Request(target, json.value));
      ghost var h2 := history;
      StretchPending(start, h1, h2, middle, last, w, true, true, if ok then Next else Failure);
      if !ok {
        return Failure;
      }
      var locked := Synchronize();
      ghost var h3 := history;
      QuietPending(start, h2, h3, last, w, true, true, if locked then Next else Failure);
      if !locked {
        return Failure;
      }
      outcome := FinishValidate(patience, mark, start, w);
    }

    /** The wait, and enabling push mode again when it was successful. */
    method FinishValidate(patience: nat, ghost mark: seq<Event>, ghost start: seq<Event>, ghost w: seq<Out>)
      returns (outcome: Outcome)
      requires Valid() && Pending(start, history, [PushMode(Enabled)], w)
      requires mark + [Reset] <= history && |Writes(mark)| == |Writes(history)| - 1
      modifies `history, `status
      ensures Valid() && Stretch(start, history, w, true, outcome)
      ensures outcome == Blocked ==> status == InProgress && |history| >= patience
    {
      ghost var last, asked := [PushMode(Enabled)], history;
      ghost var s;
      outcome, s := Await(patience, mark);
      ghost var waited := history;
      if outcome == Blocked {
        StillPending(start, asked, waited, last, w);
        CutShort(start, waited, last, w, true, Blocked);
      } else {
        QuietPending(start, asked, waited, last, w, true, true, outcome);
        if outcome == Next {
          var ok := EnableAgain(mark, s);
          outcome := if ok then Next else Failure;
          assert last + [] == last;
          StretchPending(start, waited, history, last, [], w, true, true, outcome);
          if ok {
            StretchDone(start, history, w);
          }
        }
      }
    }

    method PushEntry(e: Entry, patience: nat) returns (outcome: Outcome)
      requires Valid()
      modifies this, pushFileBuf
      ensures Valid()
      ensures Stretch(old(history), history, EntryPlan(files, e), Well(files, e), outcome)
      ensures outcome == Next ==> EntryCopied(files, e, old(partitions), partitions)
      ensures outcome == Blocked ==> status == InProgress && |history| >= patience
    {
      match e {
        case Validate(target, json) =>
          outcome := PushValidate(target, json, patience);
        case Reload(target) =>
          var acked, at := DulinkWrite(ReloadCommand(target));
          outcome := if acked then Next else Failure;
        case Malformed =>
          outcome := Failure;
        case Image(image, partition, fits) =>
          if partition.None? || !fits {
            return Failure;
          }
          outcome := PushImage(image, partition.value);
      }
    }

    /** Entry k, after all before it went through. */
    method NextEntry(entries: seq<Entry>, k: nat, patience: nat, ghost first: map<string, seq<byte>>)
      returns (outcome: Outcome)
      requires Valid() && k < |entries| && EntriesWent(entries, k, first)
      modifies this, pushFileBuf
      ensures Valid()
      ensures outcome == Next ==> EntriesWent(entries, k + 1, first)
      ensures outcome != Next ==> Stretch([], history, Plan(files, entries), AllWell(files, entries), outcome)
      ensures outcome == Blocked ==> status == InProgress && |history| >= patience
    {
      ghost var now, parts := history, partitions;
      outcome := PushEntry(entries[k], patience);
      EntryDone(files, entries, k, now, history, outcome);
      if outcome == Next {
        AllCopiedNext(files, entries, k, first, parts, partitions);
      }
    }

    /** The first k entries went through. */
    ghost predicate EntriesWent(entries: seq<Entry>, k: nat, first: map<string, seq<byte>>)
      requires k <= |entries|
      reads this
    {
      && Stretch([], history, Plan(files, entries[..k]), AllWell(files, entries[..k]), Next)
      && AllCopied(files, entries[..k], first, partitions)
    }

    /** Entries act in map order, until one does not go through. */
    method PushEntries(entries: seq<Entry>, patience: nat) returns (outcome: Outcome)
      requires Valid() && history == []
      modifies this, pushFileBuf
      ensures Valid() && Stretch([], history, Plan(files, entries), AllWell(files, entries), outcome)
      ensures outcome == Next ==> AllCopied(files, entries, old(partitions), partitions)
      ensures outcome == Blocked ==> status == InProgress && |history| >= patience
    {
      var mapIndex := 0;
      while mapIndex < |entries|
        invariant Valid() && mapIndex <= |entries|
        invariant EntriesWent(entries, mapIndex, old(partitions))
      {
        outcome := NextEntry(entries, mapIndex, patience, old(partitions));
        if outcome != Next {
          return outcome;
        }
        mapIndex := mapIndex + 1;
      }
      assert entries[..|entries|] == entries;
      return Next;
    }

    /** The closing write of a run that went through or failed. */
    method CloseRun(list: Option<seq<Entry>>, outcome: Outcome)
      requires Valid() && outcome != Blocked
      requires list.Some? ==> Stretch([], history, Plan(files, list.value), AllWell(files, list.value), outcome)
      requires list.None? ==> history == [] && outcome == Failure
      modifies `history, `status
      ensures Valid() && Ended(files, list, history)
      ensures history[|history| - 1].out == if outcome == Next then PushMode(Disabled) else Abort
      ensures Writes(history) == Writes(old(history)) + [history[|history| - 1].out]
    {
      ghost var run := history;
      var out := if outcome == Next then PushMode(Disabled) else Abort;
      var ok;
      ghost var body;
      ok, body := Close(out);
      if list.Some? {
        BodyWent(run, body, Plan(files, list.value), AllWell(files, list.value), outcome);
      }
      ClosedRun(files, list, body, history, ok, outcome == Next);
      Extend(body, Write(out, ok));
    }

    /** The entries of the inactive chain act, and one closing write follows. */
    method PushList(list: Option<seq<Entry>>, patience: nat) returns (ended: bool)
      requires Valid() && history == []
      modifies this, pushFileBuf
      ensures Valid()
      ensures ended ==> Ended(files, list, history)
      ensures !ended ==> list.Some? && Writes(history) <= Plan(files, list.value)
      ensures !ended ==> status == InProgress && |history| >= patience
      ensures ended && history[|history| - 1].out == PushMode(Disabled) ==>
        list.Some? && AllCopied(files, list.value, old(partitions), partitions)
      ensures list.None? ==> ended && Writes(history) == [Abort]
    {
      if list.None? {
        CloseRun(list, Failure);
        return true;
      }
      var outcome := PushEntries(list.value, patience);
      if outcome == Blocked {
        return false;
      }
      CloseRun(list, outcome);
      return true;
    }

    /** Either the run is cut off waiting for a report, with a beginning of the plan written, or it ends
        with exactly one closing write: push mode is disabled if and only if the list of the inactive chain
        was found, its entries are well-formed and nothing failed, and the deployment is aborted otherwise.
        While chain A is active this is the list of chain B, and the other way round; any other active
        version aborts at once. When it is disabled, exactly the plan of that list was written before, and
        every partition holds what its entries copied to it, in order. */
    method PerformPush(active: Option<string>, listA: Option<seq<Entry>>, listB: Option<seq<Entry>>, patience: nat)
      returns (ended: bool)
      requires Valid() && history == []
      modifies this, pushFileBuf
      ensures Valid()
      ensures ended ==> Ended(files, Chosen(active, listA, listB), history)
      ensures !ended ==> Writes(history) <= Plan(files, EntriesOf(Chosen(active, listA, listB)))
      ensures !ended ==> status == InProgress && |history| >= patience
      ensures active == Some("0") && ended && history[|history| - 1].out == PushMode(Disabled) ==>
        && listB.Some? && Writes(history) == Plan(files, listB.value) + [PushMode(Disabled)]
        && AllCopied(files, listB.value, old(partitions), partitions)
      ensures active == Some("1") && ended && history[|history| - 1].out == PushMode(Disabled) ==>
        && listA.Some? && Writes(history) == Plan(files, listA.value) + [PushMode(Disabled)]
        && AllCopied(files, listA.value, old(partitions), partitions)
      ensures active != Some("0") && active != Some("1") ==> ended && Writes(history) == [Abort]
    {
      var list := Chosen(active, listA, listB);
      ended := PushList(list, patience);
      if ended {
        DisabledWrote(files, list, history);
      }
    }
  }

  // ---------- what a run's history says about validation ----------

  /** Where write number n stands. */
  lemma {:induction false} NthWrite(h: seq<Event>, n: nat) returns (i: nat)
    requires n < |Writes(h)|
    ensures i < |h| && |Writes(h[..i])| == n && h[i].Write? && h[i].out == Writes(h)[n]
  {
    var shorter := h[..|h| - 1];
    if n < |Writes(shorter)| {
      i := NthWrite(shorter, n);
      assert shorter[..i] == h[..i];
    } else {
      i := |h| - 1;
    }
  }

  /** Once a run has written anything of its plan behind the request of a validate entry, a success was
      reported between the reset that follows that entry's announcement and the next write. The plan's
      part of the history is called body; what comes after it does not matter. */
  lemma NothingBeforeSuccess(files: Package, entries: seq<Entry>, h: seq<Event>, body: seq<Out>, k: nat)
    returns (i: nat)
    requires Gated(h) && body <= Writes(h) && body <= Plan(files, entries)
    requires k < |entries| && entries[k].Validate? && entries[k].json.Some?
    requires |body| > |Plan(files, entries[..k])| + 2
    ensures i < |h| && |Writes(h[..i])| == |Plan(files, entries[..k])| + 2 && Released(h, i)
  {
    PlanNext(files, entries, k);
    var n := |Plan(files, entries[..k])| + 2;
    assert EntryPlan(files, entries[k])[2] == PushMode(Enabled);
    assert (Plan(files, entries[..k]) + EntryPlan(files, entries[k]))[n] == PushMode(Enabled);
    assert Writes(h)[n] == body[n] == Plan(files, entries)[n];
    i := NthWrite(h, n);
  }

  /** The same for every run that has ended, in whichever way: the closing write is not counted. */
  lemma EndedRunWaited(files: Package, list: Option<seq<Entry>>, h: seq<Event>, k: nat) returns (i: nat)
    requires Gated(h) && Ended(files, list, h)
    requires k < |EntriesOf(list)| && EntriesOf(list)[k].Validate? && EntriesOf(list)[k].json.Some?
    requires |Writes(h)| > |Plan(files, EntriesOf(list)[..k])| + 3
    ensures i < |h| && |Writes(h[..i])| == |Plan(files, EntriesOf(list)[..k])| + 2 && Released(h, i)
  {
    i := NothingBeforeSuccess(files, EntriesOf(list), h, Writes(h[..|h| - 1]), k);
  }

  /** Push mode is disabled only after every validate entry had its success. */
  lemma DisabledMeansValidated(files: Package, list: Option<seq<Entry>>, h: seq<Event>, k: nat) returns (i: nat)
    requires Gated(h) && Ended(files, list, h) && h[|h| - 1].out == PushMode(Disabled)
    requires k < |EntriesOf(list)| && EntriesOf(list)[k].Validate?
    ensures i < |h| && |Writes(h[..i])| == |Plan(files, EntriesOf(list)[..k])| + 2 && Released(h, i)
  {
    assert Well(files, EntriesOf(list)[k]);
    PlanNext(files, EntriesOf(list), k);
    i := EndedRunWaited(files, list, h, k);
  }
}
