/** The Python installer: its handlers, and what it leaves on the file system. */
module PyInstaller {
  import opened Staging
  import opened Text

  const MAX_CMD_LEN: nat := 512
  const MAX_CHUNK_LEN: nat := 16384

  type Files = map<string, seq<byte>>

  /** What parse_cmd makes of a command string. */
  datatype Parsed = Deploy(path: string, name: string) | Commit | ClearError | Invalid

  datatype State = Idle | Installing | PendingRl | PendingCommit | Error

  datatype Result = Success | Failure

  const RL_BG_APPLY: nat := 3
  const RL_INVALID: nat := 255

  // ---------- what changes the file system for good ----------

  /** A commit publishes the content deployed by one command under a name; clearing an error removes a
      staged file. Each change keeps the text of the command that caused it. */
  datatype Change =
    | Committed(text: string, deploy: Parsed, base: string, content: seq<byte>)
    | Cleared(text: string, base: string)

  function After(files: Files, c: Change): Files {
    match c
    case Committed(_, _, base, content) => (files - {base + SUFFIX})[base := content]
    case Cleared(_, base) => files - {base + SUFFIX}
  }

  function Replay(files: Files, changes: seq<Change>): Files {
    if changes == [] then files
    else After(Replay(files, changes[..|changes| - 1]), changes[|changes| - 1])
  }

  lemma ReplayMore(files: Files, changes: seq<Change>, c: Change)
    ensures Replay(files, changes + [c]) == After(Replay(files, changes), c)
  {
    assert (changes + [c])[..|changes|] == changes;
  }

  /** A commit is caused by a commit command and publishes the whole source of its deploy; a removal is
      caused by clear_error. */
  predicate Sound(parse: string -> Parsed, sources: Files, c: Change) {
    match c
    case Committed(text, deploy, base, content) =>
      && parse(text).Commit? && deploy.Deploy?
      && deploy.path in sources && content == sources[deploy.path]
    case Cleared(text, base) => parse(text).ClearError?
  }

  /** The rename of a staged file is what a commit does to the settled files. */
  lemma CommitSettles(files: Files, settled: Files, base: string, content: seq<byte>, c: Change)
    requires c.Committed? && c.base == base && c.content == content
    requires files - {base + SUFFIX} == settled - {base + SUFFIX}
    ensures (files - {base + SUFFIX})[base := content] == After(settled, c)
  {
  }

  lemma RemovalSettles(files: Files, settled: Files, c: Change)
    requires c.Cleared?
    requires files - {c.base + SUFFIX} == settled - {c.base + SUFFIX}
    ensures files - {c.base + SUFFIX} == After(settled, c)
  {
  }

  /** Nothing was recorded, or one change and what it does to the settled files. */
  ghost predicate Grown(before: seq<Change>, was: Files, now: seq<Change>, settled: Files) {
    || (now == before && settled == was)
    || (now != [] && now == before + [now[|now| - 1]] && settled == After(was, now[|now| - 1]))
  }

  lemma GrownReplay(initial: Files, before: seq<Change>, was: Files, now: seq<Change>, settled: Files)
    requires was == Replay(initial, before) && Grown(before, was, now, settled)
    ensures settled == Replay(initial, now)
  {
    if now != before {
      ReplayMore(initial, before, now[|now| - 1]);
    }
  }

  lemma SoundMore(parse: string -> Parsed, sources: Files, changes: seq<Change>, c: Change)
    requires AllSound(parse, sources, changes) && Sound(parse, sources, c)
    ensures AllSound(parse, sources, changes + [c])
  {
  }

  predicate AllSound(parse: string -> Parsed, sources: Files, changes: seq<Change>) {
    forall i :: 0 <= i < |changes| ==> Sound(parse, sources, changes[i])
  }

  /** Outside the live staged file the file system is what the changes made of the initial one. */
  ghost predicate Settled(files: Files, settled: Files, staged: string) {
    if staged == "" then files == settled else files - {staged} == settled - {staged}
  }

  predicate Publishes(c: Change, p: string, content: seq<byte>) {
    c.Committed? && c.base == p && c.content == content
  }

  function Last(texts: seq<string>): string
    requires texts != []
  {
    texts[|texts| - 1]
  }

  predicate Staged(path: string) {
    |path| >= |SUFFIX| && path[|path| - |SUFFIX|..] == SUFFIX
  }

  /** The name a staged file is for. */
  function BaseOf(path: string): string
    requires Staged(path)
  {
    path[..|path| - |SUFFIX|]
  }

  lemma BaseAndSuffix(base: string, path: string)
    ensures path == base + SUFFIX <==> Staged(path) && BaseOf(path) == base
  {
    if path == base + SUFFIX {
      assert path[|base|..] == SUFFIX && path[..|base|] == base;
    } else if Staged(path) {
      assert path == path[..|path| - |SUFFIX|] + path[|path| - |SUFFIX|..];
    }
  }

  /** Every file is an initial one, untouched, or what a commit published under its name. */
  lemma {:induction false} PublishedOrInitial(initial: Files, changes: seq<Change>, p: string)
    requires p in Replay(initial, changes)
    ensures (p in initial && Replay(initial, changes)[p] == initial[p])
         || exists i :: 0 <= i < |changes| && Publishes(changes[i], p, Replay(initial, changes)[p])
  {
    if changes != [] {
      var shorter, last := changes[..|changes| - 1], changes[|changes| - 1];
      if !Publishes(last, p, Replay(initial, changes)[p]) {
        PublishedOrInitial(initial, shorter, p);
        if i: nat :| i < |shorter| && Publishes(shorter[i], p, Replay(initial, shorter)[p]) {
          assert changes[i] == shorter[i];
        }
      }
    }
  }

  /** A staged file that was committed or cleared last is gone. */
  lemma StagedIsGone(initial: Files, changes: seq<Change>)
    requires changes != []
    ensures changes[|changes| - 1].base + SUFFIX !in Replay(initial, changes)
  {
    var base := changes[|changes| - 1].base;
    assert |base + SUFFIX| > |base|;
  }

  // ---------- the shared record ----------

  class DuInstaller {
    var state: State
    var currentRl: nat
    var pendingRl: nat
    var bCmdPending: bool
    var installerCmd: string
    var lastDeployedResult: Result
    var lastDeployedMetadata: string

    constructor ()
      ensures state == Idle && !bCmdPending && pendingRl == RL_INVALID
    {
      state, currentRl, pendingRl := Idle, 0, RL_INVALID;
      bCmdPending, installerCmd := false, "";
      lastDeployedResult, lastDeployedMetadata := Success, "";
    }

    /** The whole command is taken when the slot is free and it is short enough; otherwise nothing
        changes. */
    method WriteCmd(cmd: string) returns (ok: bool)
      modifies `bCmdPending, `installerCmd
      ensures ok <==> |cmd| < MAX_CMD_LEN && !old(bCmdPending)
      ensures ok ==> bCmdPending && installerCmd == cmd
      ensures !ok ==> bCmdPending == old(bCmdPending) && installerCmd == old(installerCmd)
    {
      if |cmd| >= MAX_CMD_LEN {
        return false;
      }
      if bCmdPending {
        return false;
      }
      installerCmd, bCmdPending := cmd, true;
      return true;
    }

    /** The lowest of the levels asked for since the last reset stays. */
    method SetPendingRl(rl: nat)
      requires pendingRl <= RL_INVALID && rl <= RL_INVALID
      modifies `pendingRl
      ensures rl == RL_INVALID ==> pendingRl == RL_INVALID
      ensures rl < RL_INVALID ==> pendingRl == if rl < old(pendingRl) then rl else old(pendingRl)
    {
      if rl >= RL_INVALID {
        pendingRl := RL_INVALID;
      } else if pendingRl >= RL_INVALID {
        pendingRl := rl;
      } else if rl <= pendingRl {
        pendingRl := rl;
      }
    }

    method ClearMailbox()
      modifies `bCmdPending, `installerCmd
      ensures !bCmdPending && installerCmd == ""
    {
      installerCmd, bCmdPending := "", false;
    }
  }

  // ---------- the installer ----------

  datatype Turn = Done | Refused | Blocked

  /** What the surroundings do in one turn: whether the size can be had, the staged file opened and renamed,
      and up to which byte, if not to the end, the source can be read and the staged file written. */
  datatype World = World(sized: bool, opens: bool, renames: bool, readable: Option<nat>, writable: Option<nat>)

  predicate Reaches(limit: Option<nat>, n: nat) {
    limit.None? || limit.value >= n
  }

  class SampleInstaller {
    const du: DuInstaller
    /** Command parsing, path joining and base names, and the files DU Link serves. */
    const parse: string -> Parsed
    const join: (string, string) -> string
    const nameOf: string -> string
    const sources: Files
    /** The file system when the installer started. */
    const initial: Files

    var bUpdateFailed: bool
    var cmd: Parsed
    var filePathBuf: string
    var savenameBuf: string
    var stagedFilePathBuf: string
    var installDir: string

    var files: Files
    ghost var changes: seq<Change>
    /** What the changes made of the initial file system. */
    ghost var settled: Files
    /** The command texts taken out of the mailbox, in order. */
    ghost var taken: seq<string>

    constructor (du: DuInstaller, parse: string -> Parsed, join: (string, string) -> string,
        nameOf: string -> string, sources: Files, files: Files)
      requires du.state == Idle && du.pendingRl == RL_INVALID
      ensures this.du == du && initial == files && Valid() && changes == [] && settled == files
    {
      this.du, this.parse, this.join, this.nameOf := du, parse, join, nameOf;
      this.sources, this.initial, this.files := sources, files, files;
      bUpdateFailed, cmd := false, Invalid;
      filePathBuf, savenameBuf, stagedFilePathBuf, installDir := "", "", "", "";
      changes, settled, taken := [], files, [];
    }

    /** What holds between any two steps: the staged path is empty or carries the suffix. */
    ghost predicate Core()
      reads this, du
    {
      && (du.pendingRl == RL_BG_APPLY || du.pendingRl == RL_INVALID)
      && Settled(files, settled, stagedFilePathBuf)
      && AllSound(parse, sources, changes)
      && (stagedFilePathBuf != "" ==> Staged(stagedFilePathBuf))
    }

    /** What each state adds: no staged file while no deploy is under way, a whole source in the staged
        file while a commit is awaited, and the failure flag exactly in ERROR. */
    ghost predicate Fits(state: State)
      reads this, du
    {
      && (bUpdateFailed <==> state == Error)
      && (state == PendingRl ==> du.pendingRl == RL_BG_APPLY)
      && (state == PendingRl || state == Installing ==> InHand())
      && (state != PendingCommit && state != Error ==> stagedFilePathBuf == "")
      && (state == PendingCommit ==> WholeStaged())
    }

    ghost predicate Valid()
      reads this, du
    {
      Core() && Fits(du.state)
    }

    /** The staged file holds the whole source of the deploy in hand. */
    ghost predicate WholeStaged()
      reads this
    {
      && Staged(stagedFilePathBuf) && stagedFilePathBuf in files
      && cmd.Deploy? && cmd.path == filePathBuf
      && filePathBuf in sources && files[stagedFilePathBuf] == sources[filePathBuf]
    }

    /** The command in hand is the one the path was taken from. */
    ghost predicate InHand()
      reads this
    {
      cmd.Deploy? ==> cmd.path == filePathBuf && cmd.name == savenameBuf
    }

    /** Command writes and run-level changes by other threads, any number of them. */
    method Others()
      requires Valid()
      modifies du`bCmdPending, du`installerCmd, du`currentRl
      ensures Valid()
    {
      var calls: nat := *;
      while calls > 0
        invariant Valid()
      {
        var text: string :| true;
        var rl: nat :| rl <= RL_INVALID;
        if * {
          var ok := du.WriteCmd(text);
        } else {
          du.currentRl := rl;
        }
        calls := calls - 1;
      }
    }

    /** Waits until a command is pending, cut off after any number of wake-ups, and parses it; it stays
        in the mailbox. */
    method TakeCommand(patience: nat) returns (came: bool, parsed: Parsed)
      requires Valid()
      modifies du`bCmdPending, du`installerCmd, du`currentRl, `taken
      ensures Valid() && came == du.bCmdPending
      ensures came ==> taken == old(taken) + [du.installerCmd] && parsed == parse(Last(taken))
      ensures !came ==> taken == old(taken)
    {
      Others();
      var left := patience;
      while !du.bCmdPending && left > 0
        invariant Valid() && taken == old(taken)
      {
        Others();
        left := left - 1;
      }
      came, parsed := du.bCmdPending, Invalid;
      if came {
        parsed := parse(du.installerCmd);
        taken := taken + [du.installerCmd];
      }
    }

    /** Enters a state: IDLE records the outcome of the deployment and forgets it, and every state in
        which a command may come empties the mailbox. */
    method SetState(target: State)
      requires Core()
      requires target == Idle ==> files == settled
      requires target == PendingCommit ==> WholeStaged()
      requires target == Installing || target == PendingRl ==> stagedFilePathBuf == ""
      requires target == PendingRl ==> du.pendingRl == RL_BG_APPLY
      requires target == PendingRl || target == Installing ==> InHand()
      requires target != Idle && target != Error ==> !bUpdateFailed
      modifies this`bUpdateFailed, this`filePathBuf, this`savenameBuf, this`stagedFilePathBuf, this`installDir
      modifies du`state, du`bCmdPending, du`installerCmd, du`lastDeployedResult, du`lastDeployedMetadata
      ensures Valid() && du.state == target
      ensures target == Idle ==>
        && du.lastDeployedResult == (if old(bUpdateFailed) then Failure else Success)
        && du.lastDeployedMetadata == old(filePathBuf) && installDir == ""
      ensures du.bCmdPending == (old(du.bCmdPending) && (target == Installing || target == PendingRl))
      ensures du.installerCmd == if target == Installing || target == PendingRl then old(du.installerCmd) else ""
      ensures target != Idle ==> stagedFilePathBuf == old(stagedFilePathBuf) && filePathBuf == old(filePathBuf)
      ensures target != Idle ==> savenameBuf == old(savenameBuf)
    {
      match target {
        case Idle =>
          du.lastDeployedResult := if bUpdateFailed then Failure else Success;
          du.lastDeployedMetadata := filePathBuf;
          du.ClearMailbox();
          filePathBuf, savenameBuf, stagedFilePathBuf, installDir := "", "", "", "";
          bUpdateFailed := false;
        case PendingCommit =>
          du.ClearMailbox();
        case Error =>
          bUpdateFailed := true;
          du.ClearMailbox();
        case _ =>
      }
      du.state := target;
    }

    /** Initialisation enters IDLE, which forgets the working directory again. */
    method InstallerInit(cwd: string)
      requires Valid() && du.state == Idle
      modifies this, du
      ensures Valid() && du.state == Idle && installDir == "" && files == old(files)
    {
      installDir := cwd;
      SetState(Idle);
    }

    /** A valid command leads on by the run level, and only an invalid one is refused. */
    method StateIdle(patience: nat) returns (turn: Turn)
      requires Valid() && du.state == Idle
      modifies this, du
      ensures Core() && (turn != Refused ==> Valid())
      ensures files == old(files) && changes == old(changes) && settled == old(settled)
      ensures turn == Blocked ==> !du.bCmdPending && du.state == old(du.state)
      ensures turn != Blocked ==> taken != [] && (turn == Refused <==> parse(Last(taken)).Invalid?)
      ensures turn == Done ==> du.bCmdPending && du.installerCmd == Last(taken) && cmd == parse(Last(taken))
      ensures turn == Done ==> du.state == if du.currentRl >= RL_BG_APPLY then Installing else PendingRl
    {
      var came, parsed := TakeCommand(patience);
      if !came {
        return Blocked;
      }
      var needsRl := du.currentRl < RL_BG_APPLY;
      if parsed.Invalid? {
        return Refused;
      }
      cmd := parsed;
      filePathBuf := if parsed.Deploy? then parsed.path else "";
      savenameBuf := if parsed.Deploy? then parsed.name else "";
      if !needsRl {
        SetState(Installing);
      } else {
        du.SetPendingRl(RL_BG_APPLY);
        SetState(PendingRl);
      }
      return Done;
    }

    method StatePendingRl(patience: nat) returns (turn: Turn)
      requires Valid() && du.state == PendingRl
      modifies this, du
      ensures Core() && (turn != Refused ==> Valid())
      ensures files == old(files) && changes == old(changes) && settled == old(settled) && turn != Refused
      ensures turn == Done ==> du.state == Installing && du.pendingRl == RL_INVALID && du.currentRl >= RL_BG_APPLY
      ensures turn == Blocked ==> du.currentRl < RL_BG_APPLY && du.state == PendingRl
    {
      Others();
      var left := patience;
      while du.pendingRl < RL_INVALID && du.currentRl < du.pendingRl
        invariant Valid() && du.state == PendingRl
        modifies du`bCmdPending, du`installerCmd, du`currentRl
        decreases left
      {
        if left == 0 {
          return Blocked;
        }
        Others();
        left := left - 1;
      }
      du.SetPendingRl(RL_INVALID);
      SetState(Installing);
      return Done;
    }

    /** A read returns some of what was asked for, up to what can be read; nothing means it failed. */
    method ReadRetry(path: string, offset: nat, length: nat, readable: Option<nat>) returns (data: seq<byte>)
      requires path in sources && offset < |sources[path]| && length >= 1 && Reaches(readable, offset)
      ensures |data| <= length && data <= sources[path][offset..] && Reaches(readable, offset + |data|)
      ensures data == [] <==> !Reaches(readable, offset + 1)
    {
      var rest := sources[path][offset..];
      if !Reaches(readable, offset + 1) {
        return [];
      }
      assert 1 <= |rest|;
      var n: nat :| 1 <= n <= length && n <= |rest| && Reaches(readable, offset + n);
      data := rest[..n];
    }

    /** The deploy in hand can be carried out: its source is not empty, its size can be had, the staged file
        can be opened, and everything can be read and written. */
    predicate CanDeploy(w: World)
      reads this
    {
      && filePathBuf in sources && sources[filePathBuf] != [] && w.sized && w.opens
      && Reaches(w.readable, |sources[filePathBuf]|) && Reaches(w.writable, |sources[filePathBuf]|)
    }

    /** The name a deploy is staged under. */
    function StagedName(): string
      reads this
    {
      join(installDir, if savenameBuf != "" then savenameBuf else nameOf(filePathBuf)) + SUFFIX
    }

    /** The size of the source, or nothing. */
    method GetSize(w: World) returns (totalBytes: int)
      ensures totalBytes == if filePathBuf in sources && w.sized then |sources[filePathBuf]| else 0
    {
      totalBytes := if filePathBuf in sources && w.sized then |sources[filePathBuf]| else 0;
    }

    /** Stages the file, which works exactly when everything it needs does. Success means the staged file
        holds the whole source; nothing but the staged file changes, and it is reported as soon as it may
        exist. */
    method ExecDeployCmd(w: World) returns (ok: bool, stagedOut: string)
      modifies `files
      ensures ok <==> CanDeploy(w)
      ensures stagedOut == if filePathBuf in sources && sources[filePathBuf] != [] && w.sized then StagedName() else ""
      ensures if stagedOut == "" then files == old(files) && !ok
              else Staged(stagedOut) && files - {stagedOut} == old(files) - {stagedOut}
      ensures ok ==> filePathBuf in sources && stagedOut in files && files[stagedOut] == sources[filePathBuf]
    {
      var totalBytes := GetSize(w);
      if totalBytes <= 0 {
        return false, "";
      }
      var save := if savenameBuf != "" then savenameBuf else nameOf(filePathBuf);
      var base := join(installDir, save);
      stagedOut := base + SUFFIX;
      BaseAndSuffix(base, stagedOut);
      if !w.opens {
        return false, stagedOut;
      }
      files := files[stagedOut := []];
      ok := CopySource(w, stagedOut);
    }

    /** The copy loop. */
    method CopySource(w: World, staged: string) returns (ok: bool)
      requires filePathBuf in sources && sources[filePathBuf] != []
      requires staged in files && files[staged] == []
      modifies `files
      ensures ok <==> Reaches(w.readable, |sources[filePathBuf]|) && Reaches(w.writable, |sources[filePathBuf]|)
      ensures ok ==> staged in files && files[staged] == sources[filePathBuf]
      ensures files - {staged} == old(files) - {staged}
    {
      var source := sources[filePathBuf];
      var offset, remaining := 0, |source|;
      while remaining > 0
        invariant 0 <= remaining && offset + remaining == |source|
        invariant Reaches(w.readable, offset) && Reaches(w.writable, offset)
        invariant staged in files && files[staged] == source[..offset]
        invariant files - {staged} == old(files) - {staged}
      {
        var chunkLen := if remaining < MAX_CHUNK_LEN then remaining else MAX_CHUNK_LEN;
        var data := ReadRetry(filePathBuf, offset, chunkLen, w.readable);
        if data == [] {
          return false;
        }
        if !Reaches(w.writable, offset + |data|) {
          return false;
        }
        assert source[..offset] + data == source[..offset + |data|];
        files := files[staged := files[staged] + data];
        offset := offset + |data|;
        remaining := remaining - |data|;
      }
      return true;
    }

    /** A deploy is carried out exactly when it can be, and leads on with its whole source staged under its
        name; everything else is refused. */
    method StateInstalling(w: World) returns (turn: Turn)
      requires Valid() && du.state == Installing
      modifies this, du
      ensures Core() && (turn != Refused ==> Valid())
      ensures changes == old(changes) && settled == old(settled) && turn != Blocked
      ensures stagedFilePathBuf == "" ==> files == old(files)
      ensures files - {stagedFilePathBuf} == old(files) - {stagedFilePathBuf}
      ensures turn == Done <==> old(cmd).Deploy? && old(CanDeploy(w))
      ensures turn == Done ==> du.state == PendingCommit && filePathBuf == old(filePathBuf)
      ensures turn == Done ==> stagedFilePathBuf == old(StagedName())
      ensures turn == Done ==> filePathBuf in sources && files[stagedFilePathBuf] == sources[filePathBuf]
    {
      if !cmd.Deploy? {
        return Refused;
      }
      var ok, stagedOut := ExecDeployCmd(w);
      stagedFilePathBuf := stagedOut;
      if !ok {
        return Refused;
      }
      SetState(PendingCommit);
      return Done;
    }

    /** Renames the staged file, if there is one, to its name without the suffix, or changes nothing. */
    method ExecCommitCmd(w: World) returns (ok: bool)
      requires Staged(stagedFilePathBuf)
      modifies `files
      ensures ok <==> stagedFilePathBuf in old(files) && w.renames
      ensures files == if ok
        then (old(files) - {stagedFilePathBuf})[BaseOf(stagedFilePathBuf) := old(files)[stagedFilePathBuf]]
        else old(files)
    {
      if stagedFilePathBuf !in files {
        return false;
      }
      ghost var base := BaseOf(stagedFilePathBuf);
      BaseAndSuffix(base, stagedFilePathBuf);
      PyCommitUndoesStaging(base);
      var commitPath := PyCommitPath(stagedFilePathBuf);
      if commitPath.None? {
        return false;
      }
      if !w.renames {
        return false;
      }
      files := (files - {stagedFilePathBuf})[commitPath.value := files[stagedFilePathBuf]];
      return true;
    }

    /** The rename, recorded as a change by the last command taken. */
    method CommitStaged(w: World) returns (ok: bool)
      requires Core() && WholeStaged() && taken != [] && parse(Last(taken)).Commit?
      modifies `files, `changes, `settled
      ensures AllSound(parse, sources, changes) && Grown(old(changes), old(settled), changes, settled)
      ensures ok == w.renames
      ensures if ok
        then
          && files == settled
          && changes == old(changes) + [Committed(Last(taken), cmd, BaseOf(stagedFilePathBuf), sources[filePathBuf])]
        else files == old(files) && changes == old(changes) && settled == old(settled)
    {
      ghost var base, content, before := BaseOf(stagedFilePathBuf), sources[filePathBuf], files;
      ghost var change := Committed(Last(taken), cmd, base, content);
      BaseAndSuffix(base, stagedFilePathBuf);
      ok := ExecCommitCmd(w);
      if ok {
        CommitSettles(before, settled, base, content, change);
        SoundMore(parse, sources, changes, change);
        changes, settled := changes + [change], After(settled, change);
      }
    }

    /** A commit command is carried out, and when that worked the installer is idle. */
    method FinishCommit(w: World) returns (ok: bool)
      requires Valid() && du.state == PendingCommit && taken != [] && parse(Last(taken)).Commit?
      modifies `files, `changes, `settled
      modifies `bUpdateFailed, `filePathBuf, `savenameBuf, `stagedFilePathBuf, `installDir
      modifies du`state, du`bCmdPending, du`installerCmd, du`lastDeployedResult, du`lastDeployedMetadata
      ensures Core() && (ok ==> Valid()) && ok == w.renames
      ensures !ok ==> files == old(files) && changes == old(changes)
      ensures Grown(old(changes), old(settled), changes, settled)
      ensures ok ==> du.state == Idle && du.lastDeployedResult == Success && du.lastDeployedMetadata == old(filePathBuf)
      ensures ok ==>
        var base, content := old(BaseOf(stagedFilePathBuf)), old(sources[filePathBuf]);
        changes == old(changes) + [Committed(Last(taken), cmd, base, content)]
    {
      ok := CommitStaged(w);
      if ok {
        SetState(Idle);
      }
    }

    /** Exactly a commit command whose rename works is carried out, with the content of the deploy in hand; a
        failed or wrong command changes nothing. */
    method StatePendingCommit(patience: nat, w: World) returns (turn: Turn)
      requires Valid() && du.state == PendingCommit
      modifies this, du
      ensures Core() && (turn != Refused ==> Valid())
      ensures turn != Done ==> files == old(files) && changes == old(changes)
      ensures Grown(old(changes), old(settled), changes, settled)
      ensures turn == Blocked ==> !du.bCmdPending && du.state == old(du.state)
      ensures turn != Blocked ==> taken != [] && (turn == Done <==> parse(Last(taken)).Commit? && w.renames)
      ensures turn == Done ==> du.state == Idle
      ensures turn == Done ==> du.lastDeployedResult == Success && du.lastDeployedMetadata == old(filePathBuf)
      ensures turn == Done ==>
        var base, content := old(BaseOf(stagedFilePathBuf)), old(sources[filePathBuf]);
        changes == old(changes) + [Committed(Last(taken), old(cmd), base, content)]
    {
      var came, parsed := TakeCommand(patience);
      if !came {
        return Blocked;
      }
      if !parsed.Commit? {
        return Refused;
      }
      var ok := FinishCommit(w);
      return if ok then Done else Refused;
    }

    /** The staged file, if there is one, is removed, recorded as a change by the last command taken. */
    method RemoveStaged()
      requires Core() && taken != [] && parse(Last(taken)).ClearError?
      modifies `files, `changes, `settled
      ensures AllSound(parse, sources, changes) && files == settled
      ensures Grown(old(changes), old(settled), changes, settled)
      ensures stagedFilePathBuf == "" ==> files == old(files) && changes == old(changes)
      ensures stagedFilePathBuf != "" ==> stagedFilePathBuf !in files
      ensures stagedFilePathBuf != "" ==> changes == old(changes) + [Cleared(Last(taken), BaseOf(stagedFilePathBuf))]
    {
      if stagedFilePathBuf != "" {
        ghost var base := BaseOf(stagedFilePathBuf);
        ghost var change := Cleared(Last(taken), base);
        BaseAndSuffix(base, stagedFilePathBuf);
        RemovalSettles(files, settled, change);
        SoundMore(parse, sources, changes, change);
        files := files - {stagedFilePathBuf};
        changes, settled := changes + [change], After(settled, change);
      }
    }

    /** Only clear_error is carried out: it removes the staged file, if there is one. */
    method StateError(patience: nat) returns (turn: Turn)
      requires Valid() && du.state == Error
      modifies this, du
      ensures Core() && (turn != Refused ==> Valid())
      ensures turn != Done ==> files == old(files) && changes == old(changes)
      ensures Grown(old(changes), old(settled), changes, settled)
      ensures turn == Blocked ==> !du.bCmdPending && du.state == old(du.state)
      ensures turn != Blocked ==> taken != [] && (turn == Done <==> parse(Last(taken)).ClearError?)
      ensures turn == Done ==> du.state == Idle && du.lastDeployedResult == Failure
      ensures turn == Done && old(stagedFilePathBuf) == "" ==> files == old(files) && changes == old(changes)
      ensures turn == Done && old(stagedFilePathBuf) != "" ==> old(stagedFilePathBuf) !in files
      ensures turn == Done && old(stagedFilePathBuf) != "" ==>
        changes == old(changes) + [Cleared(Last(taken), old(BaseOf(stagedFilePathBuf)))]
    {
      var came, parsed := TakeCommand(patience);
      if !came {
        return Blocked;
      }
      if !parsed.ClearError? {
        return Refused;
      }
      RemoveStaged();
      SetState(Idle);
      return Done;
    }

    /** One turn of the state machine, and the step to ERROR when a handler refuses. A turn ends without
        effect only while the command or the run level that is waited for has not come. */
    method TakeTurn(patience: nat, w: World) returns (turn: Turn)
      requires Valid()
      modifies this, du
      ensures Valid() && Grown(old(changes), old(settled), changes, settled)
      ensures turn == Blocked ==> du.state == old(du.state) && old(du.state) != Installing
      ensures turn == Blocked ==>
        if old(du.state) == PendingRl then du.currentRl < RL_BG_APPLY else !du.bCmdPending
      ensures turn == Refused ==> du.state == Error
      ensures old(du.state) == Installing ==> (turn == Done <==> old(cmd).Deploy? && old(CanDeploy(w)))
      ensures turn == Done ==> Leads(old(du.state), du.state)
      ensures turn != Blocked && old(du.state) == Idle ==>
        taken != [] && (turn == Done <==> !parse(Last(taken)).Invalid?)
      ensures turn != Blocked && old(du.state) == PendingCommit ==>
        taken != [] && (turn == Done <==> parse(Last(taken)).Commit? && w.renames)
      ensures turn != Blocked && old(du.state) == Error ==>
        taken != [] && (turn == Done <==> parse(Last(taken)).ClearError?)
    {
      match du.state {
        case Idle => turn := StateIdle(patience);
        case Installing => turn := StateInstalling(w);
        case PendingRl => turn := StatePendingRl(patience);
        case PendingCommit => turn := StatePendingCommit(patience, w);
        case Error => turn := StateError(patience);
      }
      if turn == Refused {
        SetState(Error);
      }
    }

    /** Where a turn that went well leads. */
    static predicate Leads(before: State, after: State) {
      match before
      case Idle => after == Installing || after == PendingRl
      case PendingRl => after == Installing
      case Installing => after == PendingCommit
      case PendingCommit => after == Idle
      case Error => after == Idle
    }

    /** Any number of turns of the state machine, cut short only where it waits for what has not come.
        Whenever it is in IDLE the file system is the initial one with the recorded commits and removals done
        to it, so that no staged file is left over. Every change was caused by a commit or clear_error
        command, and every commit published the whole source of its deploy. */
    method InstallerRun(turns: nat, patience: nat, world: nat -> World) returns (ran: nat)
      requires Valid() && settled == Replay(initial, changes)
      modifies this, du
      ensures Valid() && settled == Replay(initial, changes)
      ensures du.state == Idle ==> files == Replay(initial, changes)
      ensures AllSound(parse, sources, changes)
      ensures ran <= turns
      ensures ran < turns ==>
        du.state != Installing && if du.state == PendingRl then du.currentRl < RL_BG_APPLY else !du.bCmdPending
    {
      ran := 0;
      while ran < turns
        invariant Valid() && settled == Replay(initial, changes) && ran <= turns
      {
        ghost var before, was := changes, settled;
        var turn := TakeTurn(patience, world(ran));
        GrownReplay(initial, before, was, changes, settled);
        if turn == Blocked {
          return;
        }
        ran := ran + 1;
      }
    }
  }
}
