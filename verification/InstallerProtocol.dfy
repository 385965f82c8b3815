/** The installer plugin as a protocol: one installer thread and any number of DU Link callbacks,
    one mutex, one condition variable, and a map of files. */
module InstallerProtocol {
  import opened Text
  import opened Staging
  import opened DuInstallers

  const MAX_CHUNK_LEN: nat := 16384

  datatype CmdId = DeployId | CommitId | ClearErrorId

  /** What parseCmd makes of a command text. A deploy whose arguments are rejected has already
      stored its id and may have overwritten the argument buffers. */
  datatype Parsed =
    | Deploy(path: string, name: string)
    | Commit
    | ClearError
    | Unknown
    | BadDeploy(badPath: Option<string>, badName: Option<string>)
  {
    predicate Ok() {
      Deploy? || Commit? || ClearError?
    }
  }

  /** The fixed surroundings of a run: command parser, DU Link sources, DU_PATH_MAX, first files. */
  datatype Config = Config(
    parse: string -> Parsed,
    source: string -> seq<byte>,
    pathMax: nat,
    cwd: string,
    files: map<string, seq<byte>>)

  /** "deploy", a blank and "path=": what stands in a deploy command before its shortest value. */
  const TAG_ROOM: nat := 12

  /** stripTagFromInput copies a value out of the command text, so path and save name are shorter than
      the text by at least the command word, a blank and a tag. */
  ghost predicate TakesFromText(parse: string -> Parsed) {
    forall t :: parse(t).Deploy? ==> |parse(t).path| + TAG_ROOM <= |t| && |parse(t).name| + TAG_ROOM <= |t|
  }

  /** Fields of SAMPLE_INSTALLER that only the installer thread touches. */
  datatype Private = Private(
    cmdId: CmdId,
    filePath: string,
    savename: string,
    staged: string,
    installDir: string,
    updateFailed: bool)

  /** The four condition-variable loops. */
  datatype Wait = WIdle | WError | WCommit | WRl

  datatype Pc =
    | Dispatch
    | Lock(w: Wait)
    | Test(w: Wait)
    | GoWait(w: Wait)
    | Asleep(w: Wait)
    | Reacquire(w: Wait)
    | IdleParsed(ok: bool, needsRl: bool)
    | ErrorParsed(ok: bool)
    | CommitParsed(ok: bool)
    | AskRl
    | RlDone
    | Installing
    | Opening
    | Copying(remaining: nat, offset: nat)
    | Committing
    | Failed
    | SetInfo
    | SetClear(target: InstState)
    | Wipe
    | Publish(next: InstState)

  datatype CbPc =
    | CmdCall(buf: string, length: nat)
    | CmdWritten
    | CmdSignalled
    | RlCall(rl: RunLevel)
    | RlUpdated

  datatype Holder = Free | ByThread | ByCb(id: nat)

  datatype Sys = Sys(
    sh: Shared,
    pv: Private,
    pc: Pc,
    mutex: Holder,
    cbs: map<nat, CbPc>,
    fs: map<string, seq<byte>>,
    booted: bool)

  /** How an outside operation of the installer thread turns out: success flag and byte count. */
  datatype Choice = Choice(ok: bool, n: nat)

  datatype Label =
    | Arrive(id: nat, call: CbPc)
    | Callback(id: nat)
    | Thread(ch: Choice)
    | Spurious

  /** installerInit has exported its nodes and is about to enter setState(IDLE). */
  function Boot(c: Config): Sys {
    Sys(INITIAL, Private(DeployId, "", "", "", c.cwd, false), SetInfo, Free, map[], c.files, false)
  }

  /** A wait loop's exit condition. */
  predicate Ready(w: Wait, sh: Shared) {
    if w == WRl then sh.pendingRl >= RL_INVALID || sh.currentRl >= sh.pendingRl
    else sh.cmdPending
  }

  function StateOf(w: Wait): InstState {
    match w
    case WIdle => IDLE
    case WError => ERROR
    case WCommit => PENDING_COMMIT
    case WRl => PENDING_RL
  }

  function Entry(st: InstState): Pc {
    match st
    case IDLE => Lock(WIdle)
    case ERROR => Lock(WError)
    case PENDING_COMMIT => Lock(WCommit)
    case PENDING_RL => Lock(WRl)
    case INSTALLING => Installing
  }

  /** The private fields after parseCmd. */
  function Loaded(pv: Private, p: Parsed): Private {
    match p
    case Deploy(path, name) => pv.(cmdId := DeployId, filePath := path, savename := name)
    case Commit => pv.(cmdId := CommitId)
    case ClearError => pv.(cmdId := ClearErrorId)
    case Unknown => pv
    case BadDeploy(path, name) =>
      pv.(cmdId := DeployId,
          filePath := if path.Some? then path.value else pv.filePath,
          savename := if name.Some? then name.value else pv.savename)
  }

  function ParsedPc(w: Wait, ok: bool, sh: Shared): Pc
    requires w != WRl
  {
    match w
    case WIdle => IdleParsed(ok, sh.currentRl < RL_BG_APPLY)
    case WError => ErrorParsed(ok)
    case WCommit => CommitParsed(ok)
  }

  function Min(a: nat, b: nat): nat {
    if a < b then a else b
  }

  /** Steps that take the mutex wait for it to be free; a sleeping thread does not step by itself. */
  predicate ThreadEnabled(s: Sys) {
    match s.pc
    case Lock(_) => s.mutex == Free
    case Reacquire(_) => s.mutex == Free
    case Asleep(_) => false
    case AskRl => s.mutex == Free
    case RlDone => s.mutex == Free
    case SetInfo => s.mutex == Free
    case SetClear(_) => s.mutex == Free
    case Publish(_) => s.mutex == Free
    case _ => true
  }

  /** setInstallerPendingRl followed by the check of its notification. */
  function RequestRl(s: Sys, rl: RunLevel, ch: Choice, next: InstState): Sys {
    var merged := MergedRl(s.sh.pendingRl, rl);
    s.(sh := s.sh.(pendingRl := merged),
       pc := if merged != s.sh.pendingRl && !ch.ok then Failed else Publish(next))
  }

  function StartDeploy(c: Config, s: Sys, ch: Choice): Sys {
    if s.pv.cmdId != DeployId || !ch.ok then s.(pc := Failed)
    else
      match StagedPath(s.pv.installDir, s.pv.filePath, s.pv.savename)
      case None => s.(pc := Failed)
      case Some(staged) =>
        var kept := if |s.pv.savename| > 0 then s.pv.savename else s.pv.filePath;
        s.(pv := s.pv.(staged := staged, savename := kept), pc := Opening)
  }

  /** One turn of execDeployCmd's loop. A failed turn may leave part of the chunk in the file;
      a read of no bytes makes the write fail. */
  function CopyTurn(c: Config, s: Sys, ch: Choice): Sys
    requires s.pc.Copying?
  {
    var src := c.source(s.pv.filePath);
    var rest := if s.pc.offset <= |src| then |src| - s.pc.offset else 0;
    var n := Min(ch.n, Min(Min(s.pc.remaining, MAX_CHUNK_LEN), rest));
    var sofar := if s.pv.staged in s.fs then s.fs[s.pv.staged] else [];
    var data := if n == 0 then sofar else sofar + src[s.pc.offset..s.pc.offset + n];
    s.(fs := if n == 0 then s.fs else s.fs[s.pv.staged := data],
       pc := if n == 0 || !ch.ok then Failed else Copying(s.pc.remaining - n, s.pc.offset + n))
  }

  /** The rename of execCommitCmd is made relative to the staged file's own descriptor,
      so it can only work for an absolute target. */
  predicate Renames(s: Sys, ch: Choice) {
    s.pc.Committing? && ch.ok && s.pv.staged in s.fs &&
    var to := CommitPath(s.pv.staged);
    to.Some? && |to.value| > 0 && to.value[0] == '/'
  }

  predicate Deciding(pc: Pc) {
    pc.IdleParsed? || pc.ErrorParsed? || pc.CommitParsed? || pc.AskRl? || pc.RlDone?
  }

  predicate Working(pc: Pc) {
    pc.Installing? || pc.Opening? || pc.Copying? || pc.Committing?
  }

  predicate InSetState(pc: Pc) {
    pc.Failed? || pc.SetInfo? || pc.SetClear? || pc.Wipe? || pc.Publish?
  }

  /** installerRun's dispatch and the four loops on the condition variable, with the parse that
      ends three of them inside the lock. */
  function WaitStep(c: Config, s: Sys): Sys
    requires s.pc.Dispatch? || s.pc.Lock? || s.pc.Reacquire? || s.pc.Test? || s.pc.GoWait?
  {
    match s.pc
    case Dispatch => s.(pc := Entry(s.sh.state))
    case Lock(w) => s.(mutex := ByThread, pc := Test(w))
    case Reacquire(w) => s.(mutex := ByThread, pc := Test(w))
    case Test(w) =>
      if !Ready(w, s.sh) then s.(pc := GoWait(w))
      else if w == WRl then s.(mutex := Free, pc := RlDone)
      else
        var p := c.parse(s.sh.cmd);
        s.(mutex := Free, pv := Loaded(s.pv, p), pc := ParsedPc(w, p.Ok(), s.sh))
    case GoWait(w) => s.(mutex := Free, pc := Asleep(w))
  }

  /** What a handler decides once it has its command or its run level. */
  function DecideStep(s: Sys, ch: Choice): Sys
    requires Deciding(s.pc)
  {
    match s.pc
    case IdleParsed(ok, needsRl) =>
      s.(pc := if !ok then Failed else if needsRl then AskRl else Publish(INSTALLING))
    case ErrorParsed(ok) =>
      s.(pc := if !ok || s.pv.cmdId != ClearErrorId then Failed else SetInfo)
    case CommitParsed(ok) =>
      s.(pc := if !ok || s.pv.cmdId != CommitId then Failed else Committing)
    case AskRl => RequestRl(s, RL_BG_APPLY, ch, PENDING_RL)
    case RlDone => RequestRl(s, RL_INVALID, ch, INSTALLING)
  }

  /** execDeployCmd and execCommitCmd. */
  function WorkStep(c: Config, s: Sys, ch: Choice): Sys
    requires Working(s.pc)
  {
    match s.pc
    case Installing => StartDeploy(c, s, ch)
    case Opening =>
      if !ch.ok then s.(pc := Failed)
      else s.(fs := s.fs[s.pv.staged := []], pc := Copying(|c.source(s.pv.filePath)|, 0))
    case Copying(remaining, offset) =>
      if remaining == 0 then s.(pc := SetClear(PENDING_COMMIT)) else CopyTurn(c, s, ch)
    case Committing =>
      if Renames(s, ch) then
        s.(fs := (s.fs - {s.pv.staged})[CommitPath(s.pv.staged).value := s.fs[s.pv.staged]], pc := SetInfo)
      else s.(pc := Failed)
  }

  /** setState: its lock regions one by one, the private fields between them. */
  function SetStateStep(c: Config, s: Sys): Sys
    requires InSetState(s.pc)
  {
    match s.pc
    case Failed => s.(pv := s.pv.(updateFailed := true), pc := SetClear(ERROR))
    case SetInfo =>
      s.(sh := Recorded(s.sh, if s.pv.updateFailed then FAILED else SUCCESS, s.pv.filePath, c.pathMax),
         pc := SetClear(IDLE))
    case SetClear(t) =>
      s.(sh := ClearedMailbox(s.sh), booted := true, pc := if t == IDLE then Wipe else Publish(t))
    case Wipe =>
      s.(pv := s.pv.(filePath := "", savename := "", staged := "", installDir := "", updateFailed := false),
         pc := Publish(IDLE))
    case Publish(t) => s.(sh := s.sh.(state := t), pc := Dispatch)
  }

  function ThreadStep(c: Config, s: Sys, ch: Choice): Sys
    requires ThreadEnabled(s)
  {
    if Deciding(s.pc) then DecideStep(s, ch)
    else if Working(s.pc) then WorkStep(c, s, ch)
    else if InSetState(s.pc) then SetStateStep(c, s)
    else WaitStep(c, s)
  }

  /** A signal wakes the installer thread if it sleeps and is lost otherwise. */
  function Woken(pc: Pc): Pc {
    if pc.Asleep? then Reacquire(pc.w) else pc
  }

  predicate CallbackEnabled(s: Sys, id: nat) {
    id in s.cbs && (s.cbs[id].CmdCall? || s.cbs[id].RlCall? ==> s.mutex == Free)
  }

  predicate Accepts(s: Sys, l: Label) {
    l.Callback? && l.id in s.cbs && s.cbs[l.id].CmdCall? && WriteRc(s.sh, s.cbs[l.id].length) == OK
  }

  function CallbackStep(s: Sys, id: nat): Sys
    requires CallbackEnabled(s, id)
  {
    match s.cbs[id]
    case CmdCall(buf, length) =>
      if WriteRc(s.sh, length) != OK then s.(cbs := s.cbs - {id})
      else s.(sh := WithCommand(s.sh, StoredText(buf, length)), mutex := ByCb(id), cbs := s.cbs[id := CmdWritten])
    case CmdWritten => s.(pc := Woken(s.pc), cbs := s.cbs[id := CmdSignalled])
    case CmdSignalled => s.(mutex := Free, cbs := s.cbs - {id})
    case RlCall(rl) => s.(sh := s.sh.(currentRl := rl), cbs := s.cbs[id := RlUpdated])
    case RlUpdated => s.(pc := Woken(s.pc), cbs := s.cbs - {id})
  }

  predicate Enabled(s: Sys, l: Label) {
    match l
    case Arrive(id, call) => id !in s.cbs && (call.CmdCall? || (call.RlCall? && call.rl < RL_INVALID))
    case Callback(id) => CallbackEnabled(s, id)
    case Thread(_) => ThreadEnabled(s)
    case Spurious => s.pc.Asleep?
  }

  /** Everything that is not the installer thread. */
  function OtherStep(s: Sys, l: Label): Sys
    requires Enabled(s, l) && !l.Thread?
  {
    match l
    case Arrive(id, call) => s.(cbs := s.cbs[id := call])
    case Callback(id) => CallbackStep(s, id)
    case Spurious => s.(pc := Woken(s.pc))
  }

  function Next(c: Config, s: Sys, l: Label): Sys
    requires Enabled(s, l)
  {
    if l.Thread? then ThreadStep(c, s, l.ch) else OtherStep(s, l)
  }

  /** A finite run: any interleaving of enabled steps from Boot. */
  datatype Run = Start | Then(before: Run, step: Label)

  ghost predicate IsRun(c: Config, r: Run) {
    r.Then? ==> IsRun(c, r.before) && Enabled(End(c, r.before), r.step)
  }

  /** The state a run ends in; a step that is not enabled changes nothing. */
  ghost function End(c: Config, r: Run): Sys {
    match r
    case Start => Boot(c)
    case Then(p, l) => if Enabled(End(c, p), l) then Next(c, End(c, p), l) else End(c, p)
  }
}
