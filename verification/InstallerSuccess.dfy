/** What the installer protocol can always achieve: a deploy and its commit, from every idle state. */
module InstallerSuccess {
  import opened Text
  import opened Staging
  import opened DuInstallers
  import opened InstallerProtocol
  import opened InstallerInvariants
  import opened InstallerHistory
  import opened InstallerTheorems
  import opened InstallerEdges

  // ---------- runs that go on ----------

  /** A longer run, in which no further command was accepted. */
  ghost predicate GoesOn(c: Config, r: Run, r': Run) {
    IsRun(c, r') && IsPrefix(r, r') && Accepted(c, r') == Accepted(c, r)
  }

  lemma {:induction false} PrefixOfPrefix(a: Run, b: Run, d: Run)
    requires IsPrefix(a, b) && IsPrefix(b, d)
    ensures IsPrefix(a, d)
    decreases d
  {
    if b != d {
      PrefixOfPrefix(a, b, d.before);
    }
  }

  /** One step of the thread. */
  lemma Step(c: Config, first: Run, r: Run, ch: Choice, next: Sys) returns (r': Run)
    requires IsRun(c, first) && GoesOn(c, first, r) && ThreadEnabled(End(c, r)) && next == ThreadStep(c, End(c, r), ch)
    ensures GoesOn(c, first, r') && End(c, r') == next
  {
    r' := Then(r, Thread(ch));
    assert Enabled(End(c, r), Thread(ch)) && !Accepts(End(c, r), Thread(ch));
  }

  /** Nothing runs beside the thread. */
  predicate Alone(s: Sys) {
    s.booted && s.mutex == Free && s.cbs == map[]
  }

  // ---------- from a waiting command to the deploy ----------

  /** The waiting command is parsed. */
  lemma CommandTaken(c: Config, first: Run, r: Run, w: Wait) returns (r': Run)
    requires IsRun(c, first) && GoesOn(c, first, r) && Alone(End(c, r))
    requires w != WRl && End(c, r).pc == Lock(w) && End(c, r).sh.cmdPending
    ensures GoesOn(c, first, r')
    ensures var s := End(c, r); var p := c.parse(s.sh.cmd);
      End(c, r') == s.(pv := Loaded(s.pv, p), pc := ParsedPc(w, p.Ok(), s.sh))
  {
    var s := End(c, r);
    var p := c.parse(s.sh.cmd);
    r' := Step(c, first, r, GO.ch, s.(mutex := ByThread, pc := Test(w)));
    r' := Step(c, first, r', GO.ch, s.(pv := Loaded(s.pv, p), pc := ParsedPc(w, p.Ok(), s.sh)));
  }

  /** A state is published and its handler entered. */
  lemma StateEntered(c: Config, first: Run, r: Run, t: InstState) returns (r': Run)
    requires IsRun(c, first) && GoesOn(c, first, r) && Alone(End(c, r)) && End(c, r).pc == Publish(t)
    ensures GoesOn(c, first, r')
    ensures End(c, r') == End(c, r).(sh := End(c, r).sh.(state := t), pc := Entry(t))
  {
    var s := End(c, r);
    r' := Step(c, first, r, GO.ch, s.(sh := s.sh.(state := t), pc := Dispatch));
    r' := Step(c, first, r', GO.ch, s.(sh := s.sh.(state := t), pc := Entry(t)));
  }

  /** A command that needs a higher run level asks for it. */
  lemma LevelAsked(c: Config, first: Run, r: Run) returns (r': Run)
    requires IsRun(c, first) && GoesOn(c, first, r) && Alone(End(c, r))
    requires End(c, r).pc == AskRl && (End(c, r).sh.pendingRl == RL_BG_APPLY || End(c, r).sh.pendingRl == RL_INVALID)
    ensures GoesOn(c, first, r')
    ensures var s := End(c, r);
      End(c, r') == s.(sh := s.sh.(pendingRl := RL_BG_APPLY, state := PENDING_RL), pc := Lock(WRl))
  {
    var s := End(c, r);
    r' := Step(c, first, r, GO.ch, s.(sh := s.sh.(pendingRl := RL_BG_APPLY), pc := Publish(PENDING_RL)));
    r' := StateEntered(c, first, r', PENDING_RL);
  }

  /** A level equal to the pending one ends the wait, and the request is dropped. */
  lemma WaitOver(c: Config, first: Run, r: Run) returns (r': Run)
    requires IsRun(c, first) && GoesOn(c, first, r) && Alone(End(c, r))
    requires End(c, r).pc == Lock(WRl) && End(c, r).sh.currentRl == End(c, r).sh.pendingRl
    ensures GoesOn(c, first, r')
    ensures var s := End(c, r);
      End(c, r') == s.(sh := s.sh.(pendingRl := RL_INVALID), pc := Publish(INSTALLING))
  {
    var s := End(c, r);
    r' := Step(c, first, r, GO.ch, s.(mutex := ByThread, pc := Test(WRl)));
    r' := Step(c, first, r', GO.ch, s.(pc := RlDone));
    r' := Step(c, first, r', GO.ch, s.(sh := s.sh.(pendingRl := RL_INVALID), pc := Publish(INSTALLING)));
  }

  /** Once the level is exactly the one asked for, the installer starts to install. */
  lemma LevelReached(c: Config, first: Run, r: Run) returns (r': Run)
    requires IsRun(c, first) && GoesOn(c, first, r) && Alone(End(c, r))
    requires End(c, r).pc == Lock(WRl) && End(c, r).sh.pendingRl == RL_BG_APPLY
    ensures GoesOn(c, first, r')
    ensures var s := End(c, r);
      End(c, r') == s.(sh := s.sh.(currentRl := RL_BG_APPLY, pendingRl := RL_INVALID, state := INSTALLING),
                       pc := Installing)
  {
    var raised := Raised(c, r);
    PrefixOfPrefix(first, r, raised);
    var over := WaitOver(c, first, raised);
    r' := StateEntered(c, first, over, INSTALLING);
  }

  /** The shared record when the installer starts to install. */
  function Raise(sh: Shared): Shared {
    if sh.currentRl < RL_BG_APPLY then sh.(currentRl := RL_BG_APPLY, pendingRl := RL_INVALID, state := INSTALLING)
    else sh.(state := INSTALLING)
  }

  /** A parsed command gets to INSTALLING, through PENDING_RL when the level is too low. */
  lemma InstallingReached(c: Config, first: Run, r: Run) returns (r': Run)
    requires IsRun(c, first) && GoesOn(c, first, r) && Alone(End(c, r))
    requires End(c, r).pc == IdleParsed(true, End(c, r).sh.currentRl < RL_BG_APPLY)
    requires End(c, r).sh.pendingRl == RL_BG_APPLY || End(c, r).sh.pendingRl == RL_INVALID
    ensures GoesOn(c, first, r')
    ensures End(c, r') == End(c, r).(sh := Raise(End(c, r).sh), pc := Installing)
  {
    var s := End(c, r);
    if s.sh.currentRl < RL_BG_APPLY {
      r' := Step(c, first, r, GO.ch, s.(pc := AskRl));
      r' := LevelAsked(c, first, r');
      r' := LevelReached(c, first, r');
    } else {
      r' := Step(c, first, r, GO.ch, s.(pc := Publish(INSTALLING)));
      r' := StateEntered(c, first, r', INSTALLING);
    }
  }

  // ---------- the copy ----------

  /** The private fields while a deploy copies to its staged file. */
  function Copier(pv: Private, staged: string): Private {
    pv.(staged := staged, savename := if |pv.savename| > 0 then pv.savename else pv.filePath)
  }

  lemma StagedFileOpened(c: Config, first: Run, r: Run, staged: string) returns (r': Run)
    requires IsRun(c, first) && GoesOn(c, first, r) && Alone(End(c, r))
    requires var s := End(c, r);
      && s.pc == Installing && s.pv.cmdId == DeployId
      && StagedPath(s.pv.installDir, s.pv.filePath, s.pv.savename) == Some(staged)
    ensures GoesOn(c, first, r')
    ensures var s := End(c, r);
      End(c, r') == s.(pv := Copier(s.pv, staged), fs := s.fs[staged := []],
                       pc := Copying(|c.source(s.pv.filePath)|, 0))
  {
    var s := End(c, r);
    var pv := Copier(s.pv, staged);
    r' := Step(c, first, r, GO.ch, s.(pv := pv, pc := Opening));
    r' := Step(c, first, r', GO.ch,
      s.(pv := pv, fs := s.fs[staged := []], pc := Copying(|c.source(s.pv.filePath)|, 0)));
  }

  /** Reads of any sizes of at least one byte bring the copy to its end. */
  lemma {:induction false} CopiedToEnd(c: Config, first: Run, r: Run, sizes: nat -> nat) returns (r': Run)
    requires IsRun(c, first) && GoesOn(c, first, r) && Alone(End(c, r))
    requires End(c, r).pc.Copying? && CopyInv(c, End(c, r)) && forall k :: sizes(k) >= 1
    ensures GoesOn(c, first, r')
    ensures var s := End(c, r);
      End(c, r') == s.(fs := s.fs[s.pv.staged := c.source(s.pv.filePath)], pc := SetClear(PENDING_COMMIT))
    decreases End(c, r).pc.remaining
  {
    var s := End(c, r);
    var src, offset := c.source(s.pv.filePath), s.pc.offset;
    if s.pc.remaining == 0 {
      assert src[..offset] == src;
      assert s.fs == s.fs[s.pv.staged := src];
      r' := Step(c, first, r, GO.ch, s.(pc := SetClear(PENDING_COMMIT)));
    } else {
      var next := CopyTurn(c, s, Choice(true, sizes(offset)));
      CopyKeptByWork(c, s, Choice(true, sizes(offset)));
      r' := Step(c, first, r, Choice(true, sizes(offset)), next);
      r' := CopiedToEnd(c, first, r', sizes);
      assert next.fs[s.pv.staged := src] == s.fs[s.pv.staged := src];
    }
  }

  // ---------- the commit ----------

  /** A deploy that was copied waits for its commit. */
  lemma CommitAwaited(c: Config, first: Run, r: Run) returns (r': Run)
    requires IsRun(c, first) && GoesOn(c, first, r) && Alone(End(c, r))
    requires End(c, r).pc == SetClear(PENDING_COMMIT)
    ensures GoesOn(c, first, r')
    ensures var s := End(c, r);
      End(c, r') == s.(sh := ClearedMailbox(s.sh).(state := PENDING_COMMIT), pc := Lock(WCommit))
  {
    var s := End(c, r);
    r' := Step(c, first, r, GO.ch, s.(sh := ClearedMailbox(s.sh), pc := Publish(PENDING_COMMIT)));
    r' := StateEntered(c, first, r', PENDING_COMMIT);
  }

  /** A commit is carried out: the file changes its name. */
  lemma Renamed(c: Config, first: Run, r: Run, to: string) returns (r': Run)
    requires IsRun(c, first) && GoesOn(c, first, r) && Alone(End(c, r))
    requires var s := End(c, r);
      && s.pc == CommitParsed(true) && s.pv.cmdId == CommitId && s.pv.staged in s.fs
      && CommitPath(s.pv.staged) == Some(to) && |to| > 0 && to[0] == '/'
    ensures GoesOn(c, first, r')
    ensures var s := End(c, r);
      End(c, r') == s.(fs := (s.fs - {s.pv.staged})[to := s.fs[s.pv.staged]], pc := SetInfo)
  {
    var s := End(c, r);
    r' := Step(c, first, r, GO.ch, s.(pc := Committing));
    r' := Step(c, first, r', GO.ch, s.(fs := (s.fs - {s.pv.staged})[to := s.fs[s.pv.staged]], pc := SetInfo));
  }

  /** The outcome is recorded, and the installer is idle again. */
  lemma IdleAgain(c: Config, first: Run, r: Run) returns (r': Run)
    requires IsRun(c, first) && GoesOn(c, first, r) && Alone(End(c, r))
    requires End(c, r).pc == SetInfo && !End(c, r).pv.updateFailed
    ensures GoesOn(c, first, r') && Alone(End(c, r'))
    ensures End(c, r').pc == Lock(WIdle) && End(c, r').fs == End(c, r).fs
    ensures End(c, r').sh ==
      ClearedMailbox(Recorded(End(c, r).sh, SUCCESS, End(c, r).pv.filePath, c.pathMax)).(state := IDLE)
  {
    var s := End(c, r);
    var sh := Recorded(s.sh, SUCCESS, s.pv.filePath, c.pathMax);
    r' := Step(c, first, r, GO.ch, s.(sh := sh, pc := SetClear(IDLE)));
    r' := Step(c, first, r', GO.ch, s.(sh := ClearedMailbox(sh), pc := Wipe));
    var wiped := SetStateStep(c, End(c, r'));
    r' := Step(c, first, r', GO.ch, wiped);
    r' := StateEntered(c, first, r', IDLE);
  }

  // ---------- the whole deployment ----------

  /** With no callback under way, the thread that waits for a command holds nothing and has forgotten the
      last deployment. */
  lemma IdleIsQuiet(c: Config, r: Run)
    requires IsRun(c, r) && End(c, r).pc == Lock(WIdle) && End(c, r).cbs == map[]
    ensures var s := End(c, r);
      && Alone(s) && s.sh.state == IDLE && s.pv.installDir == "" && !s.pv.updateFailed
      && (s.sh.pendingRl == RL_BG_APPLY || s.sh.pendingRl == RL_INVALID)
  {
    InvAlways(c, r);
  }

  /** A waiting command that was accepted is staged below the root, under a name that carries the suffix. */
  lemma WaitingDeployIsStaged(c: Config, r: Run) returns (staged: string)
    requires IsRun(c, r) && TakesFromText(c.parse) && End(c, r).pc == Lock(WIdle)
    requires End(c, r).sh.cmdPending && c.parse(End(c, r).sh.cmd).Deploy?
    ensures var p := c.parse(End(c, r).sh.cmd); StagedPath("", p.path, p.name) == Some(staged)
    ensures Contains(staged, SUFFIX) && staged != "" && staged[0] == '/'
  {
    var text := End(c, r).sh.cmd;
    var p := c.parse(text);
    InvAlways(c, r);
    MailboxExactlyOnce(c, r);
    assert Accepted(c, r)[|Accepted(c, r)| - 1] == text;
    AcceptedIsShort(c, r, text);
    JoinedLength("", p.path, p.name, 498);
    StagedCarriesSuffix("", p.path, p.name);
    staged := StagedPath("", p.path, p.name).value;
  }

  lemma CommitTargetIsAbsolute(staged: string)
    requires Contains(staged, SUFFIX) && staged != "" && staged[0] == '/'
    ensures CommitPath(staged).Some? && CommitPath(staged).value != "" && CommitPath(staged).value[0] == '/'
    ensures CommitPath(staged).value != staged
  {
    var i := FindFirst(staged, SUFFIX, 0);
    assert i.Some? && OccursAt(staged, SUFFIX, i.value);
    SuffixStart(staged, i.value);
  }

  /** The private fields of a deploy whose whole source is staged. */
  function Deployed(pv: Private, p: Parsed, staged: string): Private
    requires p.Deploy?
  {
    Copier(Loaded(pv, p), staged)
  }

  lemma DeployStarted(c: Config, r: Run) returns (r': Run)
    requires IsRun(c, r) && End(c, r).pc == Lock(WIdle) && End(c, r).cbs == map[]
    requires End(c, r).sh.cmdPending && c.parse(End(c, r).sh.cmd).Deploy?
    ensures GoesOn(c, r, r')
    ensures var s := End(c, r);
      End(c, r') == s.(sh := Raise(s.sh), pv := Loaded(s.pv, c.parse(s.sh.cmd)), pc := Installing)
  {
    IdleIsQuiet(c, r);
    r' := CommandTaken(c, r, r, WIdle);
    r' := InstallingReached(c, r, r');
  }

  /** The staged file is opened and filled. */
  lemma SourceStaged(c: Config, first: Run, r: Run, sizes: nat -> nat, staged: string) returns (r': Run)
    requires IsRun(c, first) && GoesOn(c, first, r) && Alone(End(c, r)) && forall k :: sizes(k) >= 1
    requires var s := End(c, r);
      && s.pc == Installing && s.pv.cmdId == DeployId
      && StagedPath(s.pv.installDir, s.pv.filePath, s.pv.savename) == Some(staged)
    ensures GoesOn(c, first, r')
    ensures var s := End(c, r);
      End(c, r') == s.(pv := Copier(s.pv, staged), fs := s.fs[staged := c.source(s.pv.filePath)],
                       pc := SetClear(PENDING_COMMIT))
  {
    var s := End(c, r);
    var src := c.source(s.pv.filePath);
    var empty := StagedFileOpened(c, first, r, staged);
    assert src[..0] == [];
    r' := CopiedToEnd(c, first, empty, sizes);
    assert s.fs[staged := []][staged := src] == s.fs[staged := src];
  }

  /** From a waiting deploy to the wait for its commit. */
  lemma DeployCarriedOut(c: Config, r: Run, sizes: nat -> nat, staged: string) returns (r': Run)
    requires IsRun(c, r) && End(c, r).pc == Lock(WIdle) && End(c, r).cbs == map[]
    requires End(c, r).sh.cmdPending && c.parse(End(c, r).sh.cmd).Deploy? && forall k :: sizes(k) >= 1
    requires var p := c.parse(End(c, r).sh.cmd); StagedPath("", p.path, p.name) == Some(staged)
    ensures GoesOn(c, r, r')
    ensures var s := End(c, r); var p := c.parse(s.sh.cmd);
      End(c, r') == s.(sh := ClearedMailbox(Raise(s.sh)).(state := PENDING_COMMIT), pv := Deployed(s.pv, p, staged),
                       fs := s.fs[staged := c.source(p.path)], pc := Lock(WCommit))
  {
    IdleIsQuiet(c, r);
    var started := DeployStarted(c, r);
    var copied := SourceStaged(c, r, started, sizes, staged);
    r' := CommitAwaited(c, r, copied);
  }

  /** From a waiting commit of a deploy to the next wait in IDLE. */
  lemma CommitCarriedOut(c: Config, r: Run, to: string) returns (r': Run)
    requires IsRun(c, r) && Alone(End(c, r))
    requires var s := End(c, r);
      && s.pc == Lock(WCommit) && s.sh.cmdPending && c.parse(s.sh.cmd).Commit? && !s.pv.updateFailed
      && s.pv.staged in s.fs && CommitPath(s.pv.staged) == Some(to) && |to| > 0 && to[0] == '/'
    ensures GoesOn(c, r, r') && Alone(End(c, r')) && End(c, r').pc == Lock(WIdle)
    ensures var s := End(c, r);
      && End(c, r').fs == (s.fs - {s.pv.staged})[to := s.fs[s.pv.staged]]
      && End(c, r').sh == ClearedMailbox(Recorded(s.sh, SUCCESS, s.pv.filePath, c.pathMax)).(state := IDLE)
  {
    r' := CommandTaken(c, r, r, WCommit);
    r' := Renamed(c, r, r', to);
    r' := IdleAgain(c, r, r');
  }

  /** The source is whole under its published name, no staged file is left, and every other file is as
      before. */
  ghost predicate Published(fs: map<string, seq<byte>>, fs': map<string, seq<byte>>, staged: string, to: string,
      source: seq<byte>)
  {
    && staged !in fs' && to in fs' && fs'[to] == source
    && forall f | f != staged && f != to :: (f in fs' <==> f in fs) && (f in fs ==> fs'[f] == fs[f])
  }

  lemma StagedAndRenamed(fs: map<string, seq<byte>>, fs': map<string, seq<byte>>, staged: string, to: string,
      source: seq<byte>)
    requires staged != to && fs' == (fs[staged := source] - {staged})[to := source]
    ensures Published(fs, fs', staged, to, source)
  {
  }

  /** What a deployment that went well leaves: the file published, the outcome on record, and the thread
      waiting in IDLE for the next command. */
  ghost predicate DeploymentDone(c: Config, s: Sys, s': Sys, p: Parsed, staged: string)
    requires p.Deploy?
  {
    && s'.pc == Lock(WIdle) && s'.sh.state == IDLE && !s'.sh.cmdPending && Alone(s')
    && CommitPath(staged).Some? && Published(s.fs, s'.fs, staged, CommitPath(staged).value, c.source(p.path))
    && (|p.path| <= c.pathMax ==> s'.sh.lastResult == SUCCESS && s'.sh.lastMetadata == p.path)
  }

  /** A commit told to the thread after its deploy completes the deployment. */
  lemma DeploymentCompleted(c: Config, r: Run, commit: string, s: Sys, p: Parsed, staged: string) returns (r': Run)
    requires IsRun(c, r) && Alone(s) && p.Deploy? && !s.pv.updateFailed
    requires End(c, r) == s.(sh := ClearedMailbox(Raise(s.sh)).(state := PENDING_COMMIT),
      pv := Deployed(s.pv, p, staged), fs := s.fs[staged := c.source(p.path)], pc := Lock(WCommit))
    requires Contains(staged, SUFFIX) && staged != "" && staged[0] == '/'
    requires |commit| + 1 < MAX_CMD_LEN && c.parse(commit).Commit?
    ensures IsRun(c, r') && IsPrefix(r, r') && Accepted(c, r') == Accepted(c, r) + [commit]
    ensures DeploymentDone(c, s, End(c, r'), p, staged) && End(c, r').sh.currentRl == Raise(s.sh).currentRl
  {
    CommitTargetIsAbsolute(staged);
    var to := CommitPath(staged).value;
    var told := Delivered(c, r, commit);
    r' := CommitCarriedOut(c, told, to);
    PrefixOfPrefix(r, told, r');
    StagedAndRenamed(s.fs, End(c, r').fs, staged, to, c.source(p.path));
  }

  /** From every reachable state in which the thread waits in IDLE and no callback is under way, a waiting
      deploy and a commit delivered after it can be carried out, whatever the sizes of the reads: through
      PENDING_RL, with the level raised to exactly RL_BG_APPLY, when it was too low, and directly otherwise. */
  lemma DeployAndCommit(c: Config, r: Run, commit: string, sizes: nat -> nat) returns (r': Run)
    requires IsRun(c, r) && TakesFromText(c.parse)
    requires End(c, r).pc == Lock(WIdle) && End(c, r).cbs == map[] && End(c, r).sh.cmdPending
    requires c.parse(End(c, r).sh.cmd).Deploy?
    requires |commit| + 1 < MAX_CMD_LEN && c.parse(commit).Commit? && forall k :: sizes(k) >= 1
    ensures IsRun(c, r') && IsPrefix(r, r') && Accepted(c, r') == Accepted(c, r) + [commit]
    ensures var s, s' := End(c, r), End(c, r');
      var p := c.parse(s.sh.cmd);
      && StagedPath("", p.path, p.name).Some?
      && DeploymentDone(c, s, s', p, StagedPath("", p.path, p.name).value)
      && s'.sh.currentRl == (if s.sh.currentRl < RL_BG_APPLY then RL_BG_APPLY else s.sh.currentRl)
  {
    var staged := WaitingDeployIsStaged(c, r);
    IdleIsQuiet(c, r);
    var deployed := DeployCarriedOut(c, r, sizes, staged);
    r' := DeploymentCompleted(c, deployed, commit, End(c, r), c.parse(End(c, r).sh.cmd), staged);
    PrefixOfPrefix(r, deployed, r');
  }

  /** There is such a run from the start. */
  lemma FirstDeployment(c: Config, deploy: string, commit: string) returns (idle: Run, r: Run)
    requires TakesFromText(c.parse) && c.parse(deploy).Deploy? && c.parse(commit).Commit?
    requires |deploy| + 1 < MAX_CMD_LEN && |commit| + 1 < MAX_CMD_LEN
    ensures IsRun(c, r) && IsPrefix(idle, r) && End(c, idle).fs == c.files && Accepted(c, r) == [deploy, commit]
    ensures var p := c.parse(deploy);
      StagedPath("", p.path, p.name).Some? &&
      DeploymentDone(c, End(c, idle), End(c, r), p, StagedPath("", p.path, p.name).value)
  {
    idle := IdleRun(c);
    idle := Delivered(c, idle, deploy);
    r := DeployAndCommit(c, idle, commit, _ => 1);
  }

  /** An error can always be left: with a clear_error waiting, the thread gets back to IDLE. */
  lemma ErrorCanBeLeft(c: Config, r: Run, clear: string) returns (r': Run)
    requires IsRun(c, r) && End(c, r).pc == Lock(WError) && End(c, r).cbs == map[] && !End(c, r).sh.cmdPending
    requires |clear| + 1 < MAX_CMD_LEN && c.parse(clear).ClearError?
    ensures IsRun(c, r') && Accepted(c, r') == Accepted(c, r) + [clear]
    ensures End(c, r').pc == Lock(WIdle) && End(c, r').sh.state == IDLE && End(c, r').fs == End(c, r).fs
  {
    InvAlways(c, r);
    var told := Delivered(c, r, clear);
    r' := ClearErrorConsumed(c, told);
  }
}
