/** Safety of whole runs of the installer protocol. */
module InstallerTheorems {
  import opened Text
  import opened Staging
  import opened DuInstallers
  import opened InstallerProtocol
  import opened InstallerInvariants
  import opened InstallerZones
  import opened InstallerHistory

  // ---------- wake-ups ----------

  /** Whenever the thread sleeps although its wait condition holds, a callback is between its
      update and its signal; so it never sleeps over finished work once all callbacks returned. */
  lemma NoLostWakeUp(c: Config, r: Run)
    requires IsRun(c, r)
    ensures var s := End(c, r);
      s.pc.Asleep? && Ready(s.pc.w, s.sh) ==> SignalComing(s)
    ensures var s := End(c, r);
      s.cbs == map[] && s.pc.Asleep? ==> !Ready(s.pc.w, s.sh)
  {
    InvAlways(c, r);
  }

  /** The mutex has one holder: the thread inside a wait loop's lock region, or one callback
      between its accepted write and its unlock. */
  lemma MutualExclusion(c: Config, r: Run, a: nat, b: nat)
    requires IsRun(c, r)
    ensures var s := End(c, r);
      && (a in s.cbs && b in s.cbs && HoldsMutex(s.cbs[a]) && HoldsMutex(s.cbs[b]) ==> a == b)
      && (a in s.cbs && HoldsMutex(s.cbs[a]) ==> !s.pc.Test? && !s.pc.GoWait?)
  {
    InvAlways(c, r);
  }

  // ---------- mailbox ----------

  /** Exactly once, in order: after start-up the accepted commands are those already parsed
      followed by the one still waiting, if any. */
  lemma MailboxExactlyOnce(c: Config, r: Run)
    requires IsRun(c, r)
    ensures End(c, r).booted ==> Accepted(c, r) == Texts(ParsedBy(c, r)) + Mail(End(c, r))
    ensures !End(c, r).booted ==> ParsedBy(c, r) == []
    ensures |Texts(ParsedBy(c, r))| <= |Accepted(c, r)| <= |Texts(ParsedBy(c, r))| + 1
  {
    MailAlways(c, r);
  }

  /** From the parse of a command to the clearing of the mailbox every write is refused as busy. */
  lemma TakenMeansBusy(c: Config, r: Run, l: Label)
    requires IsRun(c, Then(r, l)) && Taken(End(c, r))
    ensures !Accepts(End(c, r), l)
    ensures l.Callback? && End(c, r).cbs[l.id].CmdCall? && End(c, r).cbs[l.id].length < MAX_CMD_LEN ==>
      WriteRc(End(c, r).sh, End(c, r).cbs[l.id].length) == BusyRetry
  {
    InvAlways(c, r);
  }

  // ---------- run-level gate ----------

  lemma {:induction false} GateAlways(c: Config, r: Run)
    requires IsRun(c, r)
    ensures GateZone(End(c, r)) ==> HighSinceAccept(c, r)
  {
    if r.Then? && GateZone(End(c, r)) {
      GateAlways(c, r.before);
      InvAlways(c, r.before);
      var s := End(c, r.before);
      if r.step.Thread? {
        MovesByThread(c, s, r.step.ch);
      } else {
        MovesByOthers(s, r.step);
      }
    }
  }

  /** The thread's file operations: a commit's rename, or a change of the staged file alone. */
  lemma WorkTouches(c: Config, s: Sys, ch: Choice, p: string)
    requires Working(s.pc)
    ensures var fs' := WorkStep(c, s, ch).fs;
      Renames(s, ch) || fs' == s.fs ||
      ((s.pc.Opening? || s.pc.Copying?) &&
       (p != s.pv.staged ==> (p in fs' <==> p in s.fs) && (p in s.fs ==> fs'[p] == s.fs[p])))
  {
  }

  lemma OnlyWorkTouchesFiles(c: Config, s: Sys, l: Label)
    requires Enabled(s, l)
    ensures Next(c, s, l).fs == s.fs ||
            (l.Thread? && Working(s.pc) && Next(c, s, l) == WorkStep(c, s, l.ch))
  {
  }

  /** A step that changes files is the rename of a commit, or the thread writing the staged file of
      the deploy command in the mailbox after the run level was high enough at some moment since
      that command was accepted. */
  lemma RunLevelGate(c: Config, r: Run, l: Label, p: string)
    requires IsRun(c, Then(r, l)) && End(c, Then(r, l)).fs != End(c, r).fs
    ensures var s, fs' := End(c, r), End(c, Then(r, l)).fs;
      CommitStep(s, l) ||
      (&& s.sh.cmdPending && c.parse(s.sh.cmd).Deploy?
       && HighSinceAccept(c, r)
       && s.sh.state == INSTALLING
       && (p != s.pv.staged ==> (p in fs' <==> p in s.fs) && (p in s.fs ==> fs'[p] == s.fs[p])))
  {
    InvAlways(c, r);
    GateAlways(c, r);
    OnlyWorkTouchesFiles(c, End(c, r), l);
    WorkTouches(c, End(c, r), l.ch, p);
  }

  // ---------- outcome ----------

  lemma {:induction false} ErrorMatchesState(c: Config, r: Run)
    requires IsRun(c, r)
    ensures ErrorSinceIdle(c, r) <==> End(c, r).sh.state == ERROR
  {
    if r.Then? {
      ErrorMatchesState(c, r.before);
      InvAlways(c, r.before);
      if r.step.Thread? {
        MovesByThread(c, End(c, r.before), r.step.ch);
      } else {
        MovesByOthers(End(c, r.before), r.step);
      }
    }
  }

  /** The last command parsed was a clear_error, by the handler of ERROR. */
  ghost predicate ClearErrorWasLast(c: Config, parsed: seq<(string, InstState)>) {
    parsed != [] && parsed[|parsed| - 1].1 == ERROR && c.parse(parsed[|parsed| - 1].0).ClearError?
  }

  lemma ClearErrorStep(c: Config, p: Run, l: Label)
    requires IsRun(c, Then(p, l)) && ClearingError(End(c, Then(p, l)))
    requires ClearingError(End(c, p)) ==> ClearErrorWasLast(c, ParsedBy(c, p))
    ensures ClearErrorWasLast(c, ParsedBy(c, Then(p, l)))
  {
    InvAlways(c, p);
    if l.Thread? {
      MovesByThread(c, End(c, p), l.ch);
    } else {
      MovesByOthers(End(c, p), l);
    }
  }

  lemma {:induction false} ClearErrorParsed(c: Config, r: Run)
    requires IsRun(c, r) && ClearingError(End(c, r))
    ensures ClearErrorWasLast(c, ParsedBy(c, r))
  {
    if r.Then? {
      if ClearingError(End(c, r.before)) {
        ClearErrorParsed(c, r.before);
      }
      ClearErrorStep(c, r.before, r.step);
    }
  }

  /** ERROR is left only for IDLE, and only by consuming a command that parses as clear_error;
      in the C program that step leaves every file in place. */
  lemma ErrorLeftOnlyByClearError(c: Config, r: Run, l: Label)
    requires IsRun(c, Then(r, l))
    requires End(c, r).sh.state == ERROR && End(c, Then(r, l)).sh.state != ERROR
    ensures End(c, Then(r, l)).sh.state == IDLE
    ensures ClearErrorWasLast(c, ParsedBy(c, r))
    ensures End(c, Then(r, l)).fs == End(c, r).fs
  {
    InvAlways(c, r);
    if l.Thread? {
      MovesByThread(c, End(c, r), l.ch);
    } else {
      MovesByOthers(End(c, r), l);
    }
    ClearErrorParsed(c, r);
  }

  // ---------- the staged file ----------

  /** From the end of a deploy to the end of its commit, the staged file is the whole source:
      a partly written staged file is never committed. */
  lemma {:induction false} OnlyWholeFilesAreCommitted(c: Config, r: Run)
    requires IsRun(c, r) && DoneZone(End(c, r))
    ensures WholeSource(c, End(c, r), LastDeploy(c, r))
  {
    if r.Then? {
      var s := End(c, r.before);
      InvAlways(c, r.before);
      if r.step.Thread? {
        MovesByThread(c, s, r.step.ch);
      } else {
        MovesByOthers(s, r.step);
      }
      if DoneZone(s) {
        OnlyWholeFilesAreCommitted(c, r.before);
      } else {
        var src := c.source(s.pv.filePath);
        assert src[..|src|] == src;
      }
    }
  }

  // ---------- atomic install ----------

  /** The mailbox keeps at most 510 characters of a command. */
  lemma {:induction false} AcceptedIsShort(c: Config, r: Run, t: string)
    requires IsRun(c, r) && t in Accepted(c, r)
    ensures |t| <= MAX_CMD_LEN - 2
  {
    match r
    case Start =>
    case Then(p, l) =>
      if t in Accepted(c, p) {
        AcceptedIsShort(c, p, t);
      }
  }

  /** No accepted deploy hits the one joined-path length that loses a letter of the suffix. */
  ghost predicate SafeDeploys(c: Config, r: Run) {
    forall t | t in Accepted(c, r) ::
      c.parse(t).Deploy? ==> !Misnamed("", c.parse(t).path, c.parse(t).name)
  }

  /** No command that fits the mailbox can: its save name is too short for a path of 505 characters. */
  lemma EveryDeployIsSafe(c: Config, r: Run)
    requires IsRun(c, r) && TakesFromText(c.parse)
    ensures SafeDeploys(c, r)
  {
    forall t | t in Accepted(c, r) && c.parse(t).Deploy?
      ensures !Misnamed("", c.parse(t).path, c.parse(t).name)
    {
      AcceptedIsShort(c, r, t);
      JoinedLength("", c.parse(t).path, c.parse(t).name, MAX_CMD_LEN - 2 - TAG_ROOM);
    }
  }

  /** A file opened for a deploy carries the suffix. */
  lemma StagedNameIsSafe(c: Config, r: Run)
    requires IsRun(c, r) && SafeDeploys(c, r)
    requires End(c, r).pc.Opening? || End(c, r).pc.Copying?
    ensures Contains(End(c, r).pv.staged, SUFFIX)
  {
    InvAlways(c, r);
    MailAlways(c, r);
    var s := End(c, r);
    var ps := ParsedBy(c, r);
    assert Texts(ps)[|ps| - 1] == s.sh.cmd;
    assert s.sh.cmd in Accepted(c, r);
    var p := c.parse(s.sh.cmd);
    StagedCarriesSuffix("", p.path, p.name);
  }

  lemma HiddenWrite(fs: map<string, seq<byte>>, name: string, data: seq<byte>)
    requires Contains(name, SUFFIX)
    ensures Visible(fs[name := data]) == Visible(fs)
  {
  }

  lemma VisibleRename(fs: map<string, seq<byte>>, staged: string, to: string)
    requires staged in fs && Contains(staged, SUFFIX) && !Contains(to, SUFFIX)
    ensures Visible((fs - {staged})[to := fs[staged]]) == Visible(fs)[to := fs[staged]]
  {
  }

  lemma SafePrefix(c: Config, r: Run, l: Label)
    requires SafeDeploys(c, Then(r, l))
    ensures SafeDeploys(c, r)
  {
    assert Accepted(c, r) <= Accepted(c, Then(r, l));
  }

  /** The induction behind atomic install. */
  lemma {:induction false} AtomicWhenSafe(c: Config, r: Run)
    requires IsRun(c, r) && SafeDeploys(c, r)
    ensures Visible(End(c, r).fs) == Installed(c, r)
  {
    match r
    case Start =>
    case Then(p, l) =>
      SafePrefix(c, p, l);
      AtomicWhenSafe(c, p);
      var s, s' := End(c, p), End(c, r);
      OnlyWorkTouchesFiles(c, s, l);
      if s'.fs != s.fs {
        if CommitStep(s, l) {
          OnlyWholeFilesAreCommitted(c, p);
          CommitTargetIsVisible(s.pv.staged);
          VisibleRename(s.fs, s.pv.staged, CommitPath(s.pv.staged).value);
        } else {
          StagedNameIsSafe(c, p);
          HiddenWrite(s.fs, s.pv.staged, s'.fs[s.pv.staged]);
        }
      } else if CommitStep(s, l) {
        OnlyWholeFilesAreCommitted(c, p);
        CommitTargetIsVisible(s.pv.staged);
        VisibleRename(s.fs, s.pv.staged, CommitPath(s.pv.staged).value);
      }
  }

  /** Atomic install: under every interleaving and every failure, the visible files are exactly the
      initial ones with whole sources put in place by commits. */
  lemma AtomicInstall(c: Config, r: Run)
    requires IsRun(c, r) && TakesFromText(c.parse)
    ensures Visible(End(c, r).fs) == Installed(c, r)
  {
    EveryDeployIsSafe(c, r);
    AtomicWhenSafe(c, r);
  }

  ghost predicate IsPrefix(q: Run, r: Run) {
    q == r || (r.Then? && IsPrefix(q, r.before))
  }

  /** The same, file by file: a visible file holds its first content or the whole content of one
      source whose deploy ran to its end and was then committed to this very name. */
  lemma VisibleFileIsWhole(c: Config, r: Run, name: string)
    requires IsRun(c, r) && TakesFromText(c.parse)
    requires name in End(c, r).fs && !Contains(name, SUFFIX)
    ensures (name in c.files && End(c, r).fs[name] == c.files[name]) ||
      (exists q, l :: IsPrefix(Then(q, l), r) && CommitStep(End(c, q), l)
        && CommitPath(End(c, q).pv.staged) == Some(name) && LastDeploy(c, q).Some?
        && End(c, r).fs[name] == c.source(LastDeploy(c, q).value))
  {
    AtomicInstall(c, r);
    assert name in Visible(End(c, r).fs);
    InstalledComesFromACommit(c, r, name);
  }

  lemma {:induction false} InstalledComesFromACommit(c: Config, r: Run, name: string)
    requires IsRun(c, r) && name in Installed(c, r)
    ensures (name in c.files && Installed(c, r)[name] == c.files[name]) ||
      (exists q, l :: IsPrefix(Then(q, l), r) && CommitStep(End(c, q), l)
        && CommitPath(End(c, q).pv.staged) == Some(name) && LastDeploy(c, q).Some?
        && Installed(c, r)[name] == c.source(LastDeploy(c, q).value))
  {
    match r
    case Start =>
    case Then(p, l) =>
      var s := End(c, p);
      if CommitStep(s, l) && LastDeploy(c, p).Some? && CommitPath(s.pv.staged).value == name {
        assert IsPrefix(Then(p, l), r);
      } else {
        InstalledComesFromACommit(c, p, name);
        if !(name in c.files && Installed(c, r)[name] == c.files[name]) {
          var q, k :| IsPrefix(Then(q, k), p) && CommitStep(End(c, q), k)
            && CommitPath(End(c, q).pv.staged) == Some(name) && LastDeploy(c, q).Some?
            && Installed(c, p)[name] == c.source(LastDeploy(c, q).value);
          assert IsPrefix(Then(q, k), r);
        }
      }
  }

  // ---------- what is recorded ----------

  lemma {:induction false} CommitRemembered(c: Config, r: Run)
    requires IsRun(c, r)
    requires End(c, r).pc.SetInfo? && End(c, r).booted && End(c, r).sh.state == PENDING_COMMIT
    ensures JustCommitted(c, r) == Some(End(c, r).pv.filePath)
  {
    if r.Then? {
      var s := End(c, r.before);
      InvAlways(c, r.before);
      if r.step.Thread? {
        MovesByThread(c, s, r.step.ch);
      } else {
        MovesByOthers(s, r.step);
      }
      if s.pc.SetInfo? {
        CommitRemembered(c, r.before);
      } else {
        OnlyWholeFilesAreCommitted(c, r.before);
      }
    }
  }

  /** Every entry to IDLE after start-up records FAILED exactly when ERROR was entered since the
      previous IDLE; otherwise SUCCESS with the source path of the deploy just committed. A path
      longer than DU_PATH_MAX leaves the previous record in place. */
  lemma OutcomeTruth(c: Config, r: Run, ch: Choice)
    requires IsRun(c, Then(r, Thread(ch))) && End(c, r).pc.SetInfo? && End(c, r).booted
    ensures var s, s' := End(c, r), End(c, Then(r, Thread(ch)));
      if |s.pv.filePath| > c.pathMax then s'.sh == s.sh
      else if ErrorSinceIdle(c, r) then s'.sh.lastResult == FAILED && s'.sh.lastMetadata == s.pv.filePath
      else s'.sh.lastResult == SUCCESS && JustCommitted(c, r) == Some(s'.sh.lastMetadata)
  {
    InvAlways(c, r);
    ErrorMatchesState(c, r);
    if End(c, r).sh.state == PENDING_COMMIT {
      CommitRemembered(c, r);
    }
  }

  /** The directory a deploy installs to is always empty: setState(IDLE) clears it during
      start-up, before any command is parsed. So the staged path is the save name below "/". */
  lemma InstallDirIsEmpty(c: Config, r: Run)
    requires IsRun(c, r) && (End(c, r).pc.Opening? || End(c, r).pc.Copying?)
    ensures End(c, r).pv.installDir == ""
    ensures var p := c.parse(End(c, r).sh.cmd);
      p.Deploy? && StagedPath("", p.path, p.name) == Some(End(c, r).pv.staged)
  {
    InvAlways(c, r);
  }
}
