/** Where the installer protocol's promises stop: runs that show it. */
module InstallerEdges {
  import opened Text
  import opened Staging
  import opened DuInstallers
  import opened InstallerProtocol
  import opened InstallerZones
  import opened InstallerHistory
  import opened InstallerTheorems

  const GO: Label := Thread(Choice(true, 1))

  /** One more step of a run, one that accepts and commits nothing. */
  lemma Onward(c: Config, r: Run, l: Label, next: Sys) returns (r': Run)
    requires IsRun(c, r) && Enabled(End(c, r), l) && next == Next(c, End(c, r), l)
    requires !Accepts(End(c, r), l) && !CommitStep(End(c, r), l)
    ensures r' == Then(r, l) && IsRun(c, r') && End(c, r') == next
    ensures Accepted(c, r') == Accepted(c, r) && Installed(c, r') == Installed(c, r)
    ensures !Parses(End(c, r), l) ==> ParsedBy(c, r') == ParsedBy(c, r)
  {
    r' := Then(r, l);
  }

  predicate Onto(r: Run, r': Run) {
    r'.Then? && r'.before == r
  }

  lemma SetStateGo(c: Config, r: Run, next: Sys) returns (r': Run)
    requires IsRun(c, r) && InSetState(End(c, r).pc) && ThreadEnabled(End(c, r))
    requires next == SetStateStep(c, End(c, r))
    ensures IsRun(c, r') && End(c, r') == next && Onto(r, r')
    ensures Accepted(c, r') == Accepted(c, r) && Installed(c, r') == Installed(c, r)
    ensures ParsedBy(c, r') == ParsedBy(c, r)
  {
    r' := Onward(c, r, GO, next);
  }

  lemma DecideGo(c: Config, r: Run, next: Sys) returns (r': Run)
    requires IsRun(c, r) && Deciding(End(c, r).pc) && ThreadEnabled(End(c, r)) && next == DecideStep(End(c, r), GO.ch)
    ensures IsRun(c, r') && End(c, r') == next && Onto(r, r')
    ensures Accepted(c, r') == Accepted(c, r) && Installed(c, r') == Installed(c, r)
  {
    r' := Onward(c, r, GO, next);
  }

  lemma WorkGo(c: Config, r: Run, next: Sys) returns (r': Run)
    requires IsRun(c, r) && Working(End(c, r).pc) && !End(c, r).pc.Committing? && ThreadEnabled(End(c, r))
    requires next == WorkStep(c, End(c, r), GO.ch)
    ensures IsRun(c, r') && End(c, r') == next && Onto(r, r')
    ensures Accepted(c, r') == Accepted(c, r) && Installed(c, r') == Installed(c, r)
  {
    r' := Onward(c, r, GO, next);
  }

  lemma WaitGo(c: Config, r: Run, next: Sys) returns (r': Run)
    requires IsRun(c, r) && (End(c, r).pc.Dispatch? || End(c, r).pc.Lock? || End(c, r).pc.Test?)
    requires ThreadEnabled(End(c, r)) && next == WaitStep(c, End(c, r))
    ensures IsRun(c, r') && End(c, r') == next && Onto(r, r')
    ensures Accepted(c, r') == Accepted(c, r) && Installed(c, r') == Installed(c, r)
  {
    r' := Onward(c, r, GO, next);
  }

  const IDLE_PRIVATE: Private := Private(DeployId, "", "", "", "", false)
  const IDLE_SHARED: Shared := INITIAL.(lastResult := SUCCESS)

  /** Idle, at the given place, with the given shared record. */
  function At(c: Config, sh: Shared, pv: Private, pc: Pc): Sys {
    Sys(sh, pv, pc, Free, map[], c.files, true)
  }

  /** The thread alone gets from start-up to the IDLE loop. */
  lemma IdleRun(c: Config) returns (r: Run)
    ensures IsRun(c, r) && Accepted(c, r) == [] && Installed(c, r) == Visible(c.files)
    ensures End(c, r) == At(c, IDLE_SHARED, IDLE_PRIVATE, Lock(WIdle))
  {
    r := SetStateGo(c, Start, Boot(c).(sh := IDLE_SHARED, pc := SetClear(IDLE)));
    r := SetStateGo(c, r, At(c, IDLE_SHARED, IDLE_PRIVATE.(installDir := c.cwd), Wipe));
    r := SetStateGo(c, r, At(c, IDLE_SHARED, IDLE_PRIVATE, Publish(IDLE)));
    r := SetStateGo(c, r, At(c, IDLE_SHARED, IDLE_PRIVATE, Dispatch));
    r := WaitGo(c, r, At(c, IDLE_SHARED, IDLE_PRIVATE, Lock(WIdle)));
  }

  /** A callback's command text is accepted. */
  lemma Posted(c: Config, r: Run, text: string) returns (r': Run)
    requires IsRun(c, r) && |text| + 1 < MAX_CMD_LEN
    requires End(c, r).cbs == map[] && End(c, r).mutex == Free && !End(c, r).sh.cmdPending
    ensures IsRun(c, r') && IsPrefix(r, r')
    ensures var s := End(c, r);
      End(c, r') == s.(sh := WithCommand(s.sh, text), mutex := ByCb(0), cbs := map[0 := CmdWritten])
    ensures Accepted(c, r') == if End(c, r).booted then Accepted(c, r) + [text] else Accepted(c, r)
    ensures Installed(c, r') == Installed(c, r) && ParsedBy(c, r') == ParsedBy(c, r)
  {
    var s := End(c, r);
    var call := CmdCall(text, |text| + 1);
    var called := Onward(c, r, Arrive(0, call), s.(cbs := map[0 := call]));
    assert Accepts(End(c, called), Callback(0));
    assert StoredText(text, |text| + 1) == text;
    r' := Then(called, Callback(0));
    assert IsPrefix(r, called);
  }

  /** A callback delivers one command text and returns. */
  lemma Delivered(c: Config, r: Run, text: string) returns (r': Run)
    requires IsRun(c, r) && |text| + 1 < MAX_CMD_LEN
    requires End(c, r).cbs == map[] && End(c, r).mutex == Free && !End(c, r).sh.cmdPending && !End(c, r).pc.Asleep?
    ensures IsRun(c, r') && IsPrefix(r, r')
    ensures End(c, r') == End(c, r).(sh := WithCommand(End(c, r).sh, text))
    ensures Accepted(c, r') == if End(c, r).booted then Accepted(c, r) + [text] else Accepted(c, r)
    ensures Installed(c, r') == Installed(c, r) && ParsedBy(c, r') == ParsedBy(c, r)
  {
    var posted := Posted(c, r, text);
    var s := End(c, posted);
    var signalled := Onward(c, posted, Callback(0), s.(cbs := map[0 := CmdSignalled]));
    r' := Onward(c, signalled, Callback(0), s.(mutex := Free, cbs := map[]));
    assert IsPrefix(r, signalled) && IsPrefix(r, r');
  }

  /** A callback raises the run level and returns. */
  lemma Raised(c: Config, r: Run) returns (r': Run)
    requires IsRun(c, r)
    requires End(c, r).cbs == map[] && End(c, r).mutex == Free && !End(c, r).pc.Asleep?
    ensures IsRun(c, r') && Accepted(c, r') == Accepted(c, r) && Installed(c, r') == Installed(c, r)
    ensures IsPrefix(r, r')
    ensures End(c, r') == End(c, r).(sh := End(c, r).sh.(currentRl := RL_BG_APPLY))
  {
    var s := End(c, r);
    var called := Onward(c, r, Arrive(0, RlCall(RL_BG_APPLY)), s.(cbs := map[0 := RlCall(RL_BG_APPLY)]));
    var updated :=
      Onward(c, called, Callback(0), s.(sh := s.sh.(currentRl := RL_BG_APPLY), cbs := map[0 := RlUpdated]));
    r' := Onward(c, updated, Callback(0), s.(sh := s.sh.(currentRl := RL_BG_APPLY), cbs := map[]));
    assert IsPrefix(r, called) && IsPrefix(r, updated);
  }

  /** The deploy command given by its text has its staged file open and nothing copied. */
  function OpenSys(c: Config, text: string, staged: string): Sys
    requires c.parse(text).Deploy?
  {
    var p := c.parse(text);
    var kept := if |p.name| > 0 then p.name else p.path;
    At(c, WithCommand(IDLE_SHARED, text).(currentRl := RL_BG_APPLY, state := INSTALLING),
       IDLE_PRIVATE.(filePath := p.path, savename := kept, staged := staged),
       Copying(|c.source(p.path)|, 0)).(fs := c.files[staged := []])
  }

  /** The thread takes a waiting deploy to the point where its staged file is open. */
  lemma Opened(c: Config, r: Run, text: string, staged: string) returns (r': Run)
    requires c.parse(text).Deploy?
    requires IsRun(c, r)
    requires End(c, r) == At(c, WithCommand(IDLE_SHARED, text).(currentRl := RL_BG_APPLY), IDLE_PRIVATE, Lock(WIdle))
    requires StagedPath("", c.parse(text).path, c.parse(text).name) == Some(staged)
    ensures IsRun(c, r') && Accepted(c, r') == Accepted(c, r) && Installed(c, r') == Installed(c, r)
    ensures End(c, r') == OpenSys(c, text, staged)
  {
    var p, sh := c.parse(text), WithCommand(IDLE_SHARED, text).(currentRl := RL_BG_APPLY);
    var pv := IDLE_PRIVATE.(filePath := p.path, savename := p.name);
    r' := WaitGo(c, r, At(c, sh, IDLE_PRIVATE, Test(WIdle)).(mutex := ByThread));
    r' := WaitGo(c, r', At(c, sh, pv, IdleParsed(true, false)));
    r' := DecideGo(c, r', At(c, sh, pv, Publish(INSTALLING)));
    r' := SetStateGo(c, r', At(c, sh.(state := INSTALLING), pv, Dispatch));
    r' := WaitGo(c, r', At(c, sh.(state := INSTALLING), pv, Installing));
    var s := OpenSys(c, text, staged);
    r' := WorkGo(c, r', s.(fs := c.files, pc := Opening));
    r' := WorkGo(c, r', s);
  }

  lemma DeployRun(c: Config, text: string, staged: string) returns (r: Run)
    requires |text| + 1 < MAX_CMD_LEN && c.parse(text).Deploy?
    requires StagedPath("", c.parse(text).path, c.parse(text).name) == Some(staged)
    ensures IsRun(c, r) && Accepted(c, r) == [text] && Installed(c, r) == Visible(c.files)
    ensures End(c, r) == OpenSys(c, text, staged)
  {
    r := IdleRun(c);
    r := Delivered(c, r, text);
    r := Raised(c, r);
    r := Opened(c, r, text, staged);
  }

  /** The installer waits in ERROR after one byte was copied and the next read failed. */
  function FailedSys(c: Config, text: string, staged: string): Sys
    requires c.parse(text).Deploy? && |c.source(c.parse(text).path)| >= 1
  {
    var open := OpenSys(c, text, staged);
    open.(fs := c.files[staged := c.source(c.parse(text).path)[..1]],
          sh := ClearedMailbox(open.sh).(state := ERROR),
          pv := open.pv.(updateFailed := true),
          pc := Lock(WError))
  }

  lemma OneByteCopied(c: Config, r: Run, text: string, staged: string) returns (r': Run)
    requires c.parse(text).Deploy? && |c.source(c.parse(text).path)| >= 2
    requires IsRun(c, r) && End(c, r) == OpenSys(c, text, staged)
    ensures IsRun(c, r') && Accepted(c, r') == Accepted(c, r)
    ensures End(c, r') == OpenSys(c, text, staged).(fs := FailedSys(c, text, staged).fs, pc := Failed)
  {
    var open := OpenSys(c, text, staged);
    var src := c.source(c.parse(text).path);
    assert [] + src[0..1] == src[..1];
    var part := open.(fs := FailedSys(c, text, staged).fs, pc := Copying(|src| - 1, 1));
    r' := WorkGo(c, r, part);
    r' := Onward(c, r', Thread(Choice(true, 0)), part.(pc := Failed));
  }

  /** A failure is marked, the mailbox emptied, and the thread waits in ERROR. */
  lemma ErrorEntered(c: Config, r: Run) returns (r': Run)
    requires IsRun(c, r) && End(c, r).pc == Failed && End(c, r).mutex == Free && End(c, r).booted
    ensures IsRun(c, r') && Accepted(c, r') == Accepted(c, r)
    ensures var s := End(c, r);
      End(c, r') == s.(sh := ClearedMailbox(s.sh).(state := ERROR), pv := s.pv.(updateFailed := true),
                       pc := Lock(WError))
  {
    var s := End(c, r);
    var pv, sh := s.pv.(updateFailed := true), ClearedMailbox(s.sh);
    r' := SetStateGo(c, r, s.(pv := pv, pc := SetClear(ERROR)));
    r' := SetStateGo(c, r', s.(pv := pv, sh := sh, pc := Publish(ERROR)));
    r' := SetStateGo(c, r', s.(pv := pv, sh := sh.(state := ERROR), pc := Dispatch));
    r' := WaitGo(c, r', s.(pv := pv, sh := sh.(state := ERROR), pc := Lock(WError)));
  }

  lemma FailedCopy(c: Config, r: Run, text: string, staged: string) returns (r': Run)
    requires c.parse(text).Deploy? && |c.source(c.parse(text).path)| >= 2
    requires IsRun(c, r) && End(c, r) == OpenSys(c, text, staged)
    ensures IsRun(c, r') && Accepted(c, r') == Accepted(c, r)
    ensures End(c, r') == FailedSys(c, text, staged)
  {
    r' := OneByteCopied(c, r, text, staged);
    r' := ErrorEntered(c, r');
  }

  /** The thread consumes a waiting clear_error and is idle again; the files stay. */
  lemma ClearErrorConsumed(c: Config, r: Run) returns (r': Run)
    requires IsRun(c, r)
    requires var s := End(c, r);
      s.pc == Lock(WError) && s.mutex == Free && s.booted && s.sh.cmdPending && c.parse(s.sh.cmd).ClearError?
    ensures IsRun(c, r') && Accepted(c, r') == Accepted(c, r)
    ensures End(c, r').sh.state == IDLE && End(c, r').pc == Lock(WIdle) && End(c, r').fs == End(c, r).fs
  {
    var s := End(c, r);
    var pv := s.pv.(cmdId := ClearErrorId);
    r' := WaitGo(c, r, s.(mutex := ByThread, pc := Test(WError)));
    r' := WaitGo(c, r', s.(pv := pv, pc := ErrorParsed(true)));
    r' := DecideGo(c, r', s.(pv := pv, pc := SetInfo));
    r' := SetStateGo(c, r', SetStateStep(c, End(c, r')));
    r' := SetStateGo(c, r', SetStateStep(c, End(c, r')));
    r' := SetStateGo(c, r', SetStateStep(c, End(c, r')));
    r' := SetStateGo(c, r', SetStateStep(c, End(c, r')));
    r' := WaitGo(c, r', WaitStep(c, End(c, r')));
  }

  /** A command accepted before start-up has cleared the mailbox is lost: its writer was told OK,
      the mailbox is empty, and by MailboxExactlyOnce no later parse can see it. */
  lemma EarlyCommandIsLost(c: Config, text: string) returns (before: Run, after: Run)
    requires |text| + 1 < MAX_CMD_LEN
    ensures IsRun(c, after) && IsPrefix(before, after)
    ensures !End(c, before).booted && End(c, before).sh.cmdPending && End(c, before).sh.cmd == text
    ensures End(c, after).booted && Mail(End(c, after)) == [] && Accepted(c, after) == [] && ParsedBy(c, after) == []
  {
    var posted := Delivered(c, Start, text);
    before := posted;
    var sh := Recorded(WithCommand(INITIAL, text), SUCCESS, "", c.pathMax);
    after := SetStateGo(c, before, Boot(c).(sh := sh, pc := SetClear(IDLE)));
    assert IsPrefix(before, after);
    after := SetStateGo(c, after, Boot(c).(sh := ClearedMailbox(sh), pc := Wipe, booted := true));
  }

  /** A run that leaves a part of a staged file behind: a deploy reads one byte, its next read fails,
      clear_error is consumed, and the installer is idle again with that byte in the staged file. */
  lemma StagedFileLeftOver(c: Config, deploy: string, clear: string, staged: string) returns (r: Run)
    requires |deploy| + 1 < MAX_CMD_LEN && |clear| + 1 < MAX_CMD_LEN
    requires c.parse(deploy).Deploy? && c.parse(clear).ClearError?
    requires StagedPath("", c.parse(deploy).path, c.parse(deploy).name) == Some(staged)
    requires |c.source(c.parse(deploy).path)| >= 2
    ensures IsRun(c, r) && Accepted(c, r) == [deploy, clear]
    ensures End(c, r).sh.state == IDLE && End(c, r).pc == Lock(WIdle)
    ensures staged in End(c, r).fs && End(c, r).fs[staged] == c.source(c.parse(deploy).path)[..1]
  {
    r := DeployRun(c, deploy, staged);
    r := FailedCopy(c, r, deploy, staged);
    r := Delivered(c, r, clear);
    r := ClearErrorConsumed(c, r);
  }

  /** A clear_error in the C program removes no file: a staged file, once there, stays until a
      commit renames that very file away. */
  lemma StagedFilesStay(c: Config, r: Run, l: Label, p: string)
    requires IsRun(c, Then(r, l)) && p in End(c, r).fs && p !in End(c, Then(r, l)).fs
    ensures CommitStep(End(c, r), l) && p == End(c, r).pv.staged
  {
    OnlyWorkTouchesFiles(c, End(c, r), l);
    WorkTouches(c, End(c, r), l.ch, p);
  }
}
