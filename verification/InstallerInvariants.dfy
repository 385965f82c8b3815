/** What every step of the installer protocol keeps. */
module InstallerInvariants {
  import opened Text
  import opened Staging
  import opened DuInstallers
  import opened InstallerProtocol

  // ---------- mutual exclusion and wake-ups ----------

  predicate HoldsMutex(p: CbPc) {
    p.CmdWritten? || p.CmdSignalled?
  }

  /** Between its update and its signal. */
  predicate PreSignal(p: CbPc) {
    p.CmdWritten? || p.RlUpdated?
  }

  ghost predicate SignalComing(s: Sys) {
    exists id :: id in s.cbs && PreSignal(s.cbs[id])
  }

  ghost predicate MutexInv(s: Sys) {
    && (s.mutex == ByThread <==> s.pc.Test? || s.pc.GoWait?)
    && (forall id | id in s.cbs :: HoldsMutex(s.cbs[id]) <==> s.mutex == ByCb(id))
    && (s.mutex.ByCb? ==> s.mutex.id in s.cbs)
  }

  ghost predicate WakeInv(s: Sys) {
    && (s.pc.GoWait? ==> !Ready(s.pc.w, s.sh))
    && (s.pc.Asleep? && Ready(s.pc.w, s.sh) ==> SignalComing(s))
  }

  lemma MutexKeptByThread(c: Config, s: Sys, ch: Choice)
    requires MutexInv(s) && ThreadEnabled(s)
    ensures MutexInv(ThreadStep(c, s, ch))
  {
    var s' := ThreadStep(c, s, ch);
    assert s'.cbs == s.cbs;
    assert s'.mutex == (if s.pc.Lock? || s.pc.Reacquire? then ByThread
                        else if s.pc.Test? && !s'.pc.GoWait? then Free
                        else if s.pc.GoWait? then Free else s.mutex);
  }

  lemma MutexKeptByCallback(s: Sys, id: nat)
    requires MutexInv(s) && CallbackEnabled(s, id)
    ensures MutexInv(CallbackStep(s, id))
  {
  }

  lemma MutexKeptByOthers(s: Sys, l: Label)
    requires MutexInv(s) && Enabled(s, l) && !l.Thread?
    ensures MutexInv(OtherStep(s, l))
  {
    if l.Callback? {
      MutexKeptByCallback(s, l.id);
    }
  }

  /** The thread tests and goes to sleep under one hold of the mutex. */
  lemma WakeKeptByThread(c: Config, s: Sys, ch: Choice)
    requires WakeInv(s) && ThreadEnabled(s)
    ensures WakeInv(ThreadStep(c, s, ch))
  {
    if !Deciding(s.pc) && !Working(s.pc) && !InSetState(s.pc) {
      assert ThreadStep(c, s, ch) == WaitStep(c, s);
    }
  }

  /** A callback that changes the wait condition is then on its way to a signal. */
  lemma WakeKeptByCallback(s: Sys, id: nat)
    requires MutexInv(s) && WakeInv(s) && CallbackEnabled(s, id)
    ensures WakeInv(CallbackStep(s, id))
  {
    var s' := CallbackStep(s, id);
    if s'.pc.Asleep? && Ready(s'.pc.w, s'.sh) {
      if s'.sh != s.sh {
        assert PreSignal(s'.cbs[id]);
      } else {
        var other :| other in s.cbs && PreSignal(s.cbs[other]);
        assert other in s'.cbs && PreSignal(s'.cbs[other]);
      }
    }
  }

  lemma WakeKeptByOthers(s: Sys, l: Label)
    requires MutexInv(s) && WakeInv(s) && Enabled(s, l) && !l.Thread?
    ensures WakeInv(OtherStep(s, l))
  {
    if l.Callback? {
      WakeKeptByCallback(s, l.id);
    } else if s.pc.Asleep? && Ready(s.pc.w, s.sh) {
      var other :| other in s.cbs && PreSignal(s.cbs[other]);
      assert l.Arrive? ==> PreSignal(OtherStep(s, l).cbs[other]);
    }
  }

  // ---------- control flow ----------

  predicate Waiting(pc: Pc, w: Wait) {
    pc == Lock(w) || pc == Test(w) || pc == GoWait(w) || pc == Asleep(w) || pc == Reacquire(w)
  }

  /** The thread is on the way of one accepted-and-parsed command to its deploy. */
  predicate DeployZone(s: Sys) {
    match s.pc
    case IdleParsed(ok, _) => ok
    case AskRl => true
    case RlDone => true
    case Installing => true
    case Opening => true
    case Copying(_, _) => true
    case SetClear(t) => t == PENDING_COMMIT
    case Publish(t) => t == PENDING_RL || t == INSTALLING
    case Dispatch => s.sh.state == PENDING_RL || s.sh.state == INSTALLING
    case _ => Waiting(s.pc, WRl)
  }

  /** The pending command has been parsed and the mailbox not yet cleared. */
  predicate Taken(s: Sys) {
    DeployZone(s) ||
    match s.pc
    case IdleParsed(_, _) => true
    case ErrorParsed(_) => true
    case CommitParsed(_) => true
    case Committing => true
    case Failed => true
    case SetInfo => s.booted
    case SetClear(_) => s.booted
    case _ => false
  }

  /** Where the thread may stand while state still reads as it does. */
  predicate LeavingFor(s: Sys, t: InstState) {
    match t
    case IDLE => !s.booted || (s.sh.state == ERROR && s.pv.cmdId == ClearErrorId) || s.sh.state == PENDING_COMMIT
    case PENDING_COMMIT => s.sh.state == INSTALLING
    case PENDING_RL => s.sh.state == IDLE && s.sh.pendingRl == RL_BG_APPLY
    case INSTALLING => s.sh.state == IDLE || s.sh.state == PENDING_RL
    case ERROR => true
  }

  predicate PlaceOk(s: Sys) {
    match s.pc
    case Dispatch => s.sh.state == PENDING_RL ==> s.sh.pendingRl == RL_BG_APPLY
    case IdleParsed(_, _) => s.sh.state == IDLE
    case AskRl => s.sh.state == IDLE
    case ErrorParsed(_) => s.sh.state == ERROR
    case CommitParsed(_) => s.sh.state == PENDING_COMMIT
    case Committing => s.sh.state == PENDING_COMMIT
    case RlDone => s.sh.state == PENDING_RL
    case Installing => s.sh.state == INSTALLING
    case Opening => s.sh.state == INSTALLING
    case Copying(_, _) => s.sh.state == INSTALLING
    case Failed => true
    case SetInfo => LeavingFor(s, IDLE)
    case SetClear(t) => t != INSTALLING && t != PENDING_RL && LeavingFor(s, t)
    case Wipe => s.sh.state == IDLE || LeavingFor(s, IDLE)
    case Publish(t) => (t == IDLE && s.sh.state == IDLE) || LeavingFor(s, t)
    case _ => s.sh.state == StateOf(s.pc.w) && (s.pc.w == WRl ==> s.sh.pendingRl == RL_BG_APPLY)
  }

  ghost predicate FlowInv(s: Sys) {
    && (s.sh.pendingRl == RL_BG_APPLY || s.sh.pendingRl == RL_INVALID)
    && (!s.booted ==> s.sh.state == IDLE && (s.pc == SetInfo || s.pc == SetClear(IDLE)))
    && (s.booted && s.pc != Wipe ==> s.pv.installDir == "")
    && (s.pv.updateFailed <==>
          s.pc != Publish(IDLE) && (s.sh.state == ERROR || s.pc == SetClear(ERROR) || s.pc == Publish(ERROR)))
    && (Taken(s) ==> s.sh.cmdPending)
    && PlaceOk(s)
  }

  lemma FlowKeptByWait(c: Config, s: Sys)
    requires FlowInv(s)
    requires s.pc.Dispatch? || s.pc.Lock? || s.pc.Reacquire? || s.pc.Test? || s.pc.GoWait?
    ensures FlowInv(WaitStep(c, s))
  {
  }

  lemma FlowKeptByDecision(c: Config, s: Sys, ch: Choice)
    requires FlowInv(s) && Deciding(s.pc)
    ensures FlowInv(DecideStep(s, ch))
  {
  }

  lemma FlowKeptByWork(c: Config, s: Sys, ch: Choice)
    requires FlowInv(s) && Working(s.pc)
    ensures FlowInv(WorkStep(c, s, ch))
  {
  }

  lemma FlowKeptBySetState(c: Config, s: Sys)
    requires FlowInv(s) && InSetState(s.pc)
    ensures FlowInv(SetStateStep(c, s))
  {
  }

  lemma FlowKeptByThread(c: Config, s: Sys, ch: Choice)
    requires FlowInv(s) && ThreadEnabled(s)
    ensures FlowInv(ThreadStep(c, s, ch))
  {
    if Deciding(s.pc) {
      FlowKeptByDecision(c, s, ch);
    } else if Working(s.pc) {
      FlowKeptByWork(c, s, ch);
    } else if InSetState(s.pc) {
      FlowKeptBySetState(c, s);
    } else {
      FlowKeptByWait(c, s);
    }
  }

  lemma FlowKeptByOthers(s: Sys, l: Label)
    requires FlowInv(s) && Enabled(s, l) && !l.Thread?
    ensures FlowInv(OtherStep(s, l))
  {
  }

  // ---------- the command being carried out ----------

  predicate Carries(pv: Private, p: Parsed) {
    && p.Ok()
    && (p.Deploy? ==> pv.cmdId == DeployId && pv.filePath == p.path)
    && (p.Commit? ==> pv.cmdId == CommitId)
    && (p.ClearError? ==> pv.cmdId == ClearErrorId)
  }

  /** From a successful parse in IDLE to the end of the deploy, the private fields are those of
      the command still in the mailbox, and a file is only opened under its staged name. */
  ghost predicate CommandInv(c: Config, s: Sys) {
    DeployZone(s) ==>
      var p := c.parse(s.sh.cmd);
      && Carries(s.pv, p)
      && (s.pc.Opening? || s.pc.Copying? || s.pc.SetClear? ==>
            p.Deploy? && StagedPath("", p.path, p.name) == Some(s.pv.staged))
      && (p.Deploy? && !(s.pc.Opening? || s.pc.Copying? || s.pc.SetClear?) ==> s.pv.savename == p.name)
  }

  lemma CommandKeptByWait(c: Config, s: Sys)
    requires FlowInv(s) && CommandInv(c, s)
    requires s.pc.Dispatch? || s.pc.Lock? || s.pc.Reacquire? || s.pc.Test? || s.pc.GoWait?
    ensures CommandInv(c, WaitStep(c, s))
  {
  }

  lemma CommandKeptByDecision(c: Config, s: Sys, ch: Choice)
    requires FlowInv(s) && CommandInv(c, s) && Deciding(s.pc)
    ensures CommandInv(c, DecideStep(s, ch))
  {
  }

  lemma CommandKeptByWork(c: Config, s: Sys, ch: Choice)
    requires FlowInv(s) && CommandInv(c, s) && Working(s.pc)
    ensures CommandInv(c, WorkStep(c, s, ch))
  {
  }

  lemma CommandKeptBySetState(c: Config, s: Sys)
    requires FlowInv(s) && CommandInv(c, s) && InSetState(s.pc)
    ensures CommandInv(c, SetStateStep(c, s))
  {
  }

  lemma CommandKeptByThread(c: Config, s: Sys, ch: Choice)
    requires FlowInv(s) && CommandInv(c, s) && ThreadEnabled(s)
    ensures CommandInv(c, ThreadStep(c, s, ch))
  {
    if Deciding(s.pc) {
      CommandKeptByDecision(c, s, ch);
    } else if Working(s.pc) {
      CommandKeptByWork(c, s, ch);
    } else if InSetState(s.pc) {
      CommandKeptBySetState(c, s);
    } else {
      CommandKeptByWait(c, s);
    }
  }

  lemma CommandKeptByOthers(c: Config, s: Sys, l: Label)
    requires FlowInv(s) && CommandInv(c, s) && Enabled(s, l) && !l.Thread?
    ensures CommandInv(c, OtherStep(s, l))
  {
  }

  // ---------- the bytes of the staged file ----------

  /** While copying, the staged file is the part of the source already read. */
  ghost predicate CopyInv(c: Config, s: Sys) {
    s.pc.Copying? ==>
      var src := c.source(s.pv.filePath);
      && s.pc.offset + s.pc.remaining == |src|
      && s.pv.staged in s.fs && s.fs[s.pv.staged] == src[..s.pc.offset]
  }

  lemma CopyKeptByWork(c: Config, s: Sys, ch: Choice)
    requires CopyInv(c, s) && Working(s.pc)
    ensures CopyInv(c, WorkStep(c, s, ch))
  {
    if s.pc.Copying? && s.pc.remaining > 0 {
      var src, s' := c.source(s.pv.filePath), WorkStep(c, s, ch);
      if s'.pc.Copying? {
        assert src[..s.pc.offset] + src[s.pc.offset..s'.pc.offset] == src[..s'.pc.offset];
      }
    }
  }

  lemma CopyKeptByThread(c: Config, s: Sys, ch: Choice)
    requires CopyInv(c, s) && ThreadEnabled(s)
    ensures CopyInv(c, ThreadStep(c, s, ch))
  {
    if Working(s.pc) {
      CopyKeptByWork(c, s, ch);
    }
  }

  lemma CopyKeptByOthers(c: Config, s: Sys, l: Label)
    requires CopyInv(c, s) && Enabled(s, l) && !l.Thread?
    ensures CopyInv(c, OtherStep(s, l))
  {
  }

  ghost predicate Inv(c: Config, s: Sys) {
    MutexInv(s) && WakeInv(s) && FlowInv(s) && CommandInv(c, s) && CopyInv(c, s)
  }

  lemma InvKeptByThread(c: Config, s: Sys, ch: Choice)
    requires Inv(c, s) && ThreadEnabled(s)
    ensures Inv(c, ThreadStep(c, s, ch))
  {
    MutexKeptByThread(c, s, ch);
    WakeKeptByThread(c, s, ch);
    FlowKeptByThread(c, s, ch);
    CommandKeptByThread(c, s, ch);
    CopyKeptByThread(c, s, ch);
  }

  lemma InvKeptByOthers(c: Config, s: Sys, l: Label)
    requires Inv(c, s) && Enabled(s, l) && !l.Thread?
    ensures Inv(c, OtherStep(s, l))
  {
    MutexKeptByOthers(s, l);
    WakeKeptByOthers(s, l);
    FlowKeptByOthers(s, l);
    CommandKeptByOthers(c, s, l);
    CopyKeptByOthers(c, s, l);
  }

  /** Every state of every run satisfies the invariants. */
  lemma {:induction false} InvAlways(c: Config, r: Run)
    requires IsRun(c, r)
    ensures Inv(c, End(c, r))
  {
    match r
    case Start =>
    case Then(p, l) =>
      InvAlways(c, p);
      if l.Thread? {
        InvKeptByThread(c, End(c, p), l.ch);
      } else {
        InvKeptByOthers(c, End(c, p), l);
      }
  }
}
