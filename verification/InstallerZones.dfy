/** Stretches of the installer thread's path, and how they are entered. */
module InstallerZones {
  import opened Text
  import opened DuInstallers
  import opened InstallerProtocol
  import opened InstallerInvariants

  /** From the run-level check to the end of the copy. */
  predicate GateZone(s: Sys) {
    match s.pc
    case IdleParsed(_, needsRl) => !needsRl
    case RlDone => true
    case Publish(t) => t == INSTALLING
    case Dispatch => s.sh.state == INSTALLING
    case Installing => true
    case Opening => true
    case Copying(_, _) => true
    case _ => false
  }

  /** On the way out of ERROR after a clear_error. */
  predicate ClearingError(s: Sys) {
    s.sh.state == ERROR &&
    match s.pc
    case ErrorParsed(ok) => ok && s.pv.cmdId == ClearErrorId
    case SetInfo => true
    case SetClear(t) => t == IDLE
    case Wipe => true
    case Publish(t) => t == IDLE
    case _ => false
  }

  /** Between the end of the copy and the end of the commit. */
  predicate DoneZone(s: Sys) {
    match s.pc
    case SetClear(t) => t == PENDING_COMMIT
    case Publish(t) => t == PENDING_COMMIT
    case Dispatch => s.sh.state == PENDING_COMMIT
    case CommitParsed(_) => true
    case Committing => true
    case _ => Waiting(s.pc, WCommit)
  }

  ghost predicate WholeSource(c: Config, s: Sys, d: Option<string>) {
    && d.Some?
    && s.pv.staged in s.fs && s.fs[s.pv.staged] == c.source(d.value)
    && (s.pc.CommitParsed? && s.pc.ok && s.pv.cmdId == CommitId ==> s.pv.filePath == d.value)
    && (!s.pc.CommitParsed? ==> s.pv.filePath == d.value)
  }

  predicate CommitStep(s: Sys, l: Label) {
    l.Thread? && Renames(s, l.ch)
  }

  /** The run-level stretch is entered with a level that is high enough. */
  predicate GateMove(s: Sys, s': Sys) {
    GateZone(s') && !GateZone(s) ==> s'.sh.currentRl >= RL_BG_APPLY
  }

  /** The stretch after a deploy is entered by a copy loop with nothing left to read. */
  predicate DoneMove(s: Sys, s': Sys) {
    DoneZone(s') && !DoneZone(s) ==>
      s.pc.Copying? && s.pc.remaining == 0 && s' == s.(pc := SetClear(PENDING_COMMIT))
  }

  /** Inside it the staged file and its name stay, and so does the source path unless a command
      other than commit is parsed. */
  predicate DoneStay(s: Sys, s': Sys) {
    DoneZone(s') && DoneZone(s) ==>
      && s'.fs == s.fs && s'.pv.staged == s.pv.staged
      && (s'.pv == s.pv || s'.pc.CommitParsed?)
      && (s'.pc.CommitParsed? && s'.pc.ok && s'.pv.cmdId == CommitId ==> s'.pv.filePath == s.pv.filePath)
      && (s.pc.CommitParsed? && s'.pc != s.pc ==> s.pc.ok && s.pv.cmdId == CommitId)
  }

  /** The way out of ERROR starts with parsing a clear_error in ERROR. */
  ghost predicate ClearMove(c: Config, s: Sys, s': Sys) {
    ClearingError(s') && !ClearingError(s) ==>
      s.pc == Test(WError) && Ready(WError, s.sh) && c.parse(s.sh.cmd).ClearError?
  }

  /** setState(IDLE) is entered by a clear_error or by a successful rename. */
  predicate InfoMove(s: Sys, s': Sys, ch: Choice) {
    && (s'.pc.SetInfo? && !s.pc.SetInfo? ==> s.pc.ErrorParsed? || (Renames(s, ch) && s'.pv == s.pv))
    && (s'.sh.state != s.sh.state ==> s.pc == Publish(s'.sh.state))
  }

  ghost predicate Moves(c: Config, s: Sys, s': Sys, ch: Choice) {
    GateMove(s, s') && DoneMove(s, s') && DoneStay(s, s') && ClearMove(c, s, s') && InfoMove(s, s', ch)
  }

  lemma MovesByWait(c: Config, s: Sys, ch: Choice)
    requires FlowInv(s)
    requires s.pc.Dispatch? || s.pc.Lock? || s.pc.Reacquire? || s.pc.Test? || s.pc.GoWait?
    ensures Moves(c, s, WaitStep(c, s), ch)
  {
  }

  lemma MovesByDecision(c: Config, s: Sys, ch: Choice)
    requires FlowInv(s) && Deciding(s.pc)
    ensures Moves(c, s, DecideStep(s, ch), ch)
  {
  }

  lemma MovesByWork(c: Config, s: Sys, ch: Choice)
    requires FlowInv(s) && Working(s.pc)
    ensures Moves(c, s, WorkStep(c, s, ch), ch)
  {
  }

  lemma MovesBySetState(c: Config, s: Sys, ch: Choice)
    requires FlowInv(s) && InSetState(s.pc)
    ensures Moves(c, s, SetStateStep(c, s), ch)
  {
  }

  lemma MovesByThread(c: Config, s: Sys, ch: Choice)
    requires FlowInv(s) && ThreadEnabled(s)
    ensures Moves(c, s, ThreadStep(c, s, ch), ch)
  {
    if Deciding(s.pc) {
      MovesByDecision(c, s, ch);
    } else if Working(s.pc) {
      MovesByWork(c, s, ch);
    } else if InSetState(s.pc) {
      MovesBySetState(c, s, ch);
    } else {
      MovesByWait(c, s, ch);
    }
  }

  /** Callbacks enter no stretch and change nothing the thread owns. */
  lemma MovesByOthers(s: Sys, l: Label)
    requires Enabled(s, l) && !l.Thread?
    ensures var s' := OtherStep(s, l);
      && (GateZone(s') <==> GateZone(s)) && (DoneZone(s') <==> DoneZone(s))
      && (ClearingError(s') <==> ClearingError(s)) && (s'.pc == s.pc || s.pc.Asleep?)
      && s'.pv == s.pv && s'.fs == s.fs && s'.sh.state == s.sh.state && s'.booted == s.booted
  {
  }
}
