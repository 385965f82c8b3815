/** The installer structure itself: setState and parseCmd on its fields, against the small steps of the
    protocol. */
module SampleInstallers {
  import opened DuInstallers
  import opened InstallerProtocol
  import opened InstallerInvariants

  /** Where setState starts for each target. */
  function StartOf(target: InstState): Pc {
    match target
    case IDLE => SetInfo
    case ERROR => Failed
    case PENDING_COMMIT => SetClear(PENDING_COMMIT)
    case INSTALLING => Publish(INSTALLING)
    case PENDING_RL => Publish(PENDING_RL)
  }

  function StepsLeft(pc: Pc): nat {
    match pc
    case Failed => 4
    case SetInfo => 4
    case SetClear(_) => 3
    case Wipe => 2
    case _ => 1
  }

  /** The thread runs setState to its end and nobody comes in between. */
  function ThroughSetState(c: Config, s: Sys): Sys
    requires InSetState(s.pc)
    decreases StepsLeft(s.pc)
  {
    var next := SetStateStep(c, s);
    if InSetState(next.pc) then ThroughSetState(c, next) else next
  }

  lemma StepByStep(c: Config, s: Sys, target: InstState)
    requires s.pc == StartOf(target)
    ensures var s1 := SetStateStep(c, s);
      ThroughSetState(c, s) ==
        if target == IDLE then SetStateStep(c, SetStateStep(c, SetStateStep(c, s1)))
        else if target == ERROR then SetStateStep(c, SetStateStep(c, s1))
        else if target == PENDING_COMMIT then SetStateStep(c, s1)
        else s1
  {
    var s1 := SetStateStep(c, s);
    if InSetState(s1.pc) {
      var s2 := SetStateStep(c, s1);
      if InSetState(s2.pc) {
        var s3 := SetStateStep(c, s2);
        assert ThroughSetState(c, s2) == if InSetState(s3.pc) then ThroughSetState(c, s3) else s3;
      }
    }
  }

  class SampleInstaller {
    const duInstaller: DuInstaller
    var cmdId: CmdId
    var filePathBuf: string
    var savenameBuf: string
    var stagedFilePathBuf: string
    var installDir: string
    var bUpdateFailed: bool

    function View(): Private
      reads this
    {
      Private(cmdId, filePathBuf, savenameBuf, stagedFilePathBuf, installDir, bUpdateFailed)
    }

    constructor (cwd: string)
      ensures fresh(duInstaller) && duInstaller.View() == INITIAL
      ensures View() == Private(DeployId, "", "", "", cwd, false)
    {
      duInstaller := new DuInstaller();
      cmdId, filePathBuf, savenameBuf, stagedFilePathBuf := DeployId, "", "", "";
      installDir, bUpdateFailed := cwd, false;
    }

    /** On the fields, setState does what its small steps do one after the other. */
    method SetState(state: InstState, c: Config, ghost s: Sys)
      requires s.sh == duInstaller.View() && s.pv == View() && s.pc == StartOf(state)
      modifies this, duInstaller
      ensures var end := ThroughSetState(c, s);
        end.pc == Dispatch && duInstaller.View() == end.sh && View() == end.pv
    {
      StepByStep(c, s, state);
      match state {
        case IDLE =>
          var result := if bUpdateFailed then FAILED else SUCCESS;
          var recorded := duInstaller.SetLastDeployedInfo(result, filePathBuf, c.pathMax);
          duInstaller.ClearMailbox();
          filePathBuf := "";
          savenameBuf := "";
          stagedFilePathBuf := "";
          installDir := "";
          bUpdateFailed := false;
        case PENDING_COMMIT =>
          duInstaller.ClearMailbox();
        case ERROR =>
          bUpdateFailed := true;
          duInstaller.ClearMailbox();
        case _ =>
      }
      var notify := duInstaller.SetState(state);
    }

    /** parseCmd's stores: a rejected deploy has already stored its id and may have stored arguments. */
    method ParseCmd(c: Config, text: string) returns (ok: bool)
      modifies this
      ensures View() == Loaded(old(View()), c.parse(text)) && ok == c.parse(text).Ok()
      ensures c.parse(text).Deploy? ==>
        cmdId == DeployId && filePathBuf == c.parse(text).path && savenameBuf == c.parse(text).name
      ensures c.parse(text).BadDeploy? ==>
        && cmdId == DeployId
        && (c.parse(text).badPath.Some? ==> filePathBuf == c.parse(text).badPath.value)
        && (c.parse(text).badName.Some? ==> savenameBuf == c.parse(text).badName.value)
      ensures c.parse(text).Commit? ==> cmdId == CommitId
      ensures c.parse(text).ClearError? ==> cmdId == ClearErrorId
      ensures c.parse(text).Unknown? ==> View() == old(View())
      ensures ok && c.parse(text).Deploy? && TakesFromText(c.parse) ==>
        |filePathBuf| + TAG_ROOM <= |text| && |savenameBuf| + TAG_ROOM <= |text|
    {
      var p := c.parse(text);
      match p {
        case Deploy(path, name) =>
          cmdId := DeployId;
          filePathBuf := path;
          savenameBuf := name;
        case Commit =>
          cmdId := CommitId;
        case ClearError =>
          cmdId := ClearErrorId;
        case Unknown =>
        case BadDeploy(path, name) =>
          cmdId := DeployId;
          if path.Some? {
            filePathBuf := path.value;
          }
          if name.Some? {
            savenameBuf := name.value;
          }
      }
      ok := p.Ok();
    }
  }

  /** Entering a state: a command can be taken again exactly in the states that wait for one, ERROR
      marks the update as failed, and IDLE forgets the deployment. */
  lemma EnteredState(c: Config, s: Sys, target: InstState)
    requires s.pc == StartOf(target)
    ensures var end := ThroughSetState(c, s);
      && end.sh.state == target && end.pc == Dispatch && end.fs == s.fs
      && end.sh.cmdPending == (s.sh.cmdPending && (target == INSTALLING || target == PENDING_RL))
      && end.pv.updateFailed == (target == ERROR || (s.pv.updateFailed && target != IDLE))
      && (target == IDLE ==> end.pv.staged == "" && end.pv.filePath == "" && end.pv.installDir == "")
      && (target != IDLE ==> end.pv.staged == s.pv.staged && end.pv.filePath == s.pv.filePath)
  {
    StepByStep(c, s, target);
  }

  /** The assertion at the head of execCommitCmd never fires, nor does the deploy write outside
      INSTALLING, in any run. */
  lemma AssertionsHold(c: Config, r: Run)
    requires IsRun(c, r)
    ensures End(c, r).pc.Committing? ==> End(c, r).sh.state == PENDING_COMMIT
    ensures End(c, r).pc.Opening? || End(c, r).pc.Copying? ==> End(c, r).sh.state == INSTALLING
  {
    InvAlways(c, r);
  }
}
