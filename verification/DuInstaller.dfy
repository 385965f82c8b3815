/** The state every installer shares with its DU Link callbacks, and the lock regions that change it.
    Each region is a function on the shared record; class DuInstaller runs the same regions on fields. */
module DuInstallers {
  import opened Text

  /** RL_DORMANT .. RL_UNRESTRICTED are 0 .. 6, RL_INVALID is 7. */
  type RunLevel = x: int | 0 <= x <= 7

  const RL_DORMANT: RunLevel := 0
  const RL_BG_APPLY: RunLevel := 4
  const RL_INVALID: RunLevel := 7
  const MAX_CMD_LEN: nat := 512

  /** The five states the sample installer enters. */
  datatype InstState = IDLE | INSTALLING | PENDING_RL | PENDING_COMMIT | ERROR

  datatype Result = NONE | SUCCESS | FAILED

  datatype Rc = OK | InvalidArgument | BusyRetry

  datatype Shared = Shared(
    state: InstState,
    currentRl: RunLevel,
    pendingRl: RunLevel,
    cmdPending: bool,
    cmd: string,
    lastResult: Result,
    lastMetadata: string)

  const INITIAL: Shared := Shared(IDLE, RL_DORMANT, RL_INVALID, false, "", NONE, "")

  /** The command kept from a write of `length` bytes: the terminator is counted, so at most
      length - 1 characters of the caller's string survive. */
  function StoredText(buf: string, length: nat): string {
    if length == 0 then "" else Take(buf, length - 1)
  }

  function WriteRc(sh: Shared, length: nat): Rc {
    if MAX_CMD_LEN <= length then InvalidArgument
    else if sh.cmdPending then BusyRetry
    else OK
  }

  /** The shared record after an accepted command write. */
  function WithCommand(sh: Shared, text: string): Shared {
    sh.(cmd := text, cmdPending := true)
  }

  function ClearedMailbox(sh: Shared): Shared {
    sh.(cmd := "", cmdPending := false)
  }

  /** setInstallerPendingRl's merge of a new requirement with the one already pending. */
  function MergedRl(held: RunLevel, requested: RunLevel): RunLevel {
    if requested >= RL_INVALID then RL_INVALID
    else if held >= RL_INVALID then requested
    else if requested <= held then requested
    else held
  }

  /** setInstallerLastDeployedInfo: a source path longer than DU_PATH_MAX leaves the record alone. */
  function Recorded(sh: Shared, result: Result, path: string, pathMax: nat): Shared {
    if |path| > pathMax then sh else sh.(lastResult := result, lastMetadata := path)
  }

  /** Asking for a level and dropping the request again leaves nothing pending; asking never
      raises a level that is already pending, and keeps the lower of the two. */
  lemma MergeIsMinimum(held: RunLevel, requested: RunLevel)
    ensures MergedRl(MergedRl(held, requested), RL_INVALID) == RL_INVALID
    ensures requested < RL_INVALID ==> MergedRl(held, requested) <= held && MergedRl(held, requested) <= requested
    ensures requested < RL_INVALID ==> MergedRl(held, requested) == held || MergedRl(held, requested) == requested
    ensures requested < RL_INVALID && held < RL_INVALID ==> MergedRl(held, requested) == MergedRl(requested, held)
  {
  }

  class DuInstaller {
    var state: InstState
    var currentRl: RunLevel
    var pendingRl: RunLevel
    var cmdPending: bool
    var installerCmd: string
    var lastDeployedResult: Result
    var lastDeployedMetadata: string

    function View(): Shared
      reads this
    {
      Shared(state, currentRl, pendingRl, cmdPending, installerCmd, lastDeployedResult, lastDeployedMetadata)
    }

    constructor ()
      ensures View() == INITIAL
    {
      state := IDLE;
      currentRl := RL_DORMANT;
      pendingRl := RL_INVALID;
      cmdPending := false;
      installerCmd := "";
      lastDeployedResult := NONE;
      lastDeployedMetadata := "";
    }

    /** installerCmdCB, write operation, at offset 0. */
    method WriteCmd(buf: string, length: nat) returns (rc: Rc)
      modifies this
      ensures rc == OK <==> length < MAX_CMD_LEN && !old(cmdPending)
      ensures rc == BusyRetry <==> length < MAX_CMD_LEN && old(cmdPending)
      ensures rc == WriteRc(old(View()), length)
      ensures View() == if rc == OK then WithCommand(old(View()), StoredText(buf, length)) else old(View())
    {
      if MAX_CMD_LEN <= length {
        return InvalidArgument;
      }
      if cmdPending {
        return BusyRetry;
      }
      installerCmd := if length == 0 then "" else Take(buf, length - 1);
      cmdPending := true;
      rc := OK;
    }

    /** setInstallerCurrentRl as installerRequestedRlCB calls it. */
    method SetCurrentRl(rl: RunLevel) returns (notify: bool)
      requires rl < RL_INVALID
      modifies this
      ensures View() == old(View()).(currentRl := rl)
      ensures notify == (rl != old(currentRl))
    {
      var oldRl := currentRl;
      currentRl := rl;
      notify := currentRl != oldRl;
    }

    method SetPendingRl(rl: RunLevel) returns (notify: bool)
      modifies this
      ensures View() == old(View()).(pendingRl := MergedRl(old(pendingRl), rl))
      ensures notify == (pendingRl != old(pendingRl))
    {
      var oldRl := pendingRl;
      if rl >= RL_INVALID {
        pendingRl := RL_INVALID;
      } else if oldRl >= RL_INVALID && rl >= RL_DORMANT {
        pendingRl := rl;
      } else if rl <= oldRl {
        pendingRl := rl;
      }
      notify := pendingRl != oldRl;
    }

    method SetState(s: InstState) returns (notify: bool)
      modifies this
      ensures View() == old(View()).(state := s)
      ensures notify == (s != old(state))
    {
      var oldState := state;
      state := s;
      notify := oldState != state;
    }

    method SetLastDeployedInfo(result: Result, path: string, pathMax: nat) returns (ok: bool)
      modifies this
      ensures View() == Recorded(old(View()), result, path, pathMax)
      ensures ok == (|path| <= pathMax)
    {
      if |path| > pathMax {
        return false;
      }
      lastDeployedResult := result;
      lastDeployedMetadata := path;
      ok := true;
    }

    /** The mailbox reset inside setState. */
    method ClearMailbox()
      modifies this
      ensures View() == ClearedMailbox(old(View()))
    {
      installerCmd := "";
      cmdPending := false;
    }
  }
}
