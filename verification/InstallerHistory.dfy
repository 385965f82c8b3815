/** Facts about the past of a run, read off its steps. */
module InstallerHistory {
  import opened Text
  import opened Staging
  import opened DuInstallers
  import opened InstallerProtocol
  import opened InstallerInvariants
  import opened InstallerZones

  predicate Parses(s: Sys, l: Label) {
    l.Thread? && s.pc.Test? && s.pc.w != WRl && Ready(s.pc.w, s.sh)
  }

  /** Command texts accepted since installerInit's own setState cleared the mailbox, in order. */
  ghost function Accepted(c: Config, r: Run): seq<string> {
    match r
    case Start => []
    case Then(p, l) =>
      var s := End(c, p);
      if s.booted && Enabled(s, l) && Accepts(s, l)
      then Accepted(c, p) + [StoredText(s.cbs[l.id].buf, s.cbs[l.id].length)]
      else Accepted(c, p)
  }

  /** Command texts handed to parseCmd, in order, with the state whose handler did so. */
  ghost function ParsedBy(c: Config, r: Run): seq<(string, InstState)> {
    match r
    case Start => []
    case Then(p, l) =>
      var s := End(c, p);
      if Enabled(s, l) && Parses(s, l) then ParsedBy(c, p) + [(s.sh.cmd, StateOf(s.pc.w))] else ParsedBy(c, p)
  }

  function Texts(ps: seq<(string, InstState)>): seq<string> {
    seq(|ps|, i requires 0 <= i < |ps| => ps[i].0)
  }

  /** Some moment since the last accepted command had a run level of at least RL_BG_APPLY. */
  ghost function HighSinceAccept(c: Config, r: Run): bool {
    match r
    case Start => false
    case Then(p, l) =>
      var high := End(c, r).sh.currentRl >= RL_BG_APPLY;
      if Enabled(End(c, p), l) && Accepts(End(c, p), l) then high else high || HighSinceAccept(c, p)
  }

  /** ERROR has been published since IDLE last was. */
  ghost function ErrorSinceIdle(c: Config, r: Run): bool {
    match r
    case Start => false
    case Then(p, l) =>
      var s := End(c, p);
      if Enabled(s, l) && l.Thread? && s.pc == Publish(ERROR) then true
      else if Enabled(s, l) && l.Thread? && s.pc == Publish(IDLE) then false
      else ErrorSinceIdle(c, p)
  }

  /** Source path of the latest deploy command whose copy loop ran to its end. */
  ghost function LastDeploy(c: Config, r: Run): Option<string> {
    match r
    case Start => None
    case Then(p, l) =>
      var s := End(c, p);
      var cmd := c.parse(s.sh.cmd);
      if Enabled(s, l) && l.Thread? && s.pc.Copying? && s.pc.remaining == 0 && cmd.Deploy? then Some(cmd.path)
      else LastDeploy(c, p)
  }

  /** Source of the deploy committed since IDLE was last published. */
  ghost function JustCommitted(c: Config, r: Run): Option<string> {
    match r
    case Start => None
    case Then(p, l) =>
      var s := End(c, p);
      if Enabled(s, l) && CommitStep(s, l) then LastDeploy(c, p)
      else if Enabled(s, l) && l.Thread? && s.pc == Publish(IDLE) then None
      else JustCommitted(c, p)
  }

  /** Files whose names lack the staging suffix. */
  ghost function Visible(fs: map<string, seq<byte>>): map<string, seq<byte>> {
    map p | p in fs && !Contains(p, SUFFIX) :: fs[p]
  }

  /** The visible files if each commit installed, in one piece, the whole source of the
      latest complete deploy and nothing else ever changed them. */
  ghost function Installed(c: Config, r: Run): map<string, seq<byte>> {
    match r
    case Start => Visible(c.files)
    case Then(p, l) =>
      var s := End(c, p);
      if Enabled(s, l) && CommitStep(s, l) && LastDeploy(c, p).Some?
      then Installed(c, p)[CommitPath(s.pv.staged).value := c.source(LastDeploy(c, p).value)]
      else Installed(c, p)
  }

  // ---------- the mailbox ----------

  /** The command waiting in the mailbox, not yet parsed. */
  ghost function Mail(s: Sys): seq<string> {
    if s.sh.cmdPending && !Taken(s) then [s.sh.cmd] else []
  }

  ghost predicate MailFits(s: Sys, accepted: seq<string>, parsed: seq<(string, InstState)>) {
    && (s.booted ==> accepted == Texts(parsed) + Mail(s))
    && (!s.booted ==> accepted == [] && parsed == [])
    && (Taken(s) ==> |parsed| > 0 && parsed[|parsed| - 1].0 == s.sh.cmd)
  }

  ghost predicate MailInv(c: Config, r: Run) {
    MailFits(End(c, r), Accepted(c, r), ParsedBy(c, r))
  }

  lemma TextsGrow(ps: seq<(string, InstState)>, q: (string, InstState))
    ensures Texts(ps + [q]) == Texts(ps) + [q.0]
  {
  }

  /** How one step of the thread moves the unparsed command: a parse takes it, anything else
      after start-up leaves it alone. */
  ghost predicate MailMoved(s: Sys, s': Sys, parses: bool) {
    && (parses ==> s.booted && Mail(s) == [s.sh.cmd] && Mail(s') == [])
    && (!parses && s.booted ==> Mail(s') == Mail(s))
    && (s.booted ==> s'.booted)
    && (!s.booted ==> !parses && (s'.booted ==> Mail(s') == []))
    && (Taken(s') ==> s'.sh.cmd == s.sh.cmd && (parses || Taken(s)))
  }

  lemma MailByWait(c: Config, s: Sys)
    requires FlowInv(s)
    requires s.pc.Dispatch? || s.pc.Lock? || s.pc.Reacquire? || s.pc.Test? || s.pc.GoWait?
    ensures MailMoved(s, WaitStep(c, s), s.pc.Test? && s.pc.w != WRl && Ready(s.pc.w, s.sh))
  {
  }

  lemma MailByDecision(s: Sys, ch: Choice)
    requires FlowInv(s) && Deciding(s.pc)
    ensures MailMoved(s, DecideStep(s, ch), false)
  {
  }

  lemma MailByWork(c: Config, s: Sys, ch: Choice)
    requires FlowInv(s) && Working(s.pc)
    ensures MailMoved(s, WorkStep(c, s, ch), false)
  {
  }

  lemma MailBySetState(c: Config, s: Sys)
    requires FlowInv(s) && InSetState(s.pc)
    ensures MailMoved(s, SetStateStep(c, s), false)
  {
  }

  lemma MailByThread(c: Config, s: Sys, ch: Choice)
    requires FlowInv(s) && ThreadEnabled(s)
    ensures MailMoved(s, ThreadStep(c, s, ch), Parses(s, Thread(ch)))
  {
    if Deciding(s.pc) {
      MailByDecision(s, ch);
    } else if Working(s.pc) {
      MailByWork(c, s, ch);
    } else if InSetState(s.pc) {
      MailBySetState(c, s);
    } else {
      MailByWait(c, s);
    }
  }

  /** Callbacks, arrivals and spurious wake-ups: only an accepted write touches the mailbox. */
  lemma MailByOthers(s: Sys, l: Label)
    requires FlowInv(s) && Enabled(s, l) && !l.Thread?
    ensures var s' := OtherStep(s, l);
      if Accepts(s, l) then
        Mail(s) == [] && !Taken(s) && !Taken(s') && s'.booted == s.booted
        && Mail(s') == [StoredText(s.cbs[l.id].buf, s.cbs[l.id].length)]
      else MailMoved(s, s', false)
  {
  }

  lemma MailKept(s: Sys, s': Sys, accepted: seq<string>, parsed: seq<(string, InstState)>)
    requires MailFits(s, accepted, parsed) && MailMoved(s, s', false)
    ensures MailFits(s', accepted, parsed)
  {
  }

  lemma MailParsed(s: Sys, s': Sys, accepted: seq<string>, parsed: seq<(string, InstState)>, st: InstState)
    requires MailFits(s, accepted, parsed) && MailMoved(s, s', true)
    ensures MailFits(s', accepted, parsed + [(s.sh.cmd, st)])
  {
    TextsGrow(parsed, (s.sh.cmd, st));
    assert Texts(parsed) + [s.sh.cmd] + [] == Texts(parsed) + [s.sh.cmd];
  }

  lemma MailGrowsByThread(c: Config, p: Run, ch: Choice)
    requires IsRun(c, Then(p, Thread(ch))) && FlowInv(End(c, p)) && MailInv(c, p)
    ensures MailInv(c, Then(p, Thread(ch)))
  {
    var s := End(c, p);
    MailByThread(c, s, ch);
    if Parses(s, Thread(ch)) {
      MailParsed(s, ThreadStep(c, s, ch), Accepted(c, p), ParsedBy(c, p), StateOf(s.pc.w));
    } else {
      MailKept(s, ThreadStep(c, s, ch), Accepted(c, p), ParsedBy(c, p));
    }
  }

  lemma MailGrowsByOthers(c: Config, p: Run, l: Label)
    requires IsRun(c, Then(p, l)) && FlowInv(End(c, p)) && MailInv(c, p) && !l.Thread?
    ensures MailInv(c, Then(p, l))
  {
    MailByOthers(End(c, p), l);
    assert ParsedBy(c, Then(p, l)) == ParsedBy(c, p);
  }

  lemma {:induction false} MailAlways(c: Config, r: Run)
    requires IsRun(c, r)
    ensures MailInv(c, r)
  {
    if r.Then? {
      MailAlways(c, r.before);
      InvAlways(c, r.before);
      if r.step.Thread? {
        MailGrowsByThread(c, r.before, r.step.ch);
      } else {
        MailGrowsByOthers(c, r.before, r.step);
      }
    }
  }
}
