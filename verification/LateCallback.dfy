/** What the delayed report of a call says in the end: a run of the calling side in which it changes
    while it waits, and for every run the report that is sent. */
module LateCallback {
  import opened Wrappers
  import opened Scheduler
  import UA = UserAgent
  import opened UserAgent
  import opened CallSlots
  import CallRuns
  import AgentReports

  lemma {:induction false} RunThenStep(cfg: Setup, s: Sys, labels: seq<Label>, l: Label)
    requires CallRuns.IsRun(cfg, s, labels) && CallSlots.Enabled(cfg, CallRuns.After(cfg, s, labels), l)
    ensures CallRuns.IsRun(cfg, s, labels + [l])
    ensures CallRuns.After(cfg, s, labels + [l]) == Next(cfg, CallRuns.After(cfg, s, labels), l)
    decreases |labels|
  {
    if labels != [] {
      RunThenStep(cfg, Next(cfg, s, labels[0]), labels[1..], l);
      assert (labels + [l])[1..] == labels[1..] + [l];
    }
  }

  // Follows one more label of a run from the initial state.
  lemma Follow(cfg: Setup, labels: seq<Label>, s: Sys, l: Label) returns (labels': seq<Label>, s': Sys)
    requires CallRuns.IsRun(cfg, InitSys(cfg), labels) && CallRuns.After(cfg, InitSys(cfg), labels) == s
    requires CallSlots.Enabled(cfg, s, l)
    ensures CallRuns.IsRun(cfg, InitSys(cfg), labels') && CallRuns.After(cfg, InitSys(cfg), labels') == s'
    ensures s' == Next(cfg, s, l)
  {
    RunThenStep(cfg, InitSys(cfg), labels, l);
    labels', s' := labels + [l], Next(cfg, s, l);
  }

  // Events that concern the agent alone.
  predicate Local(e: Event) {
    !e.CancelSeen? && !e.StartCall? && !e.Received? && !e.ReporterSends?
  }

  lemma LocalMove(cfg: Setup, s: Sys, n: nat, e: Event)
    requires n < |s.agents| == |s.startChan| && Local(e) && UA.Enabled(AgentConfig(cfg, n), s.agents[n], e)
    ensures AgentEnabled(cfg, s, n, e)
    ensures AgentMoves(cfg, s, n, e) == s.(agents := s.agents[n := UA.Apply(AgentConfig(cfg, n), s.agents[n], e)])
  {
    assert UA.Reports(AgentConfig(cfg, n), s.agents[n], e) == [];
    assert s.callEnd + [] == s.callEnd;
  }

  // A run of one agent by itself, seen in the system.
  lemma {:induction false} FollowAgent(cfg: Setup, labels: seq<Label>, s: Sys, n: nat, events: seq<Event>)
    returns (labels': seq<Label>, s': Sys)
    requires CallRuns.IsRun(cfg, InitSys(cfg), labels) && CallRuns.After(cfg, InitSys(cfg), labels) == s
    requires n < |s.agents| == |s.startChan| && UA.IsRun(AgentConfig(cfg, n), s.agents[n], events)
    requires forall e :: e in events ==> Local(e)
    ensures CallRuns.IsRun(cfg, InitSys(cfg), labels') && CallRuns.After(cfg, InitSys(cfg), labels') == s'
    ensures s' == s.(agents := s.agents[n := UA.After(AgentConfig(cfg, n), s.agents[n], events)])
    decreases |events|
  {
    if events == [] {
      labels', s' := labels, s;
      assert s.agents[n := s.agents[n]] == s.agents;
    } else {
      LocalMove(cfg, s, n, events[0]);
      var labels1, s1 := Follow(cfg, labels, s, Agent(n, events[0]));
      labels', s' := FollowAgent(cfg, labels1, s1, n, events[1..]);
    }
  }

  // The first call is started on slot 0 and reaches its agent.
  lemma FirstStart(cfg: Setup) returns (labels: seq<Label>, s: Sys)
    requires cfg.slots > 0
    ensures CallRuns.IsRun(cfg, InitSys(cfg), labels) && CallRuns.After(cfg, InitSys(cfg), labels) == s
    ensures |s.agents| == |s.startChan| == cfg.slots && s.startChan[0] == [1] && s.callEnd == []
    ensures s.agents[0] == UA.Init(AgentConfig(cfg, 0))
  {
    labels, s := [], InitSys(cfg);
    labels, s := Follow(cfg, labels, s, Dispatcher(SelectDefault));
    labels, s := Follow(cfg, labels, s, Dispatcher(Check));
    assert NextIdle(s.d.inCall, s.d.cursor, 0);
    labels, s := Follow(cfg, labels, s, Dispatcher(StartCallOn(0)));
    assert s.startChan[0] == [] + [1];
  }

  // The call is made, and a callback says it is over.
  lemma SuccessfulCall(acfg: Config, u: Ua, a: Session) returns (events: seq<Event>, u': Ua)
    requires acfg.role.Uac? && u == UA.StartMedia(UA.Init(acfg).(phase := Running, cr := u.cr))
    ensures UA.IsRun(acfg, u, events) && UA.After(acfg, u, events) == u'
    ensures forall e :: e in events ==> Local(e)
    ensures u'.phase.Running? && u'.currentSession == Some(a) && u'.mediaCancel && u'.cr.result == Successful
    ensures u'.runs == map[0 := Sent] && u'.mediaEnd == [] && u'.reporters == []
  {
    events, u' := [], u;
    events, u' := UA.Follow(acfg, u, events, u', RunCommits(0));
    events, u' := UA.Follow(acfg, u, events, u', RunSends(0));
    events, u' := UA.Follow(acfg, u, events, u', LocalSdp(Some(a)));
    events, u' := UA.Follow(acfg, u, events, u', SipState(false));
  }

  // The call ends, and its reporter begins to wait.
  lemma CallEnds(acfg: Config, u: Ua, a: Session) returns (events: seq<Event>, u': Ua)
    requires acfg.role.Uac? && u.phase.Running? && u.currentSession == Some(a) && u.mediaCancel
    requires u.runs == map[0 := Sent] && u.mediaEnd == [] && u.reporters == []
    ensures UA.IsRun(acfg, u, events) && UA.After(acfg, u, events) == u'
    ensures forall e :: e in events ==> Local(e)
    ensures u'.reporters == [Reporter(u.cr, false)] && u'.cr == u.cr && u'.phase.Running?
  {
    events, u' := [], u;
    events, u' := UA.Follow(acfg, u, events, u', Terminated(a));
    events, u' := UA.Follow(acfg, u, events, u', RunEnds(0));
    events, u' := UA.Follow(acfg, u, events, u', JoinDone);
  }

  // While it waits, a late callback says that the call failed.
  lemma LateFailure(acfg: Config, u: Ua) returns (events: seq<Event>, u': Ua)
    requires u.phase.Running? && u.cr.result == Successful && u.reporters == [Reporter(u.cr, false)]
    ensures UA.IsRun(acfg, u, events) && UA.After(acfg, u, events) == u'
    ensures forall e :: e in events ==> Local(e)
    ensures |u'.reporters| == 1 && u'.reporters[0].woke
    ensures u'.reporters[0].snapshot.result == Successful && u'.cr.result == Failed
  {
    events, u' := [], u;
    events, u' := UA.Follow(acfg, u, events, u', SipState(true));
    events, u' := UA.Follow(acfg, u, events, u', ReporterWakes);
  }

  /** Some run sends a report that says Failed for a call that had ended successfully. */
  lemma ReportCanChangeWhileWaiting(cfg: Setup, a: Session) returns (labels: seq<Label>)
    requires cfg.slots > 0
    ensures CallRuns.IsRun(cfg, InitSys(cfg), labels)
    ensures var s := CallRuns.After(cfg, InitSys(cfg), labels);
            && CallSlots.Enabled(cfg, s, Agent(0, ReporterSends))
            && var sent := Next(cfg, s, Agent(0, ReporterSends)).callEnd;
            && |sent| == 1 && sent[0].result == Failed
            && s.agents[0].reporters[0].snapshot.result == Successful
  {
    var s;
    labels, s := FirstStart(cfg);
    LocalMove(cfg, s, 0, Registered);
    labels, s := Follow(cfg, labels, s, Agent(0, Registered));
    labels, s := Follow(cfg, labels, s, Agent(0, StartCall(1)));
    var call, u := SuccessfulCall(AgentConfig(cfg, 0), s.agents[0], a);
    labels, s := FollowAgent(cfg, labels, s, 0, call);
    var end, u1 := CallEnds(AgentConfig(cfg, 0), u, a);
    labels, s := FollowAgent(cfg, labels, s, 0, end);
    var late, u2 := LateFailure(AgentConfig(cfg, 0), u1);
    labels, s := FollowAgent(cfg, labels, s, 0, late);
    u := u2;
    assert UA.Reports(AgentConfig(cfg, 0), u, ReporterSends) == [u.cr];
  }

  /* ---------- which result is sent ---------- */

  /** What the last state callback of agent n among the labels says, None for none. */
  function LastCallback(labels: seq<Label>, n: nat): Option<CallResult> {
    if labels == [] then None
    else
      match labels[|labels| - 1]
      case Agent(m, SipState(failed)) =>
        if m == n then Some(if failed then Failed else Successful) else LastCallback(labels[..|labels| - 1], n)
      case _ => LastCallback(labels[..|labels| - 1], n)
  }

  // A report with the result the last callback says.
  function Overwritten(r: Report, last: Option<CallResult>): Report {
    if last.None? then r else r.(result := last.value)
  }

  // The callback of one label, and then of the others.
  function FirstOrLater(l: Label, n: nat, later: Option<CallResult>): Option<CallResult> {
    if later.Some? then later
    else if l.Agent? && l.n == n && l.e.SipState? then Some(if l.e.failed then Failed else Successful)
    else None
  }

  lemma {:induction false} LastCallbackFrom(labels: seq<Label>, n: nat)
    requires labels != []
    ensures LastCallback(labels, n) == FirstOrLater(labels[0], n, LastCallback(labels[1..], n))
  {
    var m := |labels| - 1;
    if m > 0 {
      LastCallbackFrom(labels[..m], n);
      assert labels[..m][1..] == labels[1..][..m - 1];
    } else {
      assert labels[..0] == [] && labels[1..] == [];
    }
  }

  // One event of an agent whose reporter waits.
  lemma WaitingStep(acfg: Config, u: Ua, e: Event)
    requires acfg.role.Uac? && UA.Inv(acfg, u) && UA.Enabled(acfg, u, e)
    requires |u.reporters| == 1 && !u.mediaCancel && !e.StartCall? && !e.ReporterSends?
    ensures var u' := UA.Apply(acfg, u, e);
            && |u'.reporters| == 1 && u'.reporters[0].snapshot == u.reporters[0].snapshot
            && u'.cr == if e.SipState? then u.cr.(result := if e.failed then Failed else Successful) else u.cr
  {
  }

  lemma LabelWhileWaiting(cfg: Setup, s: Sys, l: Label, n: nat)
    requires SysInv(cfg, s) && CallSlots.Enabled(cfg, s, l) && n < cfg.slots
    requires s.agents[n].reporters != [] && l != Agent(n, ReporterSends)
    ensures var u, u' := s.agents[n], Next(cfg, s, l).agents[n];
            && |u'.reporters| == |u.reporters| == 1 && u'.reporters[0].snapshot == u.reporters[0].snapshot
            && u'.cr == Overwritten(u.cr, FirstOrLater(l, n, None))
  {
    CarriesAlone(cfg, s, n);
    if l.Agent? && l.n == n {
      assert UA.Inv(AgentConfig(cfg, n), s.agents[n]);
      WaitingStep(AgentConfig(cfg, n), s.agents[n], l.e);
    }
  }

  lemma {:induction false} CrWhileWaiting(cfg: Setup, s: Sys, labels: seq<Label>, n: nat)
    requires SysInv(cfg, s) && CallRuns.IsRun(cfg, s, labels) && n < cfg.slots
    requires s.agents[n].reporters != [] && Agent(n, ReporterSends) !in labels
    ensures var s' := CallRuns.After(cfg, s, labels);
            && SysInv(cfg, s')
            && |s.agents[n].reporters| == |s'.agents[n].reporters| == 1
            && s'.agents[n].reporters[0].snapshot == s.agents[n].reporters[0].snapshot
            && s'.agents[n].cr == Overwritten(s.agents[n].cr, LastCallback(labels, n))
    decreases |labels|
  {
    if labels == [] {
      CarriesAlone(cfg, s, n);
    } else {
      var l := labels[0];
      StepKeepsSysInv(cfg, s, l);
      LabelWhileWaiting(cfg, s, l, n);
      CrWhileWaiting(cfg, Next(cfg, s, l), labels[1..], n);
      LastCallbackFrom(labels, n);
    }
  }

  // Where a reporter is spawned it remembers cr.
  lemma SpawnRemembers(cfg: Setup, s: Sys, l: Label, n: nat)
    requires SysInv(cfg, s) && CallSlots.Enabled(cfg, s, l) && n < cfg.slots && s.agents[n].reporters == []
    requires Next(cfg, s, l).agents[n].reporters != []
    ensures var u := Next(cfg, s, l).agents[n]; u.reporters[0].snapshot == u.cr
  {
    if l.Agent? && l.n == n {
      SpawnStep(AgentConfig(cfg, n), s.agents[n], l.e);
    }
  }

  lemma SpawnStep(acfg: Config, u: Ua, e: Event)
    requires UA.Enabled(acfg, u, e) && u.reporters == [] && UA.Apply(acfg, u, e).reporters != []
    ensures var u' := UA.Apply(acfg, u, e); u'.reporters[0].snapshot == u'.cr
  {
    if !e.JoinDone? && !e.Terminated? {
      OthersSpawnNone(acfg, u, e);
    }
  }

  lemma OthersSpawnNone(acfg: Config, u: Ua, e: Event)
    requires UA.Enabled(acfg, u, e) && u.reporters == [] && !e.JoinDone? && !e.Terminated?
    ensures UA.Apply(acfg, u, e).reporters == []
  {
    if UA.Turns(e) {
      assert e.RegisterFailed? || e.Registered? || e.CancelSeen? || e.StartCall? || e.Received?;
    }
  }

  /** From the step that ends a call to the send of its report: the report sent is the one of the end,
      with the result that the last state callback in between says, if there was any. */
  lemma SentReportIs(cfg: Setup, before: seq<Label>, end: Label, labels: seq<Label>, n: nat)
    requires cfg.slots > 0 && n < cfg.slots && CallRuns.IsRun(cfg, InitSys(cfg), before)
    requires var s0 := CallRuns.After(cfg, InitSys(cfg), before);
             && CallSlots.Enabled(cfg, s0, end) && n < |s0.agents| && s0.agents[n].reporters == []
             && var s1 := Next(cfg, s0, end);
             && n < |s1.agents| && s1.agents[n].reporters != []
             && CallRuns.IsRun(cfg, s1, labels) && Agent(n, ReporterSends) !in labels
             && CallSlots.Enabled(cfg, CallRuns.After(cfg, s1, labels), Agent(n, ReporterSends))
    ensures var s1 := Next(cfg, CallRuns.After(cfg, InitSys(cfg), before), end);
            var s := CallRuns.After(cfg, s1, labels);
            Next(cfg, s, Agent(n, ReporterSends)).callEnd
            == s.callEnd + [Overwritten(s1.agents[n].reporters[0].snapshot, LastCallback(labels, n))]
  {
    var s0 := CallRuns.Reachable(cfg, before);
    var s1 := Next(cfg, s0, end);
    StepKeepsSysInv(cfg, s0, end);
    SpawnRemembers(cfg, s0, end, n);
    CrWhileWaiting(cfg, s1, labels, n);
    var s := CallRuns.After(cfg, s1, labels);
    assert UA.Reports(AgentConfig(cfg, n), s.agents[n], ReporterSends) == [s.agents[n].cr];
  }

  /** The report sent says how the call ended exactly when no state callback came in between or the
      last one agrees. */
  lemma SentReportIsRightExactly(cfg: Setup, before: seq<Label>, end: Label, labels: seq<Label>, n: nat)
    requires cfg.slots > 0 && n < cfg.slots && CallRuns.IsRun(cfg, InitSys(cfg), before)
    requires var s0 := CallRuns.After(cfg, InitSys(cfg), before);
             && CallSlots.Enabled(cfg, s0, end) && n < |s0.agents| && s0.agents[n].reporters == []
             && var s1 := Next(cfg, s0, end);
             && n < |s1.agents| && s1.agents[n].reporters != []
             && CallRuns.IsRun(cfg, s1, labels) && Agent(n, ReporterSends) !in labels
             && CallSlots.Enabled(cfg, CallRuns.After(cfg, s1, labels), Agent(n, ReporterSends))
    ensures var s1 := Next(cfg, CallRuns.After(cfg, InitSys(cfg), before), end);
            var s := CallRuns.After(cfg, s1, labels);
            var sent := Next(cfg, s, Agent(n, ReporterSends)).callEnd;
            && |sent| == |s.callEnd| + 1
            && (sent[|s.callEnd|] == s1.agents[n].reporters[0].snapshot
                <==> LastCallback(labels, n).None?
                     || LastCallback(labels, n).value == s1.agents[n].reporters[0].snapshot.result)
  {
    SentReportIs(cfg, before, end, labels, n);
  }

  /* ---------- which call is sent ---------- */

  // The agent is between the end of its call and the send of the report.
  predicate Ending(u: Ua) {
    u.phase == Joining(false) || u.reporters != []
  }

  lemma JoiningStep(acfg: Config, u: Ua, e: Event)
    requires acfg.role.Uac? && UA.Inv(acfg, u) && UA.Enabled(acfg, u, e) && u.phase == Joining(false)
    ensures SameCall(UA.Apply(acfg, u, e).cr, u.cr)
    ensures e.JoinDone? || UA.Apply(acfg, u, e).phase == Joining(false)
    ensures e.JoinDone? ==> UA.Apply(acfg, u, e).reporters != []
  {
    AgentReports.EndingKeepsCall(acfg, u, e);
  }

  lemma LabelWhileEnding(cfg: Setup, s: Sys, l: Label, n: nat)
    requires SysInv(cfg, s) && CallSlots.Enabled(cfg, s, l) && n < cfg.slots
    requires Ending(s.agents[n]) && l != Agent(n, ReporterSends)
    ensures var u, u' := s.agents[n], Next(cfg, s, l).agents[n]; Ending(u') && SameCall(u'.cr, u.cr)
  {
    if s.agents[n].reporters != [] {
      LabelWhileWaiting(cfg, s, l, n);
    } else if l.Agent? && l.n == n {
      assert UA.Inv(AgentConfig(cfg, n), s.agents[n]);
      JoiningStep(AgentConfig(cfg, n), s.agents[n], l.e);
    }
  }

  lemma {:induction false} CallWhileEnding(cfg: Setup, s: Sys, labels: seq<Label>, n: nat)
    requires SysInv(cfg, s) && CallRuns.IsRun(cfg, s, labels) && n < cfg.slots
    requires Ending(s.agents[n]) && Agent(n, ReporterSends) !in labels
    ensures var s' := CallRuns.After(cfg, s, labels);
            SysInv(cfg, s') && SameCall(s'.agents[n].cr, s.agents[n].cr)
    decreases |labels|
  {
    if labels != [] {
      StepKeepsSysInv(cfg, s, labels[0]);
      LabelWhileEnding(cfg, s, labels[0], n);
      CallWhileEnding(cfg, Next(cfg, s, labels[0]), labels[1..], n);
    }
  }

  /** From the termination of an agent's session to the send of its report, over any run: the report
      carries that session's Call-ID, the index of the call and the agent's account. */
  lemma TerminatedSessionIsReported(cfg: Setup, before: seq<Label>, n: nat, sess: Session, labels: seq<Label>)
    requires cfg.slots > 0 && n < cfg.slots && CallRuns.IsRun(cfg, InitSys(cfg), before)
    requires var s0 := CallRuns.After(cfg, InitSys(cfg), before);
             && CallSlots.Enabled(cfg, s0, Agent(n, Terminated(sess))) && s0.agents[n].currentSession == Some(sess)
             && var s1 := Next(cfg, s0, Agent(n, Terminated(sess)));
             && CallRuns.IsRun(cfg, s1, labels) && Agent(n, ReporterSends) !in labels
             && CallSlots.Enabled(cfg, CallRuns.After(cfg, s1, labels), Agent(n, ReporterSends))
    ensures var s0 := CallRuns.After(cfg, InitSys(cfg), before);
            var s := CallRuns.After(cfg, Next(cfg, s0, Agent(n, Terminated(sess))), labels);
            var sent := Next(cfg, s, Agent(n, ReporterSends)).callEnd;
            && |sent| == |s.callEnd| + 1
            && sent[|s.callEnd|].callId == sess.callId
            && sent[|s.callEnd|].callIndex == s0.agents[n].cr.callIndex
            && sent[|s.callEnd|].accountIndex == n
  {
    var s0 := CallRuns.Reachable(cfg, before);
    var l := Agent(n, Terminated(sess));
    var s1 := Next(cfg, s0, l);
    StepKeepsSysInv(cfg, s0, l);
    assert UA.Inv(AgentConfig(cfg, n), s0.agents[n]);
    assert s1.agents[n].phase == Joining(false) && s1.agents[n].cr == s0.agents[n].cr;
    CallWhileEnding(cfg, s1, labels, n);
    var s := CallRuns.After(cfg, s1, labels);
    assert UA.Inv(AgentConfig(cfg, n), s.agents[n]);
    assert UA.Reports(AgentConfig(cfg, n), s.agents[n], ReporterSends) == [s.agents[n].cr];
  }
}
