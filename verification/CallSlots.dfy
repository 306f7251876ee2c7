/** The whole calling side: the loop of main.go's uac, its agents and the channels between them, as
    a transition system.  A label says who moves; runs are the sequences of labels that are enabled
    one after the other, so a statement about every run covers every interleaving and every choice
    of the SIP library, the media runs and the timers. */
module CallSlots {
  import opened Wrappers
  import opened Scheduler
  import UA = UserAgent
  import opened UserAgent

  /** Where the dispatcher is.  `left` is eccLen, the number of further receives it has promised. */
  datatype Pc =
    | Selecting
    | GotReport(cr: Report)
    | Draining(cr: Report, left: nat)
    | Checking
    | Picking
    | Done

  datatype Sys = Sys(
    pc: Pc,
    d: Sched,
    cancelled: bool,
    startChan: seq<seq<int>>,   // one channel of capacity 1 for each agent
    agents: seq<Ua>,
    callEnd: seq<Report>)       // capacity: the number of slots

  /** One turn of the dispatcher, up to and including its next channel operation. */
  datatype Turn =
    | SelectDone
    | SelectReport
    | SelectDefault
    | TakeLength
    | AccountReport
    | Check
    | StartCallOn(slot: nat)

  datatype Label = Signal | Dispatcher(turn: Turn) | Agent(n: nat, e: Event)

  datatype Setup = Setup(slots: nat, totalCalls: int, hasDuration: bool)

  function AgentConfig(cfg: Setup, n: nat): Config {
    Config(Uac, n, cfg.hasDuration)
  }

  function InitSys(cfg: Setup): Sys {
    Sys(Selecting, InitSched(cfg.slots), false, seq(cfg.slots, _ => []),
        seq(cfg.slots, n requires n >= 0 => UA.Init(AgentConfig(cfg, n))), [])
  }

  /** A step of an agent, as far as it touches what agents share. */
  predicate AgentEnabled(cfg: Setup, s: Sys, n: nat, e: Event) {
    && n < |s.agents| == |s.startChan|
    && UA.Enabled(AgentConfig(cfg, n), s.agents[n], e)
    && match e
       case CancelSeen => s.cancelled
       case StartCall(callIndex) => s.startChan[n] != [] && s.startChan[n][0] == callIndex
       case ReporterSends => |s.callEnd| < cfg.slots
       case _ => true
  }

  // The state after agent n became u, took its start message if `took`, and sent the reports.
  function Publish(s: Sys, n: nat, u: Ua, took: bool, reports: seq<Report>): Sys
    requires n < |s.agents| == |s.startChan| && (took ==> s.startChan[n] != [])
  {
    s.(agents := s.agents[n := u],
       startChan := if took then s.startChan[n := s.startChan[n][1..]] else s.startChan,
       callEnd := s.callEnd + reports)
  }

  function AgentMoves(cfg: Setup, s: Sys, n: nat, e: Event): Sys
    requires AgentEnabled(cfg, s, n, e)
  {
    var acfg, u := AgentConfig(cfg, n), s.agents[n];
    Publish(s, n, UA.Apply(acfg, u, e), e.StartCall?, UA.Reports(acfg, u, e))
  }

  ghost predicate TurnEnabled(s: Sys, t: Turn) {
    match t
    case SelectDone => s.pc.Selecting? && s.cancelled
    case SelectReport => s.pc.Selecting? && s.callEnd != []
    case SelectDefault => s.pc.Selecting? && s.callEnd == [] && !s.cancelled
    case TakeLength => s.pc.GotReport?
    case AccountReport =>
      s.pc.Draining? && s.pc.cr.accountIndex < |s.d.inCall| && (s.pc.left > 0 ==> s.callEnd != [])
    case Check => s.pc.Checking?
    case StartCallOn(k) =>
      s.pc.Picking? && NextIdle(s.d.inCall, s.d.cursor, k) && k < |s.startChan| && |s.startChan[k]| < CAPACITY
  }

  function TurnMoves(cfg: Setup, s: Sys, t: Turn): Sys
    requires TurnEnabled(s, t)
  {
    match t
    case SelectDone => s.(pc := Done)
    case SelectReport => s.(pc := GotReport(s.callEnd[0]), callEnd := s.callEnd[1..])
    case SelectDefault => s.(pc := Checking)
    case TakeLength => s.(pc := Draining(s.pc.cr, |s.callEnd|))
    case AccountReport =>
      var d := Account(s.d, s.pc.cr);
      if s.pc.left > 0
      then s.(d := d, pc := Draining(s.callEnd[0], s.pc.left - 1), callEnd := s.callEnd[1..])
      else s.(d := d, pc := Checking)
    case Check =>
      (match Decide(s.d, cfg.totalCalls)
       case AllCompleted => s.(pc := Done, cancelled := true)
       case Wait => s.(pc := Selecting)
       case StartOne => s.(pc := Picking))
    case StartCallOn(k) =>
      s.(pc := Selecting, d := StartOn(s.d, k), startChan := s.startChan[k := s.startChan[k] + [s.d.started + 1]])
  }

  ghost predicate Enabled(cfg: Setup, s: Sys, l: Label) {
    match l
    case Signal => true
    case Dispatcher(t) => TurnEnabled(s, t)
    case Agent(n, e) => AgentEnabled(cfg, s, n, e)
  }

  function Next(cfg: Setup, s: Sys, l: Label): Sys
    requires Enabled(cfg, s, l)
  {
    match l
    case Signal => s.(cancelled := true)
    case Dispatcher(t) => TurnMoves(cfg, s, t)
    case Agent(n, e) => AgentMoves(cfg, s, n, e)
  }

  /* ---------- who holds which call ---------- */

  function CallIndexes(reports: seq<Report>, n: nat): multiset<int>
  {
    if reports == [] then multiset{}
    else CallIndexes(reports[..|reports| - 1], n)
         + (if reports[|reports| - 1].accountIndex == n then multiset{reports[|reports| - 1].callIndex} else multiset{})
  }

  function Pending(reporters: seq<Reporter>): multiset<int> {
    if reporters == [] then multiset{} else multiset{reporters[0].snapshot.callIndex} + Pending(reporters[1..])
  }

  // The call of an agent: of its media run, or of its waiting reporters.
  function Carried(u: Ua): multiset<int> {
    (if u.mediaCancel then multiset{u.cr.callIndex} else multiset{}) + Pending(u.reporters)
  }

  function InHand(pc: Pc): seq<Report> {
    if pc.GotReport? || pc.Draining? then [pc.cr] else []
  }

  /** The call indexes account n holds: queued for its agent, being called, waiting for the delayed
      report, in callEndChan, or just received by the dispatcher. */
  function Held(s: Sys, n: nat): multiset<int>
    requires n < |s.agents| == |s.startChan|
  {
    multiset(s.startChan[n])
    + Carried(s.agents[n])
    + CallIndexes(s.callEnd, n)
    + CallIndexes(InHand(s.pc), n)
  }

  ghost predicate Queues(cfg: Setup, s: Sys) {
    && cfg.slots > 0
    && |s.agents| == |s.startChan| == |s.d.inCall| == cfg.slots
    && (forall i :: 0 <= i < |s.callEnd| ==> s.callEnd[i].accountIndex < cfg.slots)
    && (s.pc.GotReport? || s.pc.Draining? ==> s.pc.cr.accountIndex < cfg.slots)
    && (s.pc.Draining? ==> s.pc.left <= |s.callEnd|)
  }

  /** A waiting reporter will still find the call it was spawned for. */
  ghost predicate Snapshot(u: Ua) {
    forall i :: 0 <= i < |u.reporters| ==> SameCall(u.reporters[i].snapshot, u.cr)
  }

  ghost predicate Agents(cfg: Setup, agents: seq<Ua>) {
    forall n :: 0 <= n < |agents| ==> UA.Inv(AgentConfig(cfg, n), agents[n]) && Snapshot(agents[n])
  }

  ghost predicate Schedule(cfg: Setup, s: Sys) {
    Scheduler.Inv(s.d, cfg.totalCalls) && (s.pc.Picking? ==> Decide(s.d, cfg.totalCalls).StartOne?)
  }

  /** A busy slot holds exactly one call index, an idle one none. */
  ghost predicate Token(s: Sys, n: nat)
    requires n < |s.agents| == |s.startChan| == |s.d.inCall|
  {
    |Held(s, n)| == if s.d.inCall[n] then 1 else 0
  }

  ghost predicate Tokens(s: Sys)
    requires |s.agents| == |s.startChan| == |s.d.inCall|
  {
    forall n :: 0 <= n < |s.agents| ==> Token(s, n)
  }

  ghost predicate SysInv(cfg: Setup, s: Sys) {
    Queues(cfg, s) && Agents(cfg, s.agents) && Schedule(cfg, s) && Tokens(s)
  }

  lemma {:induction false} CallIndexesConcat(a: seq<Report>, b: seq<Report>, n: nat)
    ensures CallIndexes(a + b, n) == CallIndexes(a, n) + CallIndexes(b, n)
    decreases |b|
  {
    if b == [] {
      assert a + b == a;
    } else {
      assert (a + b)[..|a + b| - 1] == a + b[..|b| - 1];
      CallIndexesConcat(a, b[..|b| - 1], n);
    }
  }

  lemma HeadAndRest(q: seq<Report>, n: nat)
    requires q != []
    ensures CallIndexes(q, n) == CallIndexes([q[0]], n) + CallIndexes(q[1..], n)
  {
    CallIndexesConcat([q[0]], q[1..], n);
    assert q == [q[0]] + q[1..];
  }

  /* ---------- every step keeps the invariant ---------- */

  lemma InitSysInv(cfg: Setup)
    requires cfg.slots > 0
    ensures SysInv(cfg, InitSys(cfg))
  {
    InitInv(cfg.slots, cfg.totalCalls);
  }

  // The token of an account rules out every other place its call could be.
  lemma CarriesAlone(cfg: Setup, s: Sys, n: nat)
    requires SysInv(cfg, s) && n < cfg.slots
    ensures s.agents[n].mediaCancel ==> s.startChan[n] == [] && s.agents[n].reporters == []
    ensures s.startChan[n] != [] ==> |s.startChan[n]| == 1 && !s.agents[n].mediaCancel && s.agents[n].reporters == []
    ensures |s.agents[n].reporters| <= 1
  {
    var u := s.agents[n];
    assert Token(s, n);
    assert |Carried(u)| + |s.startChan[n]| <= 1;
    PendingSize(u.reporters);
  }

  lemma {:induction false} PendingSize(reporters: seq<Reporter>)
    ensures |Pending(reporters)| == |reporters|
  {
    if reporters != [] {
      PendingSize(reporters[1..]);
    }
  }

  /** The start message finds the agent free: the branch of sip/ua.go:232-236 is never taken. */
  lemma StartFindsAgentFree(cfg: Setup, s: Sys, n: nat)
    requires SysInv(cfg, s) && n < cfg.slots && s.startChan[n] != []
    ensures var u := s.agents[n]; u.currentSession.None? && !u.mediaCtx && !u.mediaCancel
  {
    CarriesAlone(cfg, s, n);
  }

  lemma StepKeepsCarried(acfg: Config, u: Ua, e: Event)
    requires acfg.role.Uac? && UA.Inv(acfg, u) && UA.Enabled(acfg, u, e) && Snapshot(u)
    requires u.mediaCancel ==> u.reporters == []
    requires !e.StartCall? && !e.JoinDone? && !e.ReporterWakes? && !e.ReporterSends?
    ensures var u' := UA.Apply(acfg, u, e);
            && u'.mediaCancel == u.mediaCancel && u'.reporters == u.reporters
            && u'.cr.callIndex == u.cr.callIndex && UA.Reports(acfg, u, e) == [] && Snapshot(u')
  {
  }

  lemma PendingOne(r: Reporter)
    ensures Pending([r]) == multiset{r.snapshot.callIndex}
  {
    assert [r][1..] == [];
  }

  lemma JoinMovesCarried(acfg: Config, u: Ua)
    requires acfg.role.Uac? && UA.Enabled(acfg, u, JoinDone) && u.mediaCancel && u.reporters == []
    ensures var u' := UA.Apply(acfg, u, JoinDone);
            Carried(u') == Carried(u) && UA.Reports(acfg, u, JoinDone) == [] && Snapshot(u')
  {
    var r := Reporter(u.cr, false);
    var u' := UA.Apply(acfg, u, JoinDone);
    if u.phase.leaving {
      assert u'.mediaCancel && u'.reporters == [] && u'.cr == u.cr;
    } else {
      assert u'.reporters == u.reporters + [r] == [r];
      assert !u'.mediaCancel && u'.cr == u.cr;
      PendingOne(r);
      assert Carried(u') == multiset{u.cr.callIndex};
      assert Carried(u) == multiset{u.cr.callIndex};
      assert Snapshot(u');
    }
  }

  lemma PendingFirst(reporters: seq<Reporter>, reporters': seq<Reporter>)
    requires reporters != [] && reporters' != [] && reporters'[1..] == reporters[1..]
    requires reporters'[0].snapshot.callIndex == reporters[0].snapshot.callIndex
    ensures Pending(reporters') == Pending(reporters)
  {
  }

  lemma WakeKeepsCarried(acfg: Config, u: Ua)
    requires UA.Enabled(acfg, u, ReporterWakes) && Snapshot(u)
    ensures var u' := UA.Apply(acfg, u, ReporterWakes);
            Carried(u') == Carried(u) && UA.Reports(acfg, u, ReporterWakes) == [] && Snapshot(u')
  {
    var u' := UA.Apply(acfg, u, ReporterWakes);
    PendingFirst(u.reporters, u'.reporters);
  }

  lemma SendMovesCarried(acfg: Config, u: Ua)
    requires UA.Enabled(acfg, u, ReporterSends) && Snapshot(u) && u.cr.accountIndex == acfg.account
    ensures var u' := UA.Apply(acfg, u, ReporterSends);
            && Carried(u') + CallIndexes(UA.Reports(acfg, u, ReporterSends), acfg.account) == Carried(u)
            && Snapshot(u')
  {
    var u' := UA.Apply(acfg, u, ReporterSends);
    assert SameCall(u.reporters[0].snapshot, u.cr);
    OneIndex(u.cr);
    assert UA.Reports(acfg, u, ReporterSends) == [u.cr];
    assert Carried(u) == Carried(u') + multiset{u.cr.callIndex};
  }

  lemma OneIndex(r: Report)
    ensures CallIndexes([r], r.accountIndex) == multiset{r.callIndex}
  {
    assert [r][..0] == [];
  }

  // What a step of an agent does to the call it carries.
  lemma StepMovesCarried(acfg: Config, u: Ua, e: Event)
    requires acfg.role.Uac? && UA.Inv(acfg, u) && UA.Enabled(acfg, u, e) && Snapshot(u)
    requires u.mediaCancel || e.StartCall? ==> u.reporters == []
    requires e.StartCall? ==> !u.mediaCancel
    ensures var u' := UA.Apply(acfg, u, e);
            && Carried(u') + CallIndexes(UA.Reports(acfg, u, e), acfg.account)
               == Carried(u) + (if e.StartCall? then multiset{e.callIndex} else multiset{})
            && Snapshot(u')
  {
    if e.JoinDone? {
      JoinMovesCarried(acfg, u);
    } else if e.ReporterWakes? {
      WakeKeepsCarried(acfg, u);
    } else if e.ReporterSends? {
      SendMovesCarried(acfg, u);
    } else if !e.StartCall? {
      StepKeepsCarried(acfg, u, e);
    }
  }

  lemma StepReportsOwnAccount(acfg: Config, u: Ua, e: Event)
    requires UA.Inv(acfg, u) && UA.Enabled(acfg, u, e)
    ensures forall i :: 0 <= i < |UA.Reports(acfg, u, e)| ==> UA.Reports(acfg, u, e)[i].accountIndex == acfg.account
  {
  }

  lemma {:induction false} NoIndexesOfOthers(reports: seq<Report>, n: nat)
    requires forall i :: 0 <= i < |reports| ==> reports[i].accountIndex != n
    ensures CallIndexes(reports, n) == multiset{}
  {
    if reports != [] {
      NoIndexesOfOthers(reports[..|reports| - 1], n);
    }
  }

  lemma MovesWithin(took: multiset<int>, queued: multiset<int>, carried: multiset<int>, carried': multiset<int>,
                    reported: multiset<int>, end: multiset<int>, hand: multiset<int>)
    requires carried' + reported == carried + took
    ensures queued + carried' + (end + reported) + hand == (took + queued) + carried + end + hand
  {
    var after := queued + carried' + (end + reported) + hand;
    var before := (took + queued) + carried + end + hand;
    forall x
      ensures after[x] == before[x]
    {
      assert (carried' + reported)[x] == (carried + took)[x];
    }
  }

  lemma PublishKeepsOthers(s: Sys, n: nat, u: Ua, took: bool, reports: seq<Report>, m: nat)
    requires n < |s.agents| == |s.startChan| && m < |s.agents| && m != n && (took ==> s.startChan[n] != [])
    requires CallIndexes(reports, m) == multiset{}
    ensures Held(Publish(s, n, u, took, reports), m) == Held(s, m)
  {
    CallIndexesConcat(s.callEnd, reports, m);
  }

  lemma PublishKeepsOwn(s: Sys, n: nat, u: Ua, took: bool, reports: seq<Report>, s': Sys)
    requires n < |s.agents| == |s.startChan| && (took ==> |s.startChan[n]| == 1)
    requires s' == Publish(s, n, u, took, reports)
    requires Carried(u) + CallIndexes(reports, n)
          == Carried(s.agents[n]) + (if took then multiset(s.startChan[n]) else multiset{})
    ensures Held(s', n) == Held(s, n)
  {
    var taken := if took then multiset(s.startChan[n]) else multiset{};
    var queued := if took then multiset{} else multiset(s.startChan[n]);
    assert multiset(s'.startChan[n]) == queued by {
      assert took ==> s.startChan[n][1..] == [];
    }
    assert multiset(s.startChan[n]) == taken + queued;
    CallIndexesConcat(s.callEnd, reports, n);
    MovesWithin(taken, queued, Carried(s.agents[n]), Carried(u), CallIndexes(reports, n),
                CallIndexes(s.callEnd, n), CallIndexes(InHand(s.pc), n));
  }

  lemma PublishKeepsHeld(s: Sys, n: nat, u: Ua, took: bool, reports: seq<Report>, m: nat)
    requires n < |s.agents| == |s.startChan| && m < |s.agents| && (took ==> |s.startChan[n]| == 1)
    requires forall i :: 0 <= i < |reports| ==> reports[i].accountIndex == n
    requires Carried(u) + CallIndexes(reports, n)
          == Carried(s.agents[n]) + (if took then multiset(s.startChan[n]) else multiset{})
    ensures Held(Publish(s, n, u, took, reports), m) == Held(s, m)
  {
    if m == n {
      PublishKeepsOwn(s, n, u, took, reports, Publish(s, n, u, took, reports));
    } else {
      NoIndexesOfOthers(reports, m);
      PublishKeepsOthers(s, n, u, took, reports, m);
    }
  }

  lemma PublishKeepsQueues(cfg: Setup, s: Sys, n: nat, u: Ua, took: bool, reports: seq<Report>)
    requires Queues(cfg, s) && n < cfg.slots && (took ==> s.startChan[n] != [])
    requires forall i :: 0 <= i < |reports| ==> reports[i].accountIndex == n
    ensures Queues(cfg, Publish(s, n, u, took, reports))
  {
  }

  lemma UpdateKeepsAgents(cfg: Setup, agents: seq<Ua>, n: nat, u: Ua)
    requires Agents(cfg, agents) && n < |agents| && UA.Inv(AgentConfig(cfg, n), u) && Snapshot(u)
    ensures Agents(cfg, agents[n := u])
  {
  }

  lemma AgentKeepsHeld(cfg: Setup, s: Sys, n: nat, e: Event)
    requires SysInv(cfg, s) && AgentEnabled(cfg, s, n, e)
    ensures var s' := AgentMoves(cfg, s, n, e);
            |s'.agents| == |s'.startChan| == cfg.slots
            && forall m :: 0 <= m < cfg.slots ==> Held(s', m) == Held(s, m)
  {
    var acfg, u := AgentConfig(cfg, n), s.agents[n];
    var u', reports := UA.Apply(acfg, u, e), UA.Reports(acfg, u, e);
    CarriesAlone(cfg, s, n);
    StepReportsOwnAccount(acfg, u, e);
    StepMovesCarried(acfg, u, e);
    assert e.StartCall? ==> s.startChan[n] == [e.callIndex];
    forall m | 0 <= m < cfg.slots
      ensures Held(Publish(s, n, u', e.StartCall?, reports), m) == Held(s, m)
    {
      PublishKeepsHeld(s, n, u', e.StartCall?, reports, m);
    }
  }

  /** Steps of agents move calls between places but never between accounts. */
  lemma AgentKeepsInv(cfg: Setup, s: Sys, n: nat, e: Event)
    requires SysInv(cfg, s) && AgentEnabled(cfg, s, n, e)
    ensures SysInv(cfg, AgentMoves(cfg, s, n, e))
  {
    var acfg, u := AgentConfig(cfg, n), s.agents[n];
    CarriesAlone(cfg, s, n);
    UA.StepKeepsInv(acfg, u, e);
    StepReportsOwnAccount(acfg, u, e);
    StepMovesCarried(acfg, u, e);
    UpdateKeepsAgents(cfg, s.agents, n, UA.Apply(acfg, u, e));
    PublishKeepsQueues(cfg, s, n, UA.Apply(acfg, u, e), e.StartCall?, UA.Reports(acfg, u, e));
    AgentKeepsHeld(cfg, s, n, e);
    forall m | 0 <= m < cfg.slots
      ensures Token(AgentMoves(cfg, s, n, e), m)
    {
      assert Token(s, m);
    }
  }

  lemma ReceiveKeepsHeld(s: Sys, s': Sys, m: nat)
    requires m < |s.agents| == |s.startChan| && InHand(s.pc) == [] && s.callEnd != []
    requires s'.agents == s.agents && s'.startChan == s.startChan
    requires InHand(s'.pc) == [s.callEnd[0]] && s'.callEnd == s.callEnd[1..]
    ensures Held(s', m) == Held(s, m)
  {
    HeadAndRest(s.callEnd, m);
  }

  lemma SameHeld(s: Sys, s': Sys, m: nat)
    requires m < |s.agents| == |s.startChan|
    requires s'.agents == s.agents && s'.startChan == s.startChan
    requires InHand(s'.pc) == InHand(s.pc) && s'.callEnd == s.callEnd
    ensures Held(s', m) == Held(s, m)
  {
  }

  // Letting go of the report in hand takes its call from its account and from no other.
  lemma ReleaseTakesOne(s: Sys, s': Sys, m: nat)
    requires m < |s.agents| == |s.startChan| && |InHand(s.pc)| == 1
    requires s'.agents == s.agents && s'.startChan == s.startChan
    requires InHand(s'.pc) == [] && s'.callEnd == s.callEnd
    ensures var cr := s.pc.cr;
            Held(s, m) == Held(s', m) + (if m == cr.accountIndex then multiset{cr.callIndex} else multiset{})
  {
    var cr := s.pc.cr;
    assert InHand(s.pc) == [cr];
    if m == cr.accountIndex {
      OneIndex(cr);
    } else {
      NoIndexesOfOthers([cr], m);
    }
    assert CallIndexes([], m) == multiset{};
  }

  /** A received report always belongs to a slot in a call: the branch of main.go:166 is never taken. */
  lemma ReportFindsSlotBusy(cfg: Setup, s: Sys)
    requires Queues(cfg, s) && Tokens(s) && s.pc.Draining?
    ensures s.pc.cr.accountIndex < cfg.slots && s.d.inCall[s.pc.cr.accountIndex]
    ensures Held(s, s.pc.cr.accountIndex) == multiset{s.pc.cr.callIndex}
  {
    var a := s.pc.cr.accountIndex;
    ReleaseTakesOne(s, s.(pc := Checking), a);
    assert Token(s, a);
    assert |Held(s, a)| == 1 && |Held(s.(pc := Checking), a)| == 0;
  }

  // What a turn does to the calls each account holds.
  function HeldAfter(s: Sys, t: Turn, m: nat): multiset<int>
    requires m < |s.agents| == |s.startChan| && (t.AccountReport? ==> s.pc.Draining?)
  {
    match t
    case AccountReport => if m == s.pc.cr.accountIndex then multiset{} else Held(s, m)
    case StartCallOn(k) => if m == k then multiset{s.d.started + 1} else Held(s, m)
    case _ => Held(s, m)
  }

  lemma AccountMovesHeld(cfg: Setup, s: Sys, m: nat)
    requires Queues(cfg, s) && Tokens(s) && TurnEnabled(s, AccountReport) && m < cfg.slots
    ensures Held(TurnMoves(cfg, s, AccountReport), m) == HeldAfter(s, AccountReport, m)
  {
    var s' := TurnMoves(cfg, s, AccountReport);
    var let := s.(pc := Checking);
    ReportFindsSlotBusy(cfg, s);
    ReleaseTakesOne(s, let, m);
    if s.pc.left > 0 {
      ReceiveKeepsHeld(let, s', m);
    } else {
      SameHeld(let, s', m);
    }
    assert Held(s', m) == Held(let, m);
  }

  lemma QueueMovesHeld(s: Sys, s': Sys, k: nat, c: int, m: nat)
    requires k < |s.agents| == |s.startChan| && m < |s.agents| && Held(s, k) == multiset{}
    requires s'.agents == s.agents && s'.startChan == s.startChan[k := [c]]
    requires InHand(s'.pc) == InHand(s.pc) && s'.callEnd == s.callEnd
    ensures Held(s', m) == if m == k then multiset{c} else Held(s, m)
  {
    if m == k {
      var others := Carried(s.agents[k]) + CallIndexes(s.callEnd, k) + CallIndexes(InHand(s.pc), k);
      assert Held(s, k) == multiset(s.startChan[k]) + others;
      assert Held(s', k) == multiset{c} + others;
    }
  }

  lemma StartMovesHeld(cfg: Setup, s: Sys, k: nat, m: nat)
    requires Queues(cfg, s) && Tokens(s) && TurnEnabled(s, StartCallOn(k)) && m < cfg.slots
    ensures Held(TurnMoves(cfg, s, StartCallOn(k)), m) == HeldAfter(s, StartCallOn(k), m)
  {
    assert Token(s, k);
    assert s.startChan[k] == [] && s.startChan[k] + [s.d.started + 1] == [s.d.started + 1];
    QueueMovesHeld(s, TurnMoves(cfg, s, StartCallOn(k)), k, s.d.started + 1, m);
  }

  lemma TurnMovesHeld(cfg: Setup, s: Sys, t: Turn, m: nat)
    requires Queues(cfg, s) && Tokens(s) && TurnEnabled(s, t) && m < cfg.slots
    ensures var s' := TurnMoves(cfg, s, t);
            m < |s'.agents| == |s'.startChan| && Held(s', m) == HeldAfter(s, t, m)
  {
    match t
    case AccountReport => AccountMovesHeld(cfg, s, m);
    case StartCallOn(k) => StartMovesHeld(cfg, s, k, m);
    case SelectReport => ReceiveKeepsHeld(s, TurnMoves(cfg, s, t), m);
    case _ => SameHeld(s, TurnMoves(cfg, s, t), m);
  }

  lemma TurnKeepsQueues(cfg: Setup, s: Sys, t: Turn)
    requires Queues(cfg, s) && TurnEnabled(s, t)
    ensures Queues(cfg, TurnMoves(cfg, s, t))
  {
  }

  function FlagAfter(s: Sys, t: Turn, m: nat): bool
    requires m < |s.d.inCall| && (t.AccountReport? ==> s.pc.Draining?)
  {
    if t.AccountReport? && m == s.pc.cr.accountIndex then false
    else if t.StartCallOn? && m == t.slot then true
    else s.d.inCall[m]
  }

  lemma TurnMovesFlag(cfg: Setup, s: Sys, t: Turn, m: nat)
    requires TurnEnabled(s, t) && m < |s.d.inCall|
    ensures var flags := TurnMoves(cfg, s, t).d.inCall;
            |flags| == |s.d.inCall| && flags[m] == FlagAfter(s, t, m)
  {
  }

  lemma FlagMatchesHeld(cfg: Setup, s: Sys, t: Turn, m: nat)
    requires Queues(cfg, s) && Tokens(s) && TurnEnabled(s, t) && m < cfg.slots
    ensures |HeldAfter(s, t, m)| == if FlagAfter(s, t, m) then 1 else 0
  {
    assert Token(s, m);
  }

  lemma TurnKeepsToken(cfg: Setup, s: Sys, s': Sys, t: Turn, m: nat)
    requires Queues(cfg, s) && Tokens(s) && TurnEnabled(s, t) && m < cfg.slots
    requires s' == TurnMoves(cfg, s, t) && Queues(cfg, s')
    ensures Token(s', m)
  {
    TurnMovesHeld(cfg, s, t, m);
    TurnMovesFlag(cfg, s, t, m);
    FlagMatchesHeld(cfg, s, t, m);
  }

  lemma TurnKeepsTokens(cfg: Setup, s: Sys, t: Turn)
    requires Queues(cfg, s) && Tokens(s) && TurnEnabled(s, t)
    ensures Queues(cfg, TurnMoves(cfg, s, t)) && Tokens(TurnMoves(cfg, s, t))
  {
    TurnKeepsQueues(cfg, s, t);
    forall m | 0 <= m < cfg.slots
      ensures Token(TurnMoves(cfg, s, t), m)
    {
      TurnKeepsToken(cfg, s, TurnMoves(cfg, s, t), t, m);
    }
  }

  lemma TurnKeepsSchedule(cfg: Setup, s: Sys, t: Turn)
    requires Schedule(cfg, s) && TurnEnabled(s, t)
    ensures Schedule(cfg, TurnMoves(cfg, s, t))
  {
    match t
    case AccountReport => AccountKeepsInv(s.d, cfg.totalCalls, s.pc.cr);
    case StartCallOn(k) => StartKeepsInv(s.d, cfg.totalCalls, k);
    case _ =>
  }

  lemma TurnKeepsSysInv(cfg: Setup, s: Sys, t: Turn)
    requires SysInv(cfg, s) && TurnEnabled(s, t)
    ensures SysInv(cfg, TurnMoves(cfg, s, t))
  {
    TurnKeepsTokens(cfg, s, t);
    TurnKeepsSchedule(cfg, s, t);
    assert TurnMoves(cfg, s, t).agents == s.agents;
  }

  /** Every step of dispatcher, agents, library and timers keeps the invariant. */
  lemma StepKeepsSysInv(cfg: Setup, s: Sys, l: Label)
    requires SysInv(cfg, s) && Enabled(cfg, s, l)
    ensures SysInv(cfg, Next(cfg, s, l))
  {
    match l
    case Agent(n, e) => AgentKeepsInv(cfg, s, n, e);
    case Dispatcher(t) => TurnKeepsSysInv(cfg, s, t);
    case Signal =>
      forall m | 0 <= m < cfg.slots
        ensures Token(Next(cfg, s, l), m)
      {
        SameHeld(s, Next(cfg, s, l), m);
        assert Token(s, m);
      }
  }
}
