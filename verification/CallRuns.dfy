/** What holds on every run of the calling side. */
module CallRuns {
  import opened Wrappers
  import opened Scheduler
  import UA = UserAgent
  import opened UserAgent
  import opened CallSlots

  ghost predicate IsRun(cfg: Setup, s: Sys, labels: seq<Label>)
    decreases |labels|
  {
    labels == [] || (CallSlots.Enabled(cfg, s, labels[0]) && IsRun(cfg, Next(cfg, s, labels[0]), labels[1..]))
  }

  ghost function After(cfg: Setup, s: Sys, labels: seq<Label>): Sys
    requires IsRun(cfg, s, labels)
    decreases |labels|
  {
    if labels == [] then s else After(cfg, Next(cfg, s, labels[0]), labels[1..])
  }

  /* ---------- every call index is in one place ---------- */

  function Sum(held: seq<multiset<int>>): multiset<int> {
    if held == [] then multiset{} else held[0] + Sum(held[1..])
  }

  lemma {:induction false} SumUpdate(held: seq<multiset<int>>, i: nat, h: multiset<int>)
    requires i < |held|
    ensures Sum(held[i := h]) + held[i] == Sum(held) + h
  {
    if i == 0 {
      assert held[0 := h][1..] == held[1..];
    } else {
      var rest := held[1..];
      assert held[i := h][1..] == rest[i - 1 := h];
      SumUpdate(rest, i - 1, h);
      assert held[0] + Sum(rest[i - 1 := h]) + held[i] == held[0] + (Sum(rest[i - 1 := h]) + rest[i - 1]);
    }
  }

  lemma {:induction false} SumOfNothing(held: seq<multiset<int>>)
    requires forall i :: 0 <= i < |held| ==> held[i] == multiset{}
    ensures Sum(held) == multiset{}
  {
    if held != [] {
      SumOfNothing(held[1..]);
    }
  }

  function HeldByAll(s: Sys): (held: seq<multiset<int>>)
    requires |s.agents| == |s.startChan|
    ensures |held| == |s.agents| && forall n :: 0 <= n < |held| ==> held[n] == Held(s, n)
  {
    seq(|s.agents|, n requires 0 <= n < |s.agents| => Held(s, n))
  }

  /** The indexes of the reports written, in any order. */
  function Completed(details: seq<Report>): multiset<int> {
    if details == [] then multiset{}
    else Completed(details[..|details| - 1]) + multiset{details[|details| - 1].callIndex}
  }

  function UpTo(n: int): multiset<int>
    decreases if n < 0 then 0 else n
  {
    if n <= 0 then multiset{} else UpTo(n - 1) + multiset{n}
  }

  lemma {:induction false} UpToCounts(n: int, c: int)
    ensures UpTo(n)[c] == if 1 <= c <= n then 1 else 0
    decreases if n < 0 then 0 else n
  {
    if n > 0 {
      UpToCounts(n - 1, c);
    }
  }

  ghost predicate Accounted(s: Sys)
    requires |s.agents| == |s.startChan|
  {
    Sum(HeldByAll(s)) + Completed(s.d.details) == UpTo(s.d.started)
  }

  lemma InitAccounted(cfg: Setup)
    requires cfg.slots > 0
    ensures Accounted(InitSys(cfg))
  {
    SumOfNothing(HeldByAll(InitSys(cfg)));
  }

  lemma AccountingMoves(held: seq<multiset<int>>, held': seq<multiset<int>>, i: nat, h: multiset<int>,
                        done: multiset<int>, all: multiset<int>)
    requires i < |held| && held' == held[i := h] && Sum(held) + done == all
    ensures h == multiset{} ==> Sum(held') + (done + held[i]) == all
    ensures held[i] == multiset{} ==> Sum(held') + done == all + h
  {
    SumUpdate(held, i, h);
    forall x
      ensures h == multiset{} ==> (Sum(held') + (done + held[i]))[x] == all[x]
      ensures held[i] == multiset{} ==> (Sum(held') + done)[x] == (all + h)[x]
    {
      assert (Sum(held') + held[i])[x] == (Sum(held) + h)[x];
      assert (Sum(held) + done)[x] == all[x];
    }
  }

  lemma HeldUpdate(s: Sys, s': Sys, i: nat, h: multiset<int>)
    requires |s.agents| == |s.startChan| == |s'.agents| == |s'.startChan| && i < |s.agents|
    requires forall m :: 0 <= m < |s.agents| ==> Held(s', m) == if m == i then h else Held(s, m)
    ensures HeldByAll(s') == HeldByAll(s)[i := h]
  {
  }

  lemma HeldSame(s: Sys, s': Sys)
    requires |s.agents| == |s.startChan| == |s'.agents| == |s'.startChan|
    requires forall m :: 0 <= m < |s.agents| ==> Held(s', m) == Held(s, m)
    ensures HeldByAll(s') == HeldByAll(s)
  {
  }

  lemma TurnMovesEach(cfg: Setup, s: Sys, t: Turn, s': Sys)
    requires Queues(cfg, s) && Tokens(s) && TurnEnabled(s, t) && s' == TurnMoves(cfg, s, t)
    ensures |s'.agents| == |s'.startChan| == cfg.slots == |s.agents|
    ensures forall m :: 0 <= m < cfg.slots ==> Held(s', m) == HeldAfter(s, t, m)
  {
    TurnKeepsQueues(cfg, s, t);
    forall m | 0 <= m < cfg.slots
      ensures Held(s', m) == HeldAfter(s, t, m)
    {
      TurnMovesHeld(cfg, s, t, m);
    }
  }

  lemma ReportMovesAll(cfg: Setup, s: Sys, s': Sys)
    requires Queues(cfg, s) && Tokens(s) && TurnEnabled(s, AccountReport) && s' == TurnMoves(cfg, s, AccountReport)
    ensures |s'.agents| == |s'.startChan| == cfg.slots && s.pc.cr.accountIndex < cfg.slots
    ensures HeldByAll(s') == HeldByAll(s)[s.pc.cr.accountIndex := multiset{}]
    ensures Held(s, s.pc.cr.accountIndex) == multiset{s.pc.cr.callIndex}
  {
    ReportFindsSlotBusy(cfg, s);
    TurnMovesEach(cfg, s, AccountReport, s');
    HeldUpdate(s, s', s.pc.cr.accountIndex, multiset{});
  }

  lemma StartMovesAll(cfg: Setup, s: Sys, k: nat, s': Sys)
    requires Queues(cfg, s) && Tokens(s) && TurnEnabled(s, StartCallOn(k)) && s' == TurnMoves(cfg, s, StartCallOn(k))
    ensures |s'.agents| == |s'.startChan| == cfg.slots && k < cfg.slots
    ensures HeldByAll(s') == HeldByAll(s)[k := multiset{s.d.started + 1}]
    ensures Held(s, k) == multiset{}
  {
    assert Token(s, k);
    TurnMovesEach(cfg, s, StartCallOn(k), s');
    HeldUpdate(s, s', k, multiset{s.d.started + 1});
  }

  lemma ReportAccounts(cfg: Setup, s: Sys)
    requires TurnEnabled(s, AccountReport) && s.d.inCall[s.pc.cr.accountIndex]
    ensures var d' := TurnMoves(cfg, s, AccountReport).d;
            d'.started == s.d.started && Completed(d'.details) == Completed(s.d.details) + multiset{s.pc.cr.callIndex}
  {
    var d' := TurnMoves(cfg, s, AccountReport).d;
    assert d'.details[..|d'.details| - 1] == s.d.details;
  }

  lemma ReportKeepsAccounted(cfg: Setup, s: Sys, s': Sys)
    requires Queues(cfg, s) && Tokens(s) && TurnEnabled(s, AccountReport) && Accounted(s)
    requires s' == TurnMoves(cfg, s, AccountReport)
    ensures |s'.agents| == |s'.startChan| && Accounted(s')
  {
    ReportMovesAll(cfg, s, s');
    ReportFindsSlotBusy(cfg, s);
    ReportAccounts(cfg, s);
    AccountingMoves(HeldByAll(s), HeldByAll(s'), s.pc.cr.accountIndex, multiset{}, Completed(s.d.details),
                    UpTo(s.d.started));
  }

  lemma NextUpTo(n: int)
    requires n >= 0
    ensures UpTo(n + 1) == UpTo(n) + multiset{n + 1}
  {
  }

  lemma StartedIsNat(cfg: Setup, s: Sys)
    requires Schedule(cfg, s)
    ensures s.d.started >= 0
  {
  }

  lemma StartMovesSched(cfg: Setup, s: Sys, k: nat)
    requires TurnEnabled(s, StartCallOn(k))
    ensures var d' := TurnMoves(cfg, s, StartCallOn(k)).d;
            d'.started == s.d.started + 1 && d'.details == s.d.details
  {
  }

  lemma StartKeepsAccounted(cfg: Setup, s: Sys, s': Sys, k: nat)
    requires Queues(cfg, s) && Tokens(s) && Schedule(cfg, s) && TurnEnabled(s, StartCallOn(k)) && Accounted(s)
    requires s' == TurnMoves(cfg, s, StartCallOn(k))
    ensures |s'.agents| == |s'.startChan| && Accounted(s')
  {
    StartMovesAll(cfg, s, k, s');
    StartMovesSched(cfg, s, k);
    StartedIsNat(cfg, s);
    NextUpTo(s.d.started);
    AccountingMoves(HeldByAll(s), HeldByAll(s'), k, multiset{s.d.started + 1}, Completed(s.d.details),
                    UpTo(s.d.started));
  }

  lemma QuietTurnMovesNothing(cfg: Setup, s: Sys, s': Sys, t: Turn)
    requires Queues(cfg, s) && Tokens(s) && TurnEnabled(s, t) && s' == TurnMoves(cfg, s, t)
    requires !t.AccountReport? && !t.StartCallOn?
    ensures |s'.agents| == |s'.startChan| && HeldByAll(s') == HeldByAll(s)
  {
    TurnMovesEach(cfg, s, t, s');
    HeldSame(s, s');
  }

  lemma QuietTurnCountsNothing(cfg: Setup, s: Sys, t: Turn)
    requires TurnEnabled(s, t) && !t.AccountReport? && !t.StartCallOn?
    ensures TurnMoves(cfg, s, t).d == s.d
  {
  }

  lemma QuietTurnKeepsAccounted(cfg: Setup, s: Sys, s': Sys, t: Turn)
    requires Queues(cfg, s) && Tokens(s) && TurnEnabled(s, t) && Accounted(s) && s' == TurnMoves(cfg, s, t)
    requires !t.AccountReport? && !t.StartCallOn?
    ensures |s'.agents| == |s'.startChan| && Accounted(s')
  {
    QuietTurnMovesNothing(cfg, s, s', t);
    QuietTurnCountsNothing(cfg, s, t);
  }

  lemma TurnKeepsAccounted(cfg: Setup, s: Sys, t: Turn, s': Sys)
    requires SysInv(cfg, s) && TurnEnabled(s, t) && Accounted(s) && s' == TurnMoves(cfg, s, t)
    ensures |s'.agents| == |s'.startChan| && Accounted(s')
  {
    match t
    case AccountReport => ReportKeepsAccounted(cfg, s, s');
    case StartCallOn(k) => StartKeepsAccounted(cfg, s, s', k);
    case _ => QuietTurnKeepsAccounted(cfg, s, s', t);
  }

  lemma StepKeepsAccounted(cfg: Setup, s: Sys, l: Label)
    requires SysInv(cfg, s) && CallSlots.Enabled(cfg, s, l) && Accounted(s)
    ensures SysInv(cfg, Next(cfg, s, l)) && Accounted(Next(cfg, s, l))
  {
    StepKeepsSysInv(cfg, s, l);
    match l
    case Dispatcher(t) => TurnKeepsAccounted(cfg, s, t, Next(cfg, s, l));
    case Agent(n, e) =>
      AgentKeepsHeld(cfg, s, n, e);
      HeldSame(s, Next(cfg, s, l));
    case Signal =>
      forall m | 0 <= m < cfg.slots
        ensures Held(Next(cfg, s, l), m) == Held(s, m)
      {
        SameHeld(s, Next(cfg, s, l), m);
      }
      HeldSame(s, Next(cfg, s, l));
  }

  lemma {:induction false} RunKeepsSysInv(cfg: Setup, s: Sys, labels: seq<Label>)
    requires SysInv(cfg, s) && Accounted(s) && IsRun(cfg, s, labels)
    ensures SysInv(cfg, After(cfg, s, labels)) && Accounted(After(cfg, s, labels))
    decreases |labels|
  {
    if labels != [] {
      StepKeepsAccounted(cfg, s, labels[0]);
      RunKeepsSysInv(cfg, Next(cfg, s, labels[0]), labels[1..]);
    }
  }

  lemma Reachable(cfg: Setup, labels: seq<Label>) returns (s: Sys)
    requires cfg.slots > 0 && IsRun(cfg, InitSys(cfg), labels)
    ensures s == After(cfg, InitSys(cfg), labels) && SysInv(cfg, s) && Accounted(s)
  {
    InitSysInv(cfg);
    InitAccounted(cfg);
    RunKeepsSysInv(cfg, InitSys(cfg), labels);
    s := After(cfg, InitSys(cfg), labels);
  }

  /* ---------- the theorems ---------- */

  /** Token conservation: in every reachable state, also after cancellation, a busy slot's call is in
      exactly one place and an idle slot has none. */
  lemma TokenConservation(cfg: Setup, labels: seq<Label>)
    requires cfg.slots > 0 && IsRun(cfg, InitSys(cfg), labels)
    ensures var s := After(cfg, InitSys(cfg), labels);
            && |s.agents| == |s.startChan| == |s.d.inCall| == cfg.slots
            && forall n :: 0 <= n < cfg.slots ==> |Held(s, n)| == if s.d.inCall[n] then 1 else 0
  {
    var s := Reachable(cfg, labels);
    forall n | 0 <= n < cfg.slots
      ensures |Held(s, n)| == if s.d.inCall[n] then 1 else 0
    {
      assert Token(s, n);
    }
  }

  /** Exactly-once accounting: every started index is held by one account or written once, and no
      other index is held or written. */
  lemma ExactlyOnce(cfg: Setup, labels: seq<Label>, c: int)
    requires cfg.slots > 0 && IsRun(cfg, InitSys(cfg), labels)
    ensures var s := After(cfg, InitSys(cfg), labels);
            && |s.agents| == |s.startChan|
            && Sum(HeldByAll(s))[c] + Completed(s.d.details)[c] == if 1 <= c <= s.d.started then 1 else 0
  {
    var s := Reachable(cfg, labels);
    UpToCounts(s.d.started, c);
    assert (Sum(HeldByAll(s)) + Completed(s.d.details))[c] == UpTo(s.d.started)[c];
  }

  lemma {:induction false} CompletedCounts(details: seq<Report>, i: nat, j: nat)
    requires i < j < |details| && details[i].callIndex == details[j].callIndex
    ensures Completed(details)[details[i].callIndex] >= 2
  {
    var rest := details[..|details| - 1];
    if j < |rest| {
      CompletedCounts(rest, i, j);
    } else {
      CompletedHas(rest, i);
    }
  }

  lemma {:induction false} CompletedHas(details: seq<Report>, i: nat)
    requires i < |details|
    ensures Completed(details)[details[i].callIndex] >= 1
  {
    if i < |details| - 1 {
      CompletedHas(details[..|details| - 1], i);
    }
  }

  /** No call is written twice, and none that was not started. */
  lemma DetailsAreDistinctStartedCalls(cfg: Setup, labels: seq<Label>)
    requires cfg.slots > 0 && IsRun(cfg, InitSys(cfg), labels)
    ensures var s := After(cfg, InitSys(cfg), labels);
            && (forall i :: 0 <= i < |s.d.details| ==> 1 <= s.d.details[i].callIndex <= s.d.started)
            && (forall i, j :: 0 <= i < j < |s.d.details| ==> s.d.details[i].callIndex != s.d.details[j].callIndex)
  {
    var s := Reachable(cfg, labels);
    var details := s.d.details;
    forall i | 0 <= i < |details|
      ensures 1 <= details[i].callIndex <= s.d.started
    {
      ExactlyOnce(cfg, labels, details[i].callIndex);
      CompletedHas(details, i);
    }
    forall i, j | 0 <= i < j < |details|
      ensures details[i].callIndex != details[j].callIndex
    {
      ExactlyOnce(cfg, labels, details[i].callIndex);
      if details[i].callIndex == details[j].callIndex {
        CompletedCounts(details, i, j);
      }
    }
  }

  /** Neither branch the code calls impossible is ever taken, whatever the SIP library does. */
  lemma NeverBranchesUnreachable(cfg: Setup, labels: seq<Label>, next: Label)
    requires cfg.slots > 0 && IsRun(cfg, InitSys(cfg), labels)
    requires CallSlots.Enabled(cfg, After(cfg, InitSys(cfg), labels), next)
    ensures var s := After(cfg, InitSys(cfg), labels);
            && (next.Agent? && next.e.StartCall? ==>
                  s.agents[next.n].currentSession.None? && !s.agents[next.n].mediaCtx && !s.agents[next.n].mediaCancel)
            && (next == Dispatcher(AccountReport) ==> s.d.inCall[s.pc.cr.accountIndex])
  {
    var s := Reachable(cfg, labels);
    if next.Agent? && next.e.StartCall? {
      StartFindsAgentFree(cfg, s, next.n);
    } else if next == Dispatcher(AccountReport) {
      ReportFindsSlotBusy(cfg, s);
    }
  }

  /** The delayed report carries the index, account and Call-ID the call had when it ended. */
  lemma DelayedReportIsSafe(cfg: Setup, labels: seq<Label>, n: nat)
    requires cfg.slots > 0 && IsRun(cfg, InitSys(cfg), labels)
    requires CallSlots.Enabled(cfg, After(cfg, InitSys(cfg), labels), Agent(n, ReporterSends))
    ensures var s := After(cfg, InitSys(cfg), labels);
            var s' := Next(cfg, s, Agent(n, ReporterSends));
            && |s.agents[n].reporters| == 1
            && |s'.callEnd| == |s.callEnd| + 1
            && SameCall(s'.callEnd[|s.callEnd|], s.agents[n].reporters[0].snapshot)
            && s'.callEnd[|s.callEnd|].accountIndex == n
  {
    var s := Reachable(cfg, labels);
    CarriesAlone(cfg, s, n);
    assert UA.Reports(AgentConfig(cfg, n), s.agents[n], ReporterSends) == [s.agents[n].cr];
    assert UA.Inv(AgentConfig(cfg, n), s.agents[n]);
  }

  /** Its result is not covered: a state callback that comes while the reporter waits rewrites it,
      and only that does. */
  lemma WaitingReportChangesExactlyByLateCallback(cfg: Setup, labels: seq<Label>, n: nat, e: Event)
    requires cfg.slots > 0 && IsRun(cfg, InitSys(cfg), labels)
    requires CallSlots.Enabled(cfg, After(cfg, InitSys(cfg), labels), Agent(n, e))
    requires After(cfg, InitSys(cfg), labels).agents[n].reporters != []
    ensures var u := After(cfg, InitSys(cfg), labels).agents[n];
            var u' := UA.Apply(AgentConfig(cfg, n), u, e);
            u'.cr != u.cr <==> e.SipState? && u.cr.result != if e.failed then Failed else Successful
  {
    var s := Reachable(cfg, labels);
    CarriesAlone(cfg, s, n);
    assert UA.Inv(AgentConfig(cfg, n), s.agents[n]);
  }

  /* ---------- nobody blocks ---------- */

  function QueuedByAll(q: seq<Report>, slots: nat): (held: seq<multiset<int>>)
    ensures |held| == slots && forall n :: 0 <= n < slots ==> held[n] == CallIndexes(q, n)
  {
    seq(slots, n requires 0 <= n < slots => CallIndexes(q, n))
  }

  lemma {:induction false} QueueLength(q: seq<Report>, slots: nat)
    requires forall i :: 0 <= i < |q| ==> q[i].accountIndex < slots
    ensures |Sum(QueuedByAll(q, slots))| == |q|
  {
    if q == [] {
      SumOfNothing(QueuedByAll(q, slots));
    } else {
      var rest, last := q[..|q| - 1], q[|q| - 1];
      var a := last.accountIndex;
      QueueLength(rest, slots);
      var held, held' := QueuedByAll(rest, slots), QueuedByAll(q, slots);
      forall n | 0 <= n < slots
        ensures held'[n] == if n == a then held[n] + multiset{last.callIndex} else held[n]
      {
      }
      assert held' == held[a := held[a] + multiset{last.callIndex}];
      SumUpdate(held, a, held[a] + multiset{last.callIndex});
      assert |Sum(held') + held[a]| == |Sum(held) + (held[a] + multiset{last.callIndex})|;
    }
  }

  lemma {:induction false} SumBelow(held: seq<multiset<int>>, busy: seq<bool>)
    requires |held| == |busy| && forall n :: 0 <= n < |held| ==> |held[n]| <= if busy[n] then 1 else 0
    ensures |Sum(held)| <= Count(busy, true)
    ensures (exists n :: 0 <= n < |held| && busy[n] && |held[n]| == 0) ==> |Sum(held)| < Count(busy, true)
  {
    if held != [] {
      SumBelow(held[1..], busy[1..]);
      if n :| 0 <= n < |held| && busy[n] && |held[n]| == 0 {
        if n > 0 {
          assert held[1..][n - 1] == held[n] && busy[1..][n - 1];
        }
      }
    }
  }

  lemma {:induction false} CountAtMost(flags: seq<bool>)
    ensures Count(flags, true) <= |flags|
  {
    if flags != [] {
      CountAtMost(flags[1..]);
    }
  }

  lemma ReportHasRoom(cfg: Setup, s: Sys, n: nat)
    requires SysInv(cfg, s) && n < cfg.slots && s.agents[n].reporters != []
    ensures |s.callEnd| < cfg.slots
  {
    var queued := QueuedByAll(s.callEnd, cfg.slots);
    QueueLength(s.callEnd, cfg.slots);
    forall m | 0 <= m < cfg.slots
      ensures |queued[m]| <= if s.d.inCall[m] then 1 else 0
      ensures m == n ==> s.d.inCall[m] && |queued[m]| == 0
    {
      assert Token(s, m);
      PendingSize(s.agents[m].reporters);
    }
    SumBelow(queued, s.d.inCall);
    assert s.d.inCall[n] && |queued[n]| == 0;
    CountAtMost(s.d.inCall);
  }

  /** The dispatcher never blocks: when it starts a call it finds an idle slot and room in that
      slot's channel, and its drain finds the reports it has promised to take. */
  lemma DispatcherNeverBlocks(cfg: Setup, labels: seq<Label>)
    requires cfg.slots > 0 && IsRun(cfg, InitSys(cfg), labels)
    ensures var s := After(cfg, InitSys(cfg), labels);
            && (s.pc.Picking? ==> exists k :: TurnEnabled(s, StartCallOn(k)))
            && (s.pc.Draining? ==> TurnEnabled(s, AccountReport))
  {
    var s := Reachable(cfg, labels);
    if s.pc.Picking? {
      var k := SearchFinds(s.d, cfg.totalCalls);
      assert Token(s, k);
      assert TurnEnabled(s, StartCallOn(k));
    }
    if s.pc.Draining? {
      ReportFindsSlotBusy(cfg, s);
    }
  }

  lemma ReporterEnabled(cfg: Setup, s: Sys, n: nat)
    requires n < |s.agents| == |s.startChan| && s.agents[n].reporters != [] && |s.callEnd| < cfg.slots
    ensures CallSlots.Enabled(cfg, s, Agent(n, if s.agents[n].reporters[0].woke then ReporterSends else ReporterWakes))
  {
  }

  /** A waiting reporter always finds room in callEndChan, also when nobody drains it any more. */
  lemma ReporterNeverBlocks(cfg: Setup, labels: seq<Label>, n: nat)
    requires cfg.slots > 0 && IsRun(cfg, InitSys(cfg), labels) && n < cfg.slots
    ensures var s := After(cfg, InitSys(cfg), labels);
            && n < |s.agents|
            && (s.agents[n].reporters != [] ==>
                  CallSlots.Enabled(cfg, s, Agent(n, if s.agents[n].reporters[0].woke then ReporterSends else ReporterWakes)))
  {
    var s := Reachable(cfg, labels);
    if s.agents[n].reporters != [] {
      ReportHasRoom(cfg, s, n);
      ReporterEnabled(cfg, s, n);
    }
  }

  /** A media run of a calling agent always finds room for its offer and for its end notification. */
  lemma MediaNeverBlocks(cfg: Setup, labels: seq<Label>, n: nat, run: nat)
    requires cfg.slots > 0 && IsRun(cfg, InitSys(cfg), labels) && n < cfg.slots
    requires n < |After(cfg, InitSys(cfg), labels).agents| && run in After(cfg, InitSys(cfg), labels).agents[n].runs
    ensures var s := After(cfg, InitSys(cfg), labels);
            CallSlots.Enabled(cfg, s, Agent(n, if s.agents[n].runs[run].Sending? then RunSends(run) else RunEnds(run)))
  {
    var s := Reachable(cfg, labels);
    assert UA.Inv(AgentConfig(cfg, n), s.agents[n]);
    RunEnabled(AgentConfig(cfg, n), s.agents[n], run);
  }

  lemma RunEnabled(acfg: Config, u: Ua, run: nat)
    requires acfg.role.Uac? && UA.Inv(acfg, u) && run in u.runs
    ensures UA.Enabled(acfg, u, if u.runs[run].Sending? then RunSends(run) else RunEnds(run))
  {
  }

  /* ---------- counters and fairness ---------- */

  /** The scheduler's counters say what they are named after, on every run. */
  lemma CountersAreRight(cfg: Setup, labels: seq<Label>)
    requires cfg.slots > 0 && IsRun(cfg, InitSys(cfg), labels)
    ensures var d := After(cfg, InitSys(cfg), labels).d;
            && d.idleUac == Count(d.inCall, false)
            && d.started - d.completed == Count(d.inCall, true)
            && d.ok + d.bad + d.unknown == d.completed == |d.details| <= d.started
            && d.ok == WithResult(d.details, Successful)
            && d.bad == WithResult(d.details, Failed)
            && d.unknown == WithResult(d.details, Unknown)
            && (cfg.totalCalls > 0 ==> d.started <= cfg.totalCalls)
            && (Decide(d, cfg.totalCalls).AllCompleted? ==> d.completed == d.started == cfg.totalCalls)
  {
    var s := Reachable(cfg, labels);
    if Decide(s.d, cfg.totalCalls).AllCompleted? {
      AllCompletedMeansAll(s.d, cfg.totalCalls);
    }
  }

  /** Where the dispatcher goes from its check, on every run: out, cancelling the agents, exactly when
      all calls wanted are written; to a start exactly when one is wanted and a slot is idle; else to
      wait for reports. */
  lemma CheckLeadsExactly(cfg: Setup, labels: seq<Label>)
    requires cfg.slots > 0 && IsRun(cfg, InitSys(cfg), labels) && After(cfg, InitSys(cfg), labels).pc.Checking?
    ensures var s := After(cfg, InitSys(cfg), labels);
            CallSlots.Enabled(cfg, s, Dispatcher(Check)) &&
            var s' := Next(cfg, s, Dispatcher(Check));
            var wanted := cfg.totalCalls <= 0 || |s.d.details| < cfg.totalCalls;
            var startable := cfg.totalCalls <= 0 || s.d.started < cfg.totalCalls;
            && (s'.pc == Done <==> !wanted) && s'.cancelled == (s.cancelled || !wanted)
            && (s'.pc == Picking <==> startable && exists k :: 0 <= k < |s.d.inCall| && !s.d.inCall[k])
            && (s'.pc == Done || s'.pc == Picking || s'.pc == Selecting)
            && s'.d == s.d
  {
    var s := Reachable(cfg, labels);
    DecidesExactly(s.d, cfg.totalCalls);
  }

  ghost predicate IdleThroughout(cfg: Setup, s: Sys, labels: seq<Label>, m: nat)
    requires IsRun(cfg, s, labels)
    decreases |labels|
  {
    && m < |s.d.inCall| && !s.d.inCall[m]
    && (labels != [] ==> IdleThroughout(cfg, Next(cfg, s, labels[0]), labels[1..], m))
  }

  lemma StepBringsNearer(cfg: Setup, s: Sys, l: Label, m: nat)
    requires SysInv(cfg, s) && CallSlots.Enabled(cfg, s, l) && m < cfg.slots
    requires var s' := Next(cfg, s, l); SysInv(cfg, s') && !s.d.inCall[m] && !s'.d.inCall[m]
    ensures var s' := Next(cfg, s, l);
            s'.d.started + Dist(s'.d.cursor, m, cfg.slots) <= s.d.started + Dist(s.d.cursor, m, cfg.slots)
  {
    match l
    case Dispatcher(t) =>
      if t.StartCallOn? {
        PassedOverComesNearer(s.d, t.slot, m);
      }
    case _ =>
  }

  lemma {:induction false} IdleSlotComesNearer(cfg: Setup, s: Sys, labels: seq<Label>, m: nat)
    requires SysInv(cfg, s) && IsRun(cfg, s, labels) && IdleThroughout(cfg, s, labels, m)
    ensures var s' := After(cfg, s, labels);
            && SysInv(cfg, s')
            && s'.d.started + Dist(s'.d.cursor, m, cfg.slots) <= s.d.started + Dist(s.d.cursor, m, cfg.slots)
    decreases |labels|
  {
    if labels != [] {
      StepKeepsSysInv(cfg, s, labels[0]);
      StepBringsNearer(cfg, s, labels[0], m);
      IdleSlotComesNearer(cfg, Next(cfg, s, labels[0]), labels[1..], m);
    }
  }

  /** Fairness: while a slot stays idle fewer calls than there are slots can be started on others,
      however starts, reports and everything else interleave. */
  lemma IdleSlotIsChosenSoon(cfg: Setup, before: seq<Label>, labels: seq<Label>, m: nat)
    requires cfg.slots > 0 && IsRun(cfg, InitSys(cfg), before)
    requires var s := After(cfg, InitSys(cfg), before);
             IsRun(cfg, s, labels) && IdleThroughout(cfg, s, labels, m)
    ensures var s := After(cfg, InitSys(cfg), before);
            After(cfg, s, labels).d.started - s.d.started < cfg.slots
  {
    var s := Reachable(cfg, before);
    IdleSlotComesNearer(cfg, s, labels, m);
  }
}
