/** What an agent's reports say of its calls, and when its timer hangs up. */
module AgentReports {
  import opened Wrappers
  import opened UserAgent

  /* ---------- what a call's report says ---------- */

  /** A step that takes a new call. */
  predicate TakesCall(u: Ua, e: Event) {
    (e.StartCall? && u.currentSession.None? && !u.mediaCtx && !u.mediaCancel) || (e.Received? && u.currentSession.None?)
  }

  /** The report as the event tells it: a callback its result, an invitation its Call-ID. */
  function Told(role: Role, r: Report, e: Event): Report {
    match e
    case SipState(failed) => r.(result := if failed then Failed else Successful)
    case LocalSdp(invited) =>
      if role.Uac? && invited.Some? then r.(callId := invited.value.callId) else r
    case _ => r
  }

  function ToldByAll(role: Role, r: Report, events: seq<Event>): Report {
    if events == [] then r
    else Told(role, ToldByAll(role, r, events[..|events| - 1]), events[|events| - 1])
  }

  // What a new call starts with.
  function NewReport(cfg: Config, e: Event): Report
    requires e.StartCall? || e.Received?
  {
    Report(e.callIndex, cfg.account, if e.Received? then e.sess.callId else "", Unknown)
  }

  lemma CrIsTold(cfg: Config, u: Ua, e: Event)
    requires Enabled(cfg, u, e) && u.cr.accountIndex == cfg.account
    ensures Apply(cfg, u, e).cr == if TakesCall(u, e) then NewReport(cfg, e) else Told(cfg.role, u.cr, e)
  {
    if e.Terminated? || e.JoinDone? {
      EndKeepsCr(cfg, u, e);
    } else if !TakesCall(u, e) {
      if Turns(e) {
        TurnsTellNothing(cfg, u, e);
      } else {
        OthersTell(cfg, u, e);
      }
    }
  }

  lemma TurnsTellNothing(cfg: Config, u: Ua, e: Event)
    requires Enabled(cfg, u, e) && !TakesCall(u, e) && Turns(e) && !e.Terminated? && !e.JoinDone?
    ensures Apply(cfg, u, e).cr == u.cr
  {
  }

  lemma EndKeepsCr(cfg: Config, u: Ua, e: Event)
    requires Enabled(cfg, u, e) && (e.Terminated? || e.JoinDone?)
    ensures Apply(cfg, u, e).cr == u.cr
  {
    match e
    case Terminated(_) =>
    case JoinDone =>
  }

  lemma OthersTell(cfg: Config, u: Ua, e: Event)
    requires Enabled(cfg, u, e) && !Turns(e)
    ensures Apply(cfg, u, e).cr == Told(cfg.role, u.cr, e)
  {
  }

  /** No further call is taken along the run. */
  ghost predicate SameCallThroughout(cfg: Config, u: Ua, events: seq<Event>)
    requires IsRun(cfg, u, events)
    decreases |events|
  {
    events == [] || (!TakesCall(u, events[0]) && SameCallThroughout(cfg, Apply(cfg, u, events[0]), events[1..]))
  }

  lemma {:induction false} ToldFirst(role: Role, r: Report, events: seq<Event>)
    requires events != []
    ensures ToldByAll(role, r, events) == ToldByAll(role, Told(role, r, events[0]), events[1..])
  {
    var n := |events| - 1;
    if n > 0 {
      ToldFirst(role, r, events[..n]);
      assert events[..n][1..] == events[1..][..n - 1];
    } else {
      assert events[..0] == [] && events[1..] == [];
    }
  }

  /** Along a call its report is what the events tell. */
  lemma {:induction false} CrIsToldByAll(cfg: Config, u: Ua, events: seq<Event>)
    requires IsRun(cfg, u, events) && SameCallThroughout(cfg, u, events) && u.cr.accountIndex == cfg.account
    ensures After(cfg, u, events).cr == ToldByAll(cfg.role, u.cr, events)
    decreases |events|
  {
    if events != [] {
      CrIsTold(cfg, u, events[0]);
      CrIsToldByAll(cfg, Apply(cfg, u, events[0]), events[1..]);
      ToldFirst(cfg.role, u.cr, events);
    }
  }

  /** From the step that takes a call on, in either role: whatever the agent then reports of it has the
      index and the account of the call, and the Call-ID and result that the events told. */
  lemma ReportTellsTheCall(cfg: Config, before: seq<Event>, call: Event, events: seq<Event>)
    requires IsRun(cfg, Init(cfg), before) && Enabled(cfg, After(cfg, Init(cfg), before), call)
    requires TakesCall(After(cfg, Init(cfg), before), call)
    requires var u := Apply(cfg, After(cfg, Init(cfg), before), call);
             IsRun(cfg, u, events) && SameCallThroughout(cfg, u, events)
    ensures var u := Apply(cfg, After(cfg, Init(cfg), before), call);
            After(cfg, u, events).cr == ToldByAll(cfg.role, NewReport(cfg, call), events)
  {
    var u := After(cfg, Init(cfg), before);
    RunKeepsInv(cfg, Init(cfg), before);
    CrIsTold(cfg, u, call);
    CrIsToldByAll(cfg, Apply(cfg, u, call), events);
  }

  /** The agent's report of a session carries that session's Call-ID. */
  lemma CallIdIsOfSession(cfg: Config, events: seq<Event>)
    requires IsRun(cfg, Init(cfg), events)
    ensures var u := After(cfg, Init(cfg), events);
            u.currentSession.Some? ==> u.cr.callId == u.currentSession.value.callId
  {
    RunKeepsInv(cfg, Init(cfg), events);
  }

  lemma EndingKeepsCall(cfg: Config, u: Ua, e: Event)
    requires Inv(cfg, u) && Enabled(cfg, u, e) && u.phase == Joining(false)
    ensures SameCall(Apply(cfg, u, e).cr, u.cr)
    ensures e.JoinDone? || Apply(cfg, u, e).phase == Joining(false)
  {
  }

  lemma {:induction false} EndingKeepsCallThroughout(cfg: Config, u: Ua, events: seq<Event>)
    requires Inv(cfg, u) && IsRun(cfg, u, events) && u.phase == Joining(false) && JoinDone !in events
    ensures var u' := After(cfg, u, events);
            Inv(cfg, u') && u'.phase == Joining(false) && SameCall(u'.cr, u.cr)
    decreases |events|
  {
    if events != [] {
      EndingKeepsCall(cfg, u, events[0]);
      StepKeepsInv(cfg, u, events[0]);
      EndingKeepsCallThroughout(cfg, Apply(cfg, u, events[0]), events[1..]);
    }
  }

  // What the join of an ended call hands on: a caller's to a reporter, a callee's as a report.
  function HandedOn(cfg: Config, u: Ua): seq<Report>
    requires Enabled(cfg, u, JoinDone)
  {
    if cfg.role.Uas? then Reports(cfg, u, JoinDone)
    else
      var after := Apply(cfg, u, JoinDone).reporters;
      if |after| == |u.reporters| + 1 then [after[|u.reporters|].snapshot] else []
  }

  /** The termination of the current session, in either role: when its media run is joined, one report
      is handed on, with that session's Call-ID, the index of the call and the agent's account. */
  lemma TerminationIsReported(cfg: Config, before: seq<Event>, sess: Session, events: seq<Event>)
    requires IsRun(cfg, Init(cfg), before) && JoinDone !in events
    requires var u := After(cfg, Init(cfg), before);
             && u.currentSession == Some(sess) && Enabled(cfg, u, Terminated(sess))
             && var u' := Apply(cfg, u, Terminated(sess));
             IsRun(cfg, u', events) && Enabled(cfg, After(cfg, u', events), JoinDone)
    ensures var u := After(cfg, Init(cfg), before);
            var handed := HandedOn(cfg, After(cfg, Apply(cfg, u, Terminated(sess)), events));
            && |handed| == 1
            && handed[0].callId == sess.callId && handed[0].callIndex == u.cr.callIndex
            && handed[0].accountIndex == cfg.account
  {
    var u := After(cfg, Init(cfg), before);
    RunKeepsInv(cfg, Init(cfg), before);
    StepKeepsInv(cfg, u, Terminated(sess));
    assert Apply(cfg, u, Terminated(sess)).phase == Joining(false);
    EndingKeepsCallThroughout(cfg, Apply(cfg, u, Terminated(sess)), events);
  }

  /** A called agent reports exactly the calls it refuses, as failed, with the index and Call-ID they
      came with, and the ends of its own. */
  lemma CalleeReportsExactly(cfg: Config, events: seq<Event>, e: Event)
    requires cfg.role.Uas? && IsRun(cfg, Init(cfg), events) && Enabled(cfg, After(cfg, Init(cfg), events), e)
    ensures var u := After(cfg, Init(cfg), events);
            Reports(cfg, u, e) ==
              if e.Received? && u.currentSession.Some? && u.currentSession.value.callId != e.sess.callId
              then [Report(e.callIndex, cfg.account, e.sess.callId, Failed)]
              else if e == JoinDone && u.phase == Joining(false) then [u.cr]
              else []
  {
    RunKeepsInv(cfg, Init(cfg), events);
  }

  /* ---------- the duration timer ---------- */

  /** The timer is armed exactly by a confirmation with a duration set, and disarmed exactly when it
      fires or when a call has ended and its media run is joined. */
  lemma TimerChangesExactly(cfg: Config, events: seq<Event>, e: Event)
    requires IsRun(cfg, Init(cfg), events) && Enabled(cfg, After(cfg, Init(cfg), events), e)
    ensures var u := After(cfg, Init(cfg), events);
            var u' := Apply(cfg, u, e);
            && (!u.timerCtx && u'.timerCtx <==> !u.timerCtx && e.Confirmed? && cfg.hasDuration)
            && (u.timerCtx && !u'.timerCtx <==> u.timerCtx && (e.TimerFired? || (e.JoinDone? && u.phase == Joining(false))))
  {
    RunKeepsInv(cfg, Init(cfg), events);
  }

  /** hangupByMe is set exactly when the timer fires during a session, and cleared exactly when a
      reporter has waited. */
  lemma HangupChangesExactly(cfg: Config, events: seq<Event>, e: Event)
    requires IsRun(cfg, Init(cfg), events) && Enabled(cfg, After(cfg, Init(cfg), events), e)
    ensures var u := After(cfg, Init(cfg), events);
            Apply(cfg, u, e).hangupByMe
            <==> (e.TimerFired? && u.currentSession.Some?) || (u.hangupByMe && !e.ReporterWakes?)
  {
    RunKeepsInv(cfg, Init(cfg), events);
  }

  /** Nothing is hung up for its duration unless the timer has fired. */
  lemma {:induction false} HangupNeedsTimer(cfg: Config, u: Ua, events: seq<Event>)
    requires Inv(cfg, u) && IsRun(cfg, u, events) && TimerFired !in events
    ensures After(cfg, u, events).hangupByMe ==> u.hangupByMe
    decreases |events|
  {
    if events != [] {
      StepKeepsInv(cfg, u, events[0]);
      HangupNeedsTimer(cfg, Apply(cfg, u, events[0]), events[1..]);
    }
  }

  lemma HangupOnlyByTimer(cfg: Config, events: seq<Event>)
    requires IsRun(cfg, Init(cfg), events) && TimerFired !in events
    ensures !After(cfg, Init(cfg), events).hangupByMe
  {
    HangupNeedsTimer(cfg, Init(cfg), events);
  }
}
