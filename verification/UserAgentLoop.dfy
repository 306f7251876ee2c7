/** The variables of sip/ua.go's UA and the cases of its select loop as methods on them.  A handler
    that blocks on mediaFuncEndChan is cut there: it leaves the loop in phase Joining and `OnJoined`
    is its continuation. */
module UserAgentLoop {
  import opened Wrappers
  import opened UserAgent
  import AgentRuns

  class AgentLoop {
    const cfg: Config
    var phase: Phase
    var currentSession: Option<Session>
    var mediaCtx: bool
    var mediaCancel: bool
    var timerCtx: bool
    var timerCancel: bool
    var hangupByMe: bool
    var cr: Report
    var runs: map<nat, RunPhase>
    var started: nat
    var sdpFromMedia: seq<nat>
    var mediaEnd: seq<nat>
    var reporters: seq<Reporter>

    function View(): Ua
      reads this
    {
      Ua(phase, currentSession, mediaCtx, mediaCancel, timerCtx, timerCancel, hangupByMe, cr, runs, started,
         sdpFromMedia, mediaEnd, reporters)
    }

    constructor (cfg: Config)
      ensures this.cfg == cfg && View() == Init(cfg) && Inv(cfg, View())
    {
      this.cfg := cfg;
      phase, currentSession := Starting, None;
      mediaCtx, mediaCancel, timerCtx, timerCancel, hangupByMe := false, false, false, false, false;
      cr := Report(0, cfg.account, "", Unknown);
      runs, started := map[], 0;
      sdpFromMedia, mediaEnd, reporters := [], [], [];
    }

    method SpawnMedia()
      modifies this
      ensures View() == StartMedia(old(View()))
    {
      mediaCtx, mediaCancel := true, true;
      runs := runs[started := Preparing];
      started := started + 1;
    }

    // case <-mainCtx.Done()
    method OnCancel()
      requires Inv(cfg, View()) && Enabled(cfg, View(), CancelSeen)
      modifies this
      ensures Inv(cfg, View())
      ensures View() == Apply(cfg, old(View()), CancelSeen)
    {
      StepKeepsInv(cfg, View(), CancelSeen);
      hide Inv;
      if mediaCancel {
        phase := Joining(true);
      } else {
        phase := Exited;
      }
    }

    // case callIndex := <-startCallChan
    method OnStartCall(callIndex: int)
      requires Inv(cfg, View()) && Enabled(cfg, View(), StartCall(callIndex))
      modifies this
      ensures Inv(cfg, View())
      ensures View() == Apply(cfg, old(View()), StartCall(callIndex))
    {
      StepKeepsInv(cfg, View(), StartCall(callIndex));
      hide Inv;
      if currentSession.Some? || mediaCtx || mediaCancel {
        return;
      }
      cr := cr.(callIndex := callIndex);
      cr := cr.(callId := "");
      cr := cr.(result := Unknown);
      SpawnMedia();
    }

    // case sdp := <-sdpFromMediaChan
    method OnLocalSdp(invited: Option<Session>)
      requires Inv(cfg, View()) && Enabled(cfg, View(), LocalSdp(invited))
      modifies this
      ensures Inv(cfg, View())
      ensures View() == Apply(cfg, old(View()), LocalSdp(invited))
    {
      StepKeepsInv(cfg, View(), LocalSdp(invited));
      hide Inv;
      sdpFromMedia := sdpFromMedia[1..];
      if cfg.role.Uac? {
        currentSession := invited;
        if currentSession.Some? {
          cr := cr.(callId := currentSession.value.callId);
        }
      }
    }

    // case <-callConfirmedChan
    method OnConfirmed()
      requires Inv(cfg, View()) && Enabled(cfg, View(), Confirmed)
      modifies this
      ensures Inv(cfg, View())
      ensures View() == Apply(cfg, old(View()), Confirmed)
    {
      StepKeepsInv(cfg, View(), Confirmed);
      hide Inv;
      if cfg.hasDuration {
        if timerCtx || timerCancel {
          return;
        }
        timerCtx, timerCancel := true, true;
      }
    }

    // case sess := <-callReceivedChan
    method OnReceived(sess: Session, callIndex: int) returns (reports: seq<Report>)
      requires Inv(cfg, View()) && Enabled(cfg, View(), Received(sess, callIndex))
      modifies this
      ensures Inv(cfg, View())
      ensures View() == Apply(cfg, old(View()), Received(sess, callIndex))
      ensures reports == Reports(cfg, old(View()), Received(sess, callIndex))
    {
      StepKeepsInv(cfg, View(), Received(sess, callIndex));
      hide Inv;
      reports := [];
      if currentSession.Some? {
        if currentSession.value == sess {
        } else if currentSession.value.callId == sess.callId {
        } else {
          var newcr := cr;
          newcr := newcr.(callIndex := callIndex);
          newcr := newcr.(callId := sess.callId);
          newcr := newcr.(result := Failed);
          reports := [newcr];
        }
        return;
      }
      cr := cr.(callIndex := callIndex);
      cr := cr.(callId := sess.callId);
      cr := cr.(result := Unknown);
      currentSession := Some(sess);
      SpawnMedia();
    }

    // case sess := <-callTerminatedChan, up to the join.  A session without a media run, which the last
    // branch is for, occurs in no state that has the invariant.
    method OnTerminated(sess: Session) returns (reports: seq<Report>)
      requires Enabled(cfg, View(), Terminated(sess))
      modifies this
      ensures old(Inv(cfg, View())) ==> Inv(cfg, View())
      ensures View() == Apply(cfg, old(View()), Terminated(sess))
      ensures reports == Reports(cfg, old(View()), Terminated(sess))
    {
      if Inv(cfg, View()) {
        StepKeepsInv(cfg, View(), Terminated(sess));
      }
      hide Inv;
      reports := [];
      if currentSession.None? {
        return;
      }
      if currentSession != Some(sess) {
        return;
      }
      currentSession := None;
      if mediaCancel {
        phase := Joining(false);
      } else {
        reports := CloseCall();
      }
    }

    // <-mediaFuncEndChan and what follows it in the handler that was blocked on it
    method OnJoined() returns (reports: seq<Report>)
      requires Inv(cfg, View()) && Enabled(cfg, View(), JoinDone)
      modifies this
      ensures Inv(cfg, View())
      ensures View() == Apply(cfg, old(View()), JoinDone)
      ensures reports == Reports(cfg, old(View()), JoinDone)
    {
      StepKeepsInv(cfg, View(), JoinDone);
      hide Inv;
      reports := [];
      mediaEnd := mediaEnd[1..];
      if phase.leaving {
        phase := Exited;
      } else {
        reports := CloseCall();
      }
    }

    method CloseCall() returns (reports: seq<Report>)
      modifies this
      ensures View() == FinishCall(cfg, old(View()))
      ensures reports == if cfg.role.Uas? then [old(cr)] else []
    {
      reports := [];
      phase := Running;
      if mediaCancel {
        mediaCtx := false;
        mediaCancel := false;
      }
      if timerCancel {
        timerCtx := false;
        timerCancel := false;
      }
      if cfg.role.Uac? {
        reporters := reporters + [Reporter(cr, false)];
      } else {
        reports := [cr];
      }
    }

    // case <-callDurationCtx.Done()
    method OnTimer()
      requires Inv(cfg, View()) && Enabled(cfg, View(), TimerFired)
      modifies this
      ensures Inv(cfg, View())
      ensures View() == Apply(cfg, old(View()), TimerFired)
    {
      StepKeepsInv(cfg, View(), TimerFired);
      hide Inv;
      if currentSession.Some? {
        hangupByMe := true;
      }
      timerCtx := false;
      timerCancel := false;
    }

    // A Canceled, Failure or Terminated callback, before it notifies the loop
    method OnSipState(failed: bool)
      requires Inv(cfg, View()) && Enabled(cfg, View(), SipState(failed))
      modifies this
      ensures Inv(cfg, View())
      ensures View() == Apply(cfg, old(View()), SipState(failed))
    {
      StepKeepsInv(cfg, View(), SipState(failed));
      hide Inv;
      if failed {
        cr := cr.(result := Failed);
      } else {
        cr := cr.(result := Successful);
      }
    }

    // The delayed reporter: its wait, then its send
    method ReporterWait()
      requires Inv(cfg, View()) && Enabled(cfg, View(), ReporterWakes)
      modifies this
      ensures Inv(cfg, View())
      ensures View() == Apply(cfg, old(View()), ReporterWakes)
    {
      StepKeepsInv(cfg, View(), ReporterWakes);
      hide Inv;
      if hangupByMe {
        hangupByMe := false;
      }
      FirstReplaced(reporters, reporters[0].(woke := true));
      reporters := reporters[0 := reporters[0].(woke := true)];
    }

    method ReporterSend() returns (reports: seq<Report>)
      requires Inv(cfg, View()) && Enabled(cfg, View(), ReporterSends)
      modifies this
      ensures Inv(cfg, View())
      ensures View() == Apply(cfg, old(View()), ReporterSends)
      ensures reports == Reports(cfg, old(View()), ReporterSends)
    {
      StepKeepsInv(cfg, View(), ReporterSends);
      hide Inv;
      reports := [cr];
      reporters := reporters[1..];
    }

    // Registration: the loop is entered, or the agent gives up
    method OnRegister(failed: bool)
      requires Inv(cfg, View()) && phase.Starting?
      modifies this
      ensures Inv(cfg, View())
      ensures View() == Apply(cfg, old(View()), if failed then RegisterFailed else Registered)
    {
      StepKeepsInv(cfg, View(), if failed then RegisterFailed else Registered);
      hide Inv;
      if failed {
        phase := Exited;
      } else {
        phase := Running;
      }
    }

    // A media run has its local description and is committed to send it
    method MediaCommits(run: nat)
      requires Inv(cfg, View()) && Enabled(cfg, View(), RunCommits(run))
      modifies this
      ensures Inv(cfg, View())
      ensures View() == Apply(cfg, old(View()), RunCommits(run))
    {
      StepKeepsInv(cfg, View(), RunCommits(run));
      hide Inv;
      runs := runs[run := Sending];
    }

    // sdpToUAChan <- ...
    method MediaSends(run: nat)
      requires Inv(cfg, View()) && Enabled(cfg, View(), RunSends(run))
      modifies this
      ensures Inv(cfg, View())
      ensures View() == Apply(cfg, old(View()), RunSends(run))
    {
      StepKeepsInv(cfg, View(), RunSends(run));
      hide Inv;
      sdpFromMedia := sdpFromMedia + [run];
      runs := runs[run := Sent];
    }

    // MediaFunc returns, and says so
    method MediaEnds(run: nat)
      requires Inv(cfg, View()) && Enabled(cfg, View(), RunEnds(run))
      modifies this
      ensures Inv(cfg, View())
      ensures View() == Apply(cfg, old(View()), RunEnds(run))
    {
      StepKeepsInv(cfg, View(), RunEnds(run));
      hide Inv;
      mediaEnd := mediaEnd + [run];
      runs := runs - {run};
    }

    /** One event, whichever it is. */
    method Handle(e: Event) returns (reports: seq<Report>)
      requires Inv(cfg, View()) && Enabled(cfg, View(), e)
      modifies this
      ensures Inv(cfg, View())
      ensures View() == Apply(cfg, old(View()), e) && reports == Reports(cfg, old(View()), e)
    {
      hide Inv;
      reports := [];
      match e
      case RegisterFailed => OnRegister(true);
      case Registered => OnRegister(false);
      case CancelSeen => OnCancel();
      case StartCall(callIndex) => OnStartCall(callIndex);
      case LocalSdp(invited) => OnLocalSdp(invited);
      case Confirmed => OnConfirmed();
      case Received(sess, callIndex) => reports := OnReceived(sess, callIndex);
      case Terminated(sess) => reports := OnTerminated(sess);
      case TimerFired => OnTimer();
      case JoinDone => reports := OnJoined();
      case SipState(failed) => OnSipState(failed);
      case RunCommits(run) => MediaCommits(run);
      case RunSends(run) => MediaSends(run);
      case RunEnds(run) => MediaEnds(run);
      case ReporterWakes => ReporterWait();
      case ReporterSends => reports := ReporterSend();
    }

    /** The loop over any run of events: the object goes through the states of that run, so that what
        holds on every run holds of the object, and sends the reports of its steps in order. */
    method Drive(events: seq<Event>) returns (reports: seq<Report>)
      requires Inv(cfg, View()) && IsRun(cfg, View(), events)
      modifies this
      ensures Inv(cfg, View())
      ensures View() == After(cfg, old(View()), events)
      ensures reports == AllReports(cfg, old(View()), events)
    {
      ghost var goal, all := After(cfg, View(), events), AllReports(cfg, View(), events);
      reports := [];
      assert reports + all == all && events[0..] == events;
      hide Inv, Apply, Enabled, Reports, IsRun, After, AllReports;
      for i := 0 to |events|
        invariant Inv(cfg, View()) && IsRun(cfg, View(), events[i..])
        invariant After(cfg, View(), events[i..]) == goal
        invariant reports + AllReports(cfg, View(), events[i..]) == all
      {
        ghost var before := reports;
        FirstOfRun(cfg, View(), events[i..]);
        NextSuffix(events, i);
        var sent := Handle(events[i]);
        reports := reports + sent;
        Regroup(before, sent, AllReports(cfg, View(), events[i + 1..]));
      }
      EndOfRun(cfg, View(), events[|events|..]);
      assert reports + [] == reports;
    }
  }

  // The reports sent along a run, in order.
  ghost function AllReports(cfg: Config, u: Ua, events: seq<Event>): seq<Report>
    requires IsRun(cfg, u, events)
    decreases |events|
  {
    if events == [] then []
    else Reports(cfg, u, events[0]) + AllReports(cfg, Apply(cfg, u, events[0]), events[1..])
  }

  lemma FirstReplaced(reporters: seq<Reporter>, first: Reporter)
    requires reporters != []
    ensures reporters[0 := first] == [first] + reporters[1..]
  {
  }

  lemma FirstOfRun(cfg: Config, u: Ua, events: seq<Event>)
    requires IsRun(cfg, u, events) && events != []
    ensures Enabled(cfg, u, events[0]) && IsRun(cfg, Apply(cfg, u, events[0]), events[1..])
    ensures After(cfg, u, events) == After(cfg, Apply(cfg, u, events[0]), events[1..])
    ensures AllReports(cfg, u, events)
         == Reports(cfg, u, events[0]) + AllReports(cfg, Apply(cfg, u, events[0]), events[1..])
  {
  }

  lemma Regroup(a: seq<Report>, b: seq<Report>, c: seq<Report>)
    ensures a + (b + c) == (a + b) + c
  {
  }

  lemma NextSuffix(events: seq<Event>, i: nat)
    requires i < |events|
    ensures events[i..] != [] && events[i..][0] == events[i] && events[i..][1..] == events[i + 1..]
  {
  }

  lemma EndOfRun(cfg: Config, u: Ua, events: seq<Event>)
    requires events == []
    ensures IsRun(cfg, u, events) && After(cfg, u, events) == u && AllReports(cfg, u, events) == []
  {
  }

  /** The life of an agent, from its construction on: one media run at most, whose end notification
      always finds room, whatever the library, the timers and the media runs do. */
  method Live(cfg: Config, events: seq<Event>) returns (agent: AgentLoop, reports: seq<Report>)
    requires IsRun(cfg, Init(cfg), events)
    ensures fresh(agent) && agent.View() == After(cfg, Init(cfg), events)
    ensures |agent.runs| <= 1 && (agent.runs != map[] ==> |agent.mediaEnd| < CAPACITY)
    ensures reports == AllReports(cfg, Init(cfg), events)
  {
    agent := new AgentLoop(cfg);
    reports := agent.Drive(events);
    AgentRuns.MediaRunDiscipline(cfg, events);
  }
}
