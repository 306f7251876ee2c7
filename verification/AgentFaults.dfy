/** What sip/ua.go does not guarantee of an agent: a called agent can block, and a duration timer can
    outlive its call. */
module AgentFaults {
  import opened Wrappers
  import opened UserAgent

  // Blocked for good: the loop waits for the end of a run that itself waits for room in a channel
  // only the loop empties.
  ghost predicate Stuck(u: Ua) {
    && u.phase.Joining? && u.mediaEnd == [] && |u.sdpFromMedia| == CAPACITY
    && u.runs != map[] && forall run :: run in u.runs ==> u.runs[run].Sending?
  }

  lemma StuckStaysStuck(cfg: Config, u: Ua, e: Event)
    requires Stuck(u) && Enabled(cfg, u, e) && u.reporters == []
    ensures e.SipState? && Stuck(Apply(cfg, u, e)) && Apply(cfg, u, e).reporters == []
  {
  }

  /** A calling agent never gets stuck. */
  lemma CallerNeverStuck(cfg: Config, events: seq<Event>)
    requires cfg.role.Uac? && IsRun(cfg, Init(cfg), events)
    ensures !Stuck(After(cfg, Init(cfg), events))
  {
    RunKeepsInv(cfg, Init(cfg), events);
  }

  /** A called agent can be idle while the answer of the call before is still in sdpFromMediaChan. */
  lemma LeftoverAnswerReachable(cfg: Config, a: Session) returns (events: seq<Event>)
    requires cfg.role.Uas?
    ensures IsRun(cfg, Init(cfg), events)
    ensures var u := After(cfg, Init(cfg), events);
            u.phase.Running? && u.currentSession.None? && u.sdpFromMedia != []
  {
    var u := Init(cfg);
    events := [];
    events, u := Follow(cfg, Init(cfg), events, u, Registered);
    events, u := Follow(cfg, Init(cfg), events, u, Received(a, 1));
    events, u := Follow(cfg, Init(cfg), events, u, RunCommits(0));
    events, u := Follow(cfg, Init(cfg), events, u, RunSends(0));
    events, u := Follow(cfg, Init(cfg), events, u, Terminated(a));
    events, u := Follow(cfg, Init(cfg), events, u, RunEnds(0));
    events, u := Follow(cfg, Init(cfg), events, u, JoinDone);
  }

  // No further call is taken: one that comes in finds a session and is ignored or refused.
  ghost predicate WithinCall(cfg: Config, u: Ua, events: seq<Event>)
    requires IsRun(cfg, u, events)
    decreases |events|
  {
    events == [] || ((events[0].Received? ==> u.currentSession.Some?) && WithinCall(cfg, Apply(cfg, u, events[0]), events[1..]))
  }

  // Every run that has yet to send is `run`, and the channel is empty for it.
  ghost predicate RoomForAnswer(u: Ua, run: nat) {
    forall r :: r in u.runs && !u.runs[r].Sent? ==> r == run && u.sdpFromMedia == []
  }

  lemma TurnLeavesRuns(cfg: Config, u: Ua, e: Event)
    requires cfg.role.Uas? && Enabled(cfg, u, e) && Turns(e) && !e.Received?
    ensures var u' := Apply(cfg, u, e); u'.runs == u.runs && u'.sdpFromMedia == u.sdpFromMedia
  {
    if e.Terminated? || e.JoinDone? {
      EndLeavesRuns(cfg, u, e);
    } else {
      assert e.RegisterFailed? || e.Registered? || e.CancelSeen?;
    }
  }

  lemma EndLeavesRuns(cfg: Config, u: Ua, e: Event)
    requires Enabled(cfg, u, e) && (e.Terminated? || e.JoinDone?)
    ensures var u' := Apply(cfg, u, e); u'.runs == u.runs && u'.sdpFromMedia == u.sdpFromMedia
  {
    match e
    case Terminated(_) =>
    case JoinDone =>
  }

  lemma RefusedChangesNothing(cfg: Config, u: Ua, sess: Session, callIndex: int)
    requires Enabled(cfg, u, Received(sess, callIndex)) && u.currentSession.Some?
    ensures Apply(cfg, u, Received(sess, callIndex)) == u
  {
  }

  lemma OtherKeepsRoomForAnswer(cfg: Config, u: Ua, e: Event, run: nat)
    requires Enabled(cfg, u, e) && !Turns(e) && RoomForAnswer(u, run)
    ensures RoomForAnswer(Apply(cfg, u, e), run)
  {
  }

  lemma StepKeepsRoomForAnswer(cfg: Config, u: Ua, e: Event, run: nat)
    requires cfg.role.Uas? && Enabled(cfg, u, e) && (e.Received? ==> u.currentSession.Some?) && RoomForAnswer(u, run)
    ensures RoomForAnswer(Apply(cfg, u, e), run)
  {
    if e.Received? {
      RefusedChangesNothing(cfg, u, e.sess, e.callIndex);
    } else if Turns(e) {
      TurnLeavesRuns(cfg, u, e);
    } else {
      OtherKeepsRoomForAnswer(cfg, u, e, run);
    }
  }

  lemma {:induction false} RoomForAnswerLasts(cfg: Config, u: Ua, events: seq<Event>, run: nat)
    requires cfg.role.Uas? && IsRun(cfg, u, events) && WithinCall(cfg, u, events) && RoomForAnswer(u, run)
    ensures !Stuck(After(cfg, u, events))
    decreases |events|
  {
    if events != [] {
      StepKeepsRoomForAnswer(cfg, u, events[0], run);
      RoomForAnswerLasts(cfg, Apply(cfg, u, events[0]), events[1..], run);
    } else if u.runs != map[] {
      var r :| r in u.runs;
      assert u.runs[r].Sending? ==> u.sdpFromMedia == [];
    }
  }

  // Some run of the call gets there.
  ghost predicate CanGetStuck(cfg: Config, called: Ua) {
    exists events :: IsRun(cfg, called, events) && WithinCall(cfg, called, events) && Stuck(After(cfg, called, events))
  }

  lemma {:induction false} NoneReceived(cfg: Config, u: Ua, events: seq<Event>)
    requires IsRun(cfg, u, events) && forall e :: e in events ==> !e.Received?
    ensures WithinCall(cfg, u, events)
    decreases |events|
  {
    if events != [] {
      NoneReceived(cfg, Apply(cfg, u, events[0]), events[1..]);
    }
  }

  lemma GetsStuck(cfg: Config, called: Ua, run: nat, sess: Session) returns (events: seq<Event>)
    requires cfg.role.Uas? && called.phase.Running? && called.mediaCancel && called.currentSession == Some(sess)
    requires called.runs == map[run := Preparing] && called.mediaEnd == [] && |called.sdpFromMedia| == CAPACITY
    ensures IsRun(cfg, called, events) && WithinCall(cfg, called, events) && Stuck(After(cfg, called, events))
  {
    var u := called;
    events := [];
    events, u := Follow(cfg, called, events, u, RunCommits(run));
    events, u := Follow(cfg, called, events, u, Terminated(sess));
    assert run in u.runs;
    NoneReceived(cfg, called, events);
  }

  /** Exactly that leftover lets the next call of an idle called agent block for good. */
  lemma CalleeGetsStuckExactlyAfterLeftover(cfg: Config, u: Ua, sess: Session, callIndex: int)
    requires cfg.role.Uas? && Inv(cfg, u) && u.phase.Running? && u.currentSession.None?
    ensures var called := Apply(cfg, u, Received(sess, callIndex));
            CanGetStuck(cfg, called) <==> u.sdpFromMedia != []
  {
    var called := Apply(cfg, u, Received(sess, callIndex));
    if u.sdpFromMedia != [] {
      var events := GetsStuck(cfg, called, u.started, sess);
      assert IsRun(cfg, called, events) && WithinCall(cfg, called, events) && Stuck(After(cfg, called, events));
    } else {
      forall events | IsRun(cfg, called, events) && WithinCall(cfg, called, events)
        ensures !Stuck(After(cfg, called, events))
      {
        RoomForAnswerLasts(cfg, called, events, u.started);
      }
    }
  }

  // A duration timer that is armed although the agent has no call.
  ghost predicate StrayTimer(u: Ua) {
    u.phase.Running? && u.timerCtx && u.currentSession.None?
  }

  /** A step leaves a stray timer behind exactly when it handles a confirmation while the agent has no
      session: the second one of every outgoing call, handled after the call has ended, or a late one
      between a start message and Invite. */
  lemma StrayTimerExactly(cfg: Config, u: Ua, e: Event)
    requires Inv(cfg, u) && Enabled(cfg, u, e) && !StrayTimer(u)
    ensures StrayTimer(Apply(cfg, u, e))
       <==> e.Confirmed? && cfg.hasDuration && u.currentSession.None? && !u.timerCtx
  {
  }

  // A first call with its session.
  lemma FirstCall(cfg: Config, a: Session) returns (events: seq<Event>, u: Ua)
    ensures IsRun(cfg, Init(cfg), events) && After(cfg, Init(cfg), events) == u
    ensures u.phase.Running? && u.currentSession == Some(a) && u.mediaCancel && u.mediaCtx && !u.timerCtx && !u.timerCancel
    ensures u.runs == map[0 := Sent] && u.mediaEnd == []
  {
    u := Init(cfg);
    events := [];
    events, u := Follow(cfg, Init(cfg), events, u, Registered);
    if cfg.role.Uac? {
      events, u := Follow(cfg, Init(cfg), events, u, StartCall(1));
    } else {
      events, u := Follow(cfg, Init(cfg), events, u, Received(a, 1));
    }
    events, u := Follow(cfg, Init(cfg), events, u, RunCommits(0));
    events, u := Follow(cfg, Init(cfg), events, u, RunSends(0));
    events, u := Follow(cfg, Init(cfg), events, u, LocalSdp(Some(a)));
  }

  // And its end, after a confirmation.
  lemma WholeCall(cfg: Config, a: Session) returns (events: seq<Event>, u: Ua)
    ensures IsRun(cfg, Init(cfg), events) && After(cfg, Init(cfg), events) == u
    ensures u.phase.Running? && u.currentSession.None? && !u.mediaCancel && !u.timerCtx && !u.timerCancel
  {
    events, u := FirstCall(cfg, a);
    events, u := Follow(cfg, Init(cfg), events, u, Confirmed);
    events, u := Follow(cfg, Init(cfg), events, u, Terminated(a));
    events, u := Follow(cfg, Init(cfg), events, u, RunEnds(0));
    events, u := Follow(cfg, Init(cfg), events, u, JoinDone);
  }

  /** A stray timer is reachable: the second confirmation comes after the call it belongs to. */
  lemma StrayTimerReachable(cfg: Config, a: Session) returns (events: seq<Event>, u: Ua)
    requires cfg.hasDuration
    ensures IsRun(cfg, Init(cfg), events) && After(cfg, Init(cfg), events) == u
    ensures StrayTimer(u) && !u.mediaCancel
  {
    events, u := WholeCall(cfg, a);
    events, u := Follow(cfg, Init(cfg), events, u, Confirmed);
  }

  /** The timer left behind survives into the next call, which then may be hung up unconfirmed. */
  lemma StrayTimerHangsUpNextCall(cfg: Config, u: Ua, callIndex: int, sess: Session) returns (events: seq<Event>)
    requires Inv(cfg, u) && StrayTimer(u) && !u.mediaCancel
    ensures Confirmed !in events && IsRun(cfg, u, events)
    ensures var u' := After(cfg, u, events);
            u'.currentSession == Some(sess) && u'.cr.callIndex == callIndex && u'.hangupByMe
  {
    var run := u.started;
    var v := u;
    events := [];
    if cfg.role.Uac? {
      events, v := Follow(cfg, u, events, v, StartCall(callIndex));
      events, v := Follow(cfg, u, events, v, RunCommits(run));
      events, v := Follow(cfg, u, events, v, RunSends(run));
      events, v := Follow(cfg, u, events, v, LocalSdp(Some(sess)));
    } else {
      events, v := Follow(cfg, u, events, v, Received(sess, callIndex));
    }
    events, v := Follow(cfg, u, events, v, TimerFired);
  }

  /** So in either role some run, from the start, hangs up a second call that was never confirmed. */
  lemma SecondCallHungUpUnconfirmed(cfg: Config, a: Session, b: Session) returns (before: seq<Event>, events: seq<Event>)
    requires cfg.hasDuration
    ensures IsRun(cfg, Init(cfg), before + events) && Confirmed !in events
    ensures IsRun(cfg, Init(cfg), before) && After(cfg, Init(cfg), before).currentSession.None?
    ensures var u := After(cfg, Init(cfg), before + events);
            u.currentSession == Some(b) && u.cr.callIndex == 2 && u.hangupByMe
  {
    var u;
    before, u := StrayTimerReachable(cfg, a);
    RunKeepsInv(cfg, Init(cfg), before);
    events := StrayTimerHangsUpNextCall(cfg, u, 2, b);
    RunThenRun(cfg, Init(cfg), before, events);
  }
}
