/** One user agent of sip/ua.go: its main select loop, the media runs and delayed reporters it
    spawns, and the callbacks of the SIP library.

    `Apply` is one step of that system as a function on values; `UserAgentLoop` has the same steps
    as methods on the loop's variables.  The SIP library, the timers and the inside of MediaFunc are
    the environment: they choose which event happens next. */
module UserAgent {
  import opened Wrappers

  datatype Role = Uac | Uas

  /** A *session.Session: `id` is the object's identity, two sessions may carry one Call-ID. */
  datatype Session = Session(id: nat, callId: string)

  /** cr.CallResult: "", "Successful" or "Failed". */
  datatype CallResult = Unknown | Successful | Failed

  datatype Report = Report(callIndex: int, accountIndex: nat, callId: string, result: CallResult)

  predicate SameCall(r: Report, r': Report) {
    r.callIndex == r'.callIndex && r.accountIndex == r'.accountIndex && r.callId == r'.callId
  }

  datatype Config = Config(role: Role, account: nat, hasDuration: bool)

  /** Joining is the loop blocked on mediaFuncEndChan, on its way out or at the end of a call. */
  datatype Phase = Starting | Running | Joining(leaving: bool) | Exited

  /** A run of MediaFunc.  Once Sending, it is committed to the send of its local description. */
  datatype RunPhase = Preparing | Sending | Sent

  /** The goroutine that reports a finished call; `snapshot` remembers cr as it was when spawned. */
  datatype Reporter = Reporter(snapshot: Report, woke: bool)

  datatype Ua = Ua(
    phase: Phase,
    currentSession: Option<Session>,
    mediaCtx: bool, mediaCancel: bool,
    timerCtx: bool, timerCancel: bool,
    hangupByMe: bool,
    cr: Report,
    runs: map<nat, RunPhase>,   // the media runs alive, by number
    started: nat,               // how many runs were ever started
    sdpFromMedia: seq<nat>,     // sdpFromMediaChan, each entry the run that sent it
    mediaEnd: seq<nat>,         // mediaFuncEndChan, each entry the run that sent it
    reporters: seq<Reporter>)

  datatype Event =
    | RegisterFailed
    | Registered
    | CancelSeen
    | StartCall(callIndex: int)
    | LocalSdp(invited: Option<Session>)  // what Invite returns, if this is an offer
    | Confirmed
    | Received(sess: Session, callIndex: int)
    | Terminated(sess: Session)
    | TimerFired
    | JoinDone
    | SipState(failed: bool)              // a terminating state callback writes cr.CallResult
    | RunCommits(run: nat)
    | RunSends(run: nat)
    | RunEnds(run: nat)
    | ReporterWakes
    | ReporterSends

  // Capacity of sdpFromMediaChan and of mediaFuncEndChan.
  const CAPACITY := 1

  function Init(cfg: Config): Ua {
    Ua(Starting, None, false, false, false, false, false, Report(0, cfg.account, "", Unknown),
       map[], 0, [], [], [])
  }

  predicate Enabled(cfg: Config, u: Ua, e: Event) {
    match e
    case RegisterFailed => u.phase.Starting?
    case Registered => u.phase.Starting?
    case CancelSeen => u.phase.Running?
    case StartCall(_) => u.phase.Running? && cfg.role.Uac?
    case LocalSdp(_) => u.phase.Running? && u.sdpFromMedia != []
    case Confirmed => u.phase.Running?
    case Received(_, _) => u.phase.Running? && cfg.role.Uas?
    case Terminated(_) => u.phase.Running?
    case TimerFired => u.phase.Running? && u.timerCtx
    case JoinDone => u.phase.Joining? && u.mediaEnd != []
    case SipState(_) => !u.phase.Starting?
    case RunCommits(run) => run in u.runs && u.runs[run].Preparing?
    case RunSends(run) => run in u.runs && u.runs[run].Sending? && |u.sdpFromMedia| < CAPACITY
    case RunEnds(run) => run in u.runs && !u.runs[run].Sending? && |u.mediaEnd| < CAPACITY
    case ReporterWakes => u.reporters != [] && !u.reporters[0].woke
    case ReporterSends => u.reporters != [] && u.reporters[0].woke
  }

  function StartMedia(u: Ua): Ua {
    u.(mediaCtx := true, mediaCancel := true, runs := u.runs[u.started := Preparing], started := u.started + 1)
  }

  // The end of a call once its media run, if any, has been joined (sip/ua.go:363-390).
  function FinishCall(cfg: Config, u: Ua): Ua {
    var timerCtx := u.timerCtx && !u.timerCancel;
    u.(phase := Running, mediaCtx := u.mediaCtx && !u.mediaCancel, mediaCancel := false,
       timerCtx := timerCtx, timerCancel := false,
       reporters := if cfg.role.Uac? then u.reporters + [Reporter(u.cr, false)] else u.reporters)
  }

  function Apply(cfg: Config, u: Ua, e: Event): Ua
    requires Enabled(cfg, u, e)
  {
    match e
    case RegisterFailed => u.(phase := Exited)
    case Registered => u.(phase := Running)
    case CancelSeen => u.(phase := if u.mediaCancel then Joining(true) else Exited)
    case StartCall(callIndex) =>
      if u.currentSession.Some? || u.mediaCtx || u.mediaCancel then u
      else StartMedia(u.(cr := u.cr.(callIndex := callIndex, callId := "", result := Unknown)))
    case LocalSdp(invited) =>
      var u := u.(sdpFromMedia := u.sdpFromMedia[1..]);
      if cfg.role.Uas? then u
      else if invited.None? then u.(currentSession := None)
      else u.(currentSession := invited, cr := u.cr.(callId := invited.value.callId))
    case Confirmed =>
      if !cfg.hasDuration || u.timerCtx || u.timerCancel then u else u.(timerCtx := true, timerCancel := true)
    case Received(sess, callIndex) =>
      if u.currentSession.Some? then u
      else StartMedia(u.(currentSession := Some(sess),
                         cr := u.cr.(callIndex := callIndex, callId := sess.callId, result := Unknown)))
    case Terminated(sess) =>
      if u.currentSession != Some(sess) then u
      else if u.mediaCancel then u.(currentSession := None, phase := Joining(false))
      else FinishCall(cfg, u.(currentSession := None))
    case TimerFired =>
      u.(hangupByMe := u.hangupByMe || u.currentSession.Some?, timerCtx := false, timerCancel := false)
    case JoinDone =>
      var joined := u.(mediaEnd := u.mediaEnd[1..]);
      if u.phase.leaving then joined.(phase := Exited) else FinishCall(cfg, joined)
    case SipState(failed) => u.(cr := u.cr.(result := if failed then Failed else Successful))
    case RunCommits(run) => u.(runs := u.runs[run := Sending])
    case RunSends(run) => u.(runs := u.runs[run := Sent], sdpFromMedia := u.sdpFromMedia + [run])
    case RunEnds(run) => u.(runs := u.runs - {run}, mediaEnd := u.mediaEnd + [run])
    case ReporterWakes =>
      u.(hangupByMe := false, reporters := [u.reporters[0].(woke := true)] + u.reporters[1..])
    case ReporterSends => u.(reporters := u.reporters[1..])
  }

  /** The reports a step sends to callEndChan. */
  function Reports(cfg: Config, u: Ua, e: Event): seq<Report>
    requires Enabled(cfg, u, e)
  {
    match e
    case ReporterSends => [u.cr]
    case Received(sess, callIndex) =>
      if u.currentSession.Some? && u.currentSession.value != sess && u.currentSession.value.callId != sess.callId
      then [u.cr.(callIndex := callIndex, callId := sess.callId, result := Failed)]
      else []
    case Terminated(sess) =>
      if cfg.role.Uas? && u.currentSession == Some(sess) && !u.mediaCancel then [u.cr] else []
    case JoinDone => if cfg.role.Uas? && !u.phase.leaving then [u.cr] else []
    case _ => []
  }

  /* ---------- what every step keeps, in both roles ---------- */

  // The current run is alive or its one notification waits in mediaFuncEndChan, never both.
  ghost predicate OneRun(u: Ua) {
    && u.started > 0
    && var cur := u.started - 1;
    (u.runs.Keys == {cur} && u.mediaEnd == []) || (u.runs == map[] && u.mediaEnd == [cur])
  }

  ghost predicate NoRun(u: Ua) {
    u.runs == map[] && u.mediaEnd == []
  }

  // Where the offer of a calling agent's current run is.
  ghost predicate OfferDiscipline(u: Ua) {
    && (u.phase != Exited && !u.mediaCancel ==> u.sdpFromMedia == [])
    && (u.sdpFromMedia != [] ==> u.currentSession.None? && |u.sdpFromMedia| == 1)
    && (u.phase == Joining(false) ==> u.sdpFromMedia == [])
    && (u.sdpFromMedia != [] ==> u.sdpFromMedia[0] + 1 == u.started)
    && (forall run :: run in u.runs && !u.runs[run].Sent? ==>
          u.sdpFromMedia == [] && u.currentSession.None? && u.phase != Joining(false))
  }

  // The loop's variables agree with each other and with where the loop is.
  ghost predicate Flags(cfg: Config, u: Ua) {
    && u.cr.accountIndex == cfg.account
    && u.mediaCtx == u.mediaCancel
    && u.timerCtx == u.timerCancel
    && (u.currentSession.Some? ==> u.mediaCancel)
    && (u.currentSession.Some? ==> u.cr.callId == u.currentSession.value.callId)
    && (!cfg.hasDuration ==> !u.timerCtx)
    && (u.phase.Starting? ==> !u.mediaCancel && !u.timerCtx)
    && (u.phase.Joining? ==> u.mediaCancel)
    && (u.phase == Joining(false) ==> u.currentSession.None?)
    && (cfg.role.Uas? && u.phase.Running? && u.mediaCancel ==> u.currentSession.Some?)
    && (cfg.role.Uas? ==> u.reporters == [])
    && (forall i :: 0 <= i < |u.reporters| ==> u.reporters[i].snapshot.accountIndex == cfg.account)
  }

  ghost predicate Runs(u: Ua) {
    if u.phase.Exited? || !u.mediaCancel then NoRun(u) else OneRun(u)
  }

  ghost predicate Inv(cfg: Config, u: Ua) {
    Flags(cfg, u) && Runs(u) && |u.sdpFromMedia| <= CAPACITY && (cfg.role.Uac? ==> OfferDiscipline(u))
  }

  // The events that begin or end something for the loop; the others change one variable.
  predicate Turns(e: Event) {
    e.RegisterFailed? || e.Registered? || e.CancelSeen? || e.StartCall? || e.Received? || e.Terminated? || e.JoinDone?
  }

  lemma TurnKeepsFlags(cfg: Config, u: Ua, e: Event)
    requires Flags(cfg, u) && Enabled(cfg, u, e) && Turns(e)
    ensures Flags(cfg, Apply(cfg, u, e))
  {
  }

  lemma StepKeepsFlags(cfg: Config, u: Ua, e: Event)
    requires Inv(cfg, u) && Enabled(cfg, u, e)
    ensures Flags(cfg, Apply(cfg, u, e))
  {
    if Turns(e) {
      TurnKeepsFlags(cfg, u, e);
    } else {
      OtherKeepsFlags(cfg, u, e);
    }
  }

  lemma OtherKeepsFlags(cfg: Config, u: Ua, e: Event)
    requires Inv(cfg, u) && Enabled(cfg, u, e) && !Turns(e)
    ensures Flags(cfg, Apply(cfg, u, e))
  {
  }

  lemma TurnKeepsRuns(cfg: Config, u: Ua, e: Event)
    requires Flags(cfg, u) && Runs(u) && Enabled(cfg, u, e) && Turns(e)
    ensures Runs(Apply(cfg, u, e)) && Apply(cfg, u, e).sdpFromMedia == u.sdpFromMedia
  {
  }

  lemma OtherKeepsRuns(cfg: Config, u: Ua, e: Event)
    requires Flags(cfg, u) && Runs(u) && |u.sdpFromMedia| <= CAPACITY && Enabled(cfg, u, e) && !Turns(e)
    ensures Runs(Apply(cfg, u, e)) && |Apply(cfg, u, e).sdpFromMedia| <= CAPACITY
  {
  }

  lemma StepKeepsRuns(cfg: Config, u: Ua, e: Event)
    requires Inv(cfg, u) && Enabled(cfg, u, e)
    ensures Runs(Apply(cfg, u, e)) && |Apply(cfg, u, e).sdpFromMedia| <= CAPACITY
  {
    if Turns(e) {
      TurnKeepsRuns(cfg, u, e);
    } else {
      OtherKeepsRuns(cfg, u, e);
    }
  }

  lemma StepKeepsOffer(cfg: Config, u: Ua, e: Event)
    requires cfg.role.Uac? && Inv(cfg, u) && Enabled(cfg, u, e)
    ensures OfferDiscipline(Apply(cfg, u, e))
  {
  }

  lemma StepKeepsInv(cfg: Config, u: Ua, e: Event)
    requires Inv(cfg, u) && Enabled(cfg, u, e)
    ensures Inv(cfg, Apply(cfg, u, e))
  {
    StepKeepsFlags(cfg, u, e);
    StepKeepsRuns(cfg, u, e);
    if cfg.role.Uac? {
      StepKeepsOffer(cfg, u, e);
    }
  }

  /* ---------- runs of one agent ---------- */

  ghost predicate IsRun(cfg: Config, u: Ua, events: seq<Event>)
    decreases |events|
  {
    events == [] || (Enabled(cfg, u, events[0]) && IsRun(cfg, Apply(cfg, u, events[0]), events[1..]))
  }

  ghost function After(cfg: Config, u: Ua, events: seq<Event>): Ua
    requires IsRun(cfg, u, events)
    decreases |events|
  {
    if events == [] then u else After(cfg, Apply(cfg, u, events[0]), events[1..])
  }

  lemma {:induction false} RunKeepsInv(cfg: Config, u: Ua, events: seq<Event>)
    requires Inv(cfg, u) && IsRun(cfg, u, events)
    ensures Inv(cfg, After(cfg, u, events))
    decreases |events|
  {
    if events != [] {
      StepKeepsInv(cfg, u, events[0]);
      RunKeepsInv(cfg, Apply(cfg, u, events[0]), events[1..]);
    }
  }

  /* ---------- runs built step by step ---------- */

  lemma {:induction false} RunThenStep(cfg: Config, u: Ua, events: seq<Event>, e: Event)
    requires IsRun(cfg, u, events) && Enabled(cfg, After(cfg, u, events), e)
    ensures IsRun(cfg, u, events + [e])
    ensures After(cfg, u, events + [e]) == Apply(cfg, After(cfg, u, events), e)
    decreases |events|
  {
    if events != [] {
      RunThenStep(cfg, Apply(cfg, u, events[0]), events[1..], e);
      assert (events + [e])[1..] == events[1..] + [e];
    }
  }

  // Follows one more event of a run from `start`.
  lemma Follow(cfg: Config, start: Ua, events: seq<Event>, u: Ua, e: Event) returns (events': seq<Event>, u': Ua)
    requires IsRun(cfg, start, events) && After(cfg, start, events) == u && Enabled(cfg, u, e)
    ensures IsRun(cfg, start, events') && After(cfg, start, events') == u'
    ensures events' == events + [e] && u' == Apply(cfg, u, e)
  {
    RunThenStep(cfg, start, events, e);
    events', u' := events + [e], Apply(cfg, u, e);
  }

  lemma {:induction false} RunThenRun(cfg: Config, u: Ua, a: seq<Event>, b: seq<Event>)
    requires IsRun(cfg, u, a) && IsRun(cfg, After(cfg, u, a), b)
    ensures IsRun(cfg, u, a + b) && After(cfg, u, a + b) == After(cfg, After(cfg, u, a), b)
    decreases |a|
  {
    if a == [] {
      assert a + b == b;
    } else {
      assert (a + b)[1..] == a[1..] + b;
      RunThenRun(cfg, Apply(cfg, u, a[0]), a[1..], b);
    }
  }
}
