/** What holds on every run of one agent, in either role. */
module AgentRuns {
  import opened Wrappers
  import opened UserAgent

  /** In either role at most one media run is alive, the send of its end notification never blocks
      and what a join finds is the notification of the current run; a calling agent's run also
      always finds room for its offer. */
  lemma MediaRunDiscipline(cfg: Config, events: seq<Event>)
    requires IsRun(cfg, Init(cfg), events)
    ensures var u := After(cfg, Init(cfg), events);
            && |u.runs| <= 1
            && (u.runs != map[] ==> |u.mediaEnd| < CAPACITY && u.runs.Keys == {u.started - 1})
            && (u.mediaEnd != [] ==> u.mediaEnd == [u.started - 1] && u.phase != Exited)
            && (!u.mediaCancel ==> u.runs == map[] && u.mediaEnd == [])
            && (cfg.role.Uac? ==> forall run :: run in u.runs && u.runs[run].Sending? ==> |u.sdpFromMedia| < CAPACITY)
  {
    RunKeepsInv(cfg, Init(cfg), events);
  }

  /** The offer a calling agent invites with is that of its current run, which it has not given up. */
  lemma OfferIsOfCurrentRun(cfg: Config, events: seq<Event>, invited: Option<Session>)
    requires cfg.role.Uac? && IsRun(cfg, Init(cfg), events)
    requires Enabled(cfg, After(cfg, Init(cfg), events), LocalSdp(invited))
    ensures var u := After(cfg, Init(cfg), events);
            u.sdpFromMedia == [u.started - 1] && u.mediaCancel && u.currentSession.None?
  {
    RunKeepsInv(cfg, Init(cfg), events);
  }

  lemma StepEndsSessionExactly(cfg: Config, u: Ua, e: Event)
    requires Inv(cfg, u) && Enabled(cfg, u, e) && u.currentSession.Some?
    ensures Apply(cfg, u, e).currentSession != u.currentSession <==> e == Terminated(u.currentSession.value)
    ensures e.Terminated? && u.currentSession.value != e.sess ==> Apply(cfg, u, e) == u
  {
  }

  /** On every run, in either role, the current session is given up exactly at a termination of that
      very session; a repeated or stale termination of another changes nothing. */
  lemma SessionEndsExactlyByItsTermination(cfg: Config, events: seq<Event>, e: Event)
    requires IsRun(cfg, Init(cfg), events)
    requires Enabled(cfg, After(cfg, Init(cfg), events), e) && After(cfg, Init(cfg), events).currentSession.Some?
    ensures var u := After(cfg, Init(cfg), events);
            var u' := Apply(cfg, u, e);
            && (u'.currentSession != u.currentSession <==> e == Terminated(u.currentSession.value))
            && (e.Terminated? && u.currentSession.value != e.sess ==> u' == u)
  {
    RunKeepsInv(cfg, Init(cfg), events);
    StepEndsSessionExactly(cfg, After(cfg, Init(cfg), events), e);
  }

  // The runs joined along a sequence of events, in order.
  ghost function JoinedRuns(cfg: Config, u: Ua, events: seq<Event>): seq<nat>
    requires IsRun(cfg, u, events)
    decreases |events|
  {
    if events == [] then []
    else (if events[0].JoinDone? then [u.mediaEnd[0]] else [])
         + JoinedRuns(cfg, Apply(cfg, u, events[0]), events[1..])
  }

  ghost predicate Increasing(runs: seq<nat>) {
    forall i, j :: 0 <= i < j < |runs| ==> runs[i] < runs[j]
  }

  // The least run that can still be joined.
  ghost function NextJoin(u: Ua): int {
    if u.runs == map[] && u.mediaEnd == [] then u.started else u.started - 1
  }

  lemma StepMovesNextJoin(cfg: Config, u: Ua, e: Event)
    requires Inv(cfg, u) && Enabled(cfg, u, e)
    ensures NextJoin(u) <= NextJoin(Apply(cfg, u, e))
    ensures e.JoinDone? ==> NextJoin(u) <= u.mediaEnd[0] < NextJoin(Apply(cfg, u, e))
  {
  }

  lemma {:induction false} JoinsIncreaseFrom(cfg: Config, u: Ua, events: seq<Event>)
    requires Inv(cfg, u) && IsRun(cfg, u, events)
    ensures Increasing(JoinedRuns(cfg, u, events))
    ensures forall run :: run in JoinedRuns(cfg, u, events) ==> NextJoin(u) <= run
    decreases |events|
  {
    if events != [] {
      var u' := Apply(cfg, u, events[0]);
      StepKeepsInv(cfg, u, events[0]);
      StepMovesNextJoin(cfg, u, events[0]);
      hide Inv, Apply, Enabled;
      JoinsIncreaseFrom(cfg, u', events[1..]);
      JoinBefore(if events[0].JoinDone? then [u.mediaEnd[0]] else [], JoinedRuns(cfg, u', events[1..]), NextJoin(u), NextJoin(u'));
    }
  }

  lemma JoinBefore(first: seq<nat>, rest: seq<nat>, low: int, low': int)
    requires |first| <= 1 && low <= low' && (first != [] ==> low <= first[0] < low')
    requires Increasing(rest) && forall run :: run in rest ==> low' <= run
    ensures Increasing(first + rest) && forall run :: run in first + rest ==> low <= run
  {
    assert forall i :: 0 <= i < |rest| ==> rest[i] in rest;
  }

  /** No two joins of an agent's life consume the notification of the same run. */
  lemma JoinsAreOfDistinctRuns(cfg: Config, events: seq<Event>)
    requires IsRun(cfg, Init(cfg), events)
    ensures Increasing(JoinedRuns(cfg, Init(cfg), events))
  {
    JoinsIncreaseFrom(cfg, Init(cfg), events);
  }
}
