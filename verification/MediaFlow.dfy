/** The way through MediaFunc of rtc/media.go: where it waits, sends and returns.  The phases of a
    media run in `UserAgent` are what is left of it for the agent. */
module MediaFlow {
  import opened Wrappers
  import opened UserAgent

  /** Where the function is; Returning is a return on its way through the deferred notification. */
  datatype At =
    | Entry                      // rtc/media.go:59
    | AwaitingOffer              // :76
    | SettingUp                  // :134
    | Negotiating                // :578, :654
    | AwaitingIce                // :587, :677
    | SendingSdp                 // :614, :704
    | AwaitingAnswer             // :618
    | Streaming                  // :710
    | Returning(sent: bool)      // :52-57
    | Done(sent: bool)

  datatype Action = Internal | SendsSdp | Notifies

  /** One step.  An error, the end of the context and an unexpected description all return. */
  predicate Step(role: Role, a: At, action: Action, b: At) {
    match a
    case Entry => action.Internal? && b == if role.Uac? then SettingUp else AwaitingOffer
    case AwaitingOffer => action.Internal? && (b == SettingUp || b == Returning(false))
    case SettingUp => action.Internal? && (b == Negotiating || b == Returning(false))
    case Negotiating => action.Internal? && (b == AwaitingIce || b == Returning(false))
    case AwaitingIce => action.Internal? && (b == SendingSdp || b == Returning(false))
    case SendingSdp => action.SendsSdp? && b == if role.Uac? then AwaitingAnswer else Streaming
    case AwaitingAnswer => action.Internal? && (b == AwaitingAnswer || b == Streaming || b == Returning(true))
    case Streaming => action.Internal? && b == Returning(true)
    case Returning(sent) => action.Notifies? && b == Done(sent)
    case Done(_) => false
  }

  datatype Move = Move(action: Action, to: At)

  ghost predicate IsPath(role: Role, a: At, path: seq<Move>)
    decreases |path|
  {
    path == [] || (Step(role, a, path[0].action, path[0].to) && IsPath(role, path[0].to, path[1..]))
  }

  function EndOf(a: At, path: seq<Move>): At {
    if path == [] then a else path[|path| - 1].to
  }

  function CountOf(path: seq<Move>, action: Action): nat {
    if path == [] then 0 else (if path[0].action == action then 1 else 0) + CountOf(path[1..], action)
  }

  predicate HasSent(a: At) {
    a.AwaitingAnswer? || a.Streaming? || ((a.Returning? || a.Done?) && a.sent)
  }

  lemma {:induction false} CountsFrom(role: Role, a: At, path: seq<Move>)
    requires IsPath(role, a, path)
    ensures var b := EndOf(a, path);
            && CountOf(path, SendsSdp) == (if HasSent(b) && !HasSent(a) then 1 else 0)
            && CountOf(path, Notifies) == (if b.Done? && !a.Done? then 1 else 0)
            && (HasSent(a) ==> HasSent(b)) && (a.Done? ==> path == [])
    decreases |path|
  {
    if path != [] {
      CountsFrom(role, path[0].to, path[1..]);
      assert EndOf(a, path) == EndOf(path[0].to, path[1..]);
    }
  }

  /** Whatever happens in between, a run of MediaFunc sends at most one local description, and one end
      notification when it is done, as the last thing it does, and none before. */
  lemma OneDescriptionOneNotification(role: Role, path: seq<Move>)
    requires IsPath(role, Entry, path)
    ensures CountOf(path, SendsSdp) <= 1
    ensures CountOf(path, Notifies) == if EndOf(Entry, path).Done? then 1 else 0
    ensures EndOf(Entry, path).Done? ==> path[|path| - 1].action.Notifies?
  {
    CountsFrom(role, Entry, path);
    if path != [] {
      var _ := LastStep(role, Entry, path);
    }
  }

  lemma {:induction false} LastStep(role: Role, a: At, path: seq<Move>) returns (from: At)
    requires IsPath(role, a, path) && path != []
    ensures Step(role, from, path[|path| - 1].action, path[|path| - 1].to)
    decreases |path|
  {
    if |path| > 1 {
      from := LastStep(role, path[0].to, path[1..]);
    } else {
      from := a;
    }
  }

  /* ---------- the phases of a run ---------- */

  function PhaseAt(a: At): RunPhase {
    if a.SendingSdp? then Sending else if HasSent(a) then Sent else Preparing
  }

  /** The run of an agent is where the function is. */
  ghost predicate RunIsAt(u: Ua, run: nat, a: At) {
    if a.Done? then run !in u.runs else run in u.runs && u.runs[run] == PhaseAt(a)
  }

  /** What the agent sees of a step. */
  function Seen(run: nat, action: Action, b: At): seq<Event> {
    if action.SendsSdp? then [RunSends(run)]
    else if action.Notifies? then [RunEnds(run)]
    else if b.SendingSdp? then [RunCommits(run)]
    else []
  }

  /** Every step of the function that finds room in its channel is a step of the run. */
  lemma StepIsPhaseStep(cfg: Config, u: Ua, run: nat, a: At, action: Action, b: At)
    requires Step(cfg.role, a, action, b) && RunIsAt(u, run, a)
    requires action.SendsSdp? ==> |u.sdpFromMedia| < CAPACITY
    requires action.Notifies? ==> |u.mediaEnd| < CAPACITY
    ensures IsRun(cfg, u, Seen(run, action, b))
    ensures RunIsAt(After(cfg, u, Seen(run, action, b)), run, b)
  {
    var seen := Seen(run, action, b);
    if seen != [] {
      assert seen[1..] == [];
    }
  }

  lemma {:induction false} PathThenMove(role: Role, a: At, path: seq<Move>, m: Move)
    requires IsPath(role, a, path) && Step(role, EndOf(a, path), m.action, m.to)
    ensures IsPath(role, a, path + [m])
    decreases |path|
  {
    if path != [] {
      PathThenMove(role, path[0].to, path[1..], m);
      assert (path + [m])[1..] == path[1..] + [m];
      assert EndOf(a, path) == EndOf(path[0].to, path[1..]);
    }
  }

  lemma Goes(role: Role, path: seq<Move>, m: Move) returns (path': seq<Move>)
    requires IsPath(role, Entry, path) && Step(role, EndOf(Entry, path), m.action, m.to)
    ensures IsPath(role, Entry, path') && EndOf(Entry, path') == m.to && path' == path + [m]
  {
    PathThenMove(role, Entry, path, m);
    path' := path + [m];
  }

  // Somewhere on its way the function is in each phase.
  lemma PlaceIsReached(role: Role, phase: RunPhase) returns (path: seq<Move>)
    ensures IsPath(role, Entry, path) && PhaseAt(EndOf(Entry, path)) == phase
    ensures phase.Preparing? ==> EndOf(Entry, path) == AwaitingIce
    ensures phase.Sending? ==> EndOf(Entry, path) == SendingSdp
    ensures phase.Sent? ==> EndOf(Entry, path) == if role.Uac? then AwaitingAnswer else Streaming
  {
    path := [];
    if role.Uas? {
      path := Goes(role, path, Move(Internal, AwaitingOffer));
    }
    path := Goes(role, path, Move(Internal, SettingUp));
    path := Goes(role, path, Move(Internal, Negotiating));
    path := Goes(role, path, Move(Internal, AwaitingIce));
    if phase.Preparing? {
      return;
    }
    path := Goes(role, path, Move(Internal, SendingSdp));
    if phase.Sending? {
      return;
    }
    path := Goes(role, path, Move(SendsSdp, if role.Uac? then AwaitingAnswer else Streaming));
  }

  /** And every event of a run is a step of the function somewhere on its way: the phases add nothing
      that the function does not do. */
  lemma PhaseStepIsStep(cfg: Config, u: Ua, run: nat, e: Event) returns (path: seq<Move>, m: Move)
    requires e == RunCommits(run) || e == RunSends(run) || e == RunEnds(run)
    requires Enabled(cfg, u, e)
    ensures IsPath(cfg.role, Entry, path) && RunIsAt(u, run, EndOf(Entry, path))
    ensures Step(cfg.role, EndOf(Entry, path), m.action, m.to) && Seen(run, m.action, m.to) == [e]
  {
    var phase := u.runs[run];
    path := PlaceIsReached(cfg.role, phase);
    match e
    case RunCommits(_) => m := Move(Internal, SendingSdp);
    case RunSends(_) => m := Move(SendsSdp, if cfg.role.Uac? then AwaitingAnswer else Streaming);
    case RunEnds(_) =>
      if phase.Sent? && cfg.role.Uac? {
        path := Goes(cfg.role, path, Move(Internal, Streaming));
      }
      path := Goes(cfg.role, path, Move(Internal, Returning(phase.Sent?)));
      m := Move(Notifies, Done(phase.Sent?));
  }
}
