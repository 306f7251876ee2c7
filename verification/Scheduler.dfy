/** The variables of main.go's uac loop as a value, what one report and one start do to them, and
    the laws they obey. */
module Scheduler {
  import opened UserAgent

  datatype Sched = Sched(
    inCall: seq<bool>,
    idleUac: int,
    started: int, completed: int,
    ok: int, bad: int, unknown: int,
    cursor: nat,            // j between two rounds of the loop
    details: seq<Report>)   // the call details written, in order

  datatype Verdict = AllCompleted | Wait | StartOne

  function InitSched(slots: nat): Sched {
    Sched(seq(slots, _ => false), slots, 0, 0, 0, 0, 0, 0, [])
  }

  /** One report taken from callEndChan (main.go:143-167). */
  function Account(d: Sched, cr: Report): Sched
    requires cr.accountIndex < |d.inCall|
  {
    if !d.inCall[cr.accountIndex] then d
    else d.(inCall := d.inCall[cr.accountIndex := false],
            idleUac := d.idleUac + 1,
            completed := d.completed + 1,
            details := d.details + [Detail(cr)],
            ok := d.ok + (if cr.result.Successful? then 1 else 0),
            bad := d.bad + (if cr.result.Failed? then 1 else 0),
            unknown := d.unknown + (if cr.result.Unknown? then 1 else 0))
  }

  function AccountAll(d: Sched, reports: seq<Report>): (d': Sched)
    requires forall i :: 0 <= i < |reports| ==> reports[i].accountIndex < |d.inCall|
    ensures |d'.inCall| == |d.inCall| && d'.cursor == d.cursor && d'.started == d.started
    decreases |reports|
  {
    if reports == [] then d else AccountAll(Account(d, reports[0]), reports[1..])
  }

  /** Whether to leave, to sleep or to start a call (main.go:178-198). */
  function Decide(d: Sched, totalCalls: int): Verdict {
    if totalCalls > 0 && d.completed >= totalCalls then AllCompleted
    else if totalCalls > 0 && d.started >= totalCalls then Wait
    else if d.idleUac == 0 then Wait
    else StartOne
  }

  /** How far slot k is from j going round n slots. */
  function Dist(j: nat, k: nat, n: nat): nat
    requires j < n && k < n
  {
    if k >= j then k - j else k + n - j
  }

  /** k is the idle slot a search from j reaches first. */
  ghost predicate NextIdle(inCall: seq<bool>, j: nat, k: nat) {
    && j < |inCall| && k < |inCall| && !inCall[k]
    && forall x :: 0 <= x < |inCall| && Dist(j, x, |inCall|) < Dist(j, k, |inCall|) ==> inCall[x]
  }

  /** Starting the next call on slot k (main.go:206-211). */
  function StartOn(d: Sched, k: nat): Sched
    requires k < |d.inCall|
  {
    d.(inCall := d.inCall[k := true],
       idleUac := d.idleUac - 1,
       started := d.started + 1,
       cursor := if k + 1 == |d.inCall| then 0 else k + 1)
  }

  /* ---------- laws ---------- */

  function Count(flags: seq<bool>, flag: bool): nat {
    if flags == [] then 0 else (if flags[0] == flag then 1 else 0) + Count(flags[1..], flag)
  }

  /** How many of the calls written had this result. */
  function WithResult(details: seq<Report>, result: CallResult): nat {
    if details == [] then 0
    else WithResult(details[..|details| - 1], result) + if details[|details| - 1].result == result then 1 else 0
  }

  lemma OneMoreResult(details: seq<Report>, cr: Report, result: CallResult)
    ensures WithResult(details + [cr], result) == WithResult(details, result) + if cr.result == result then 1 else 0
  {
    assert (details + [cr])[..|details|] == details;
  }

  ghost predicate Inv(d: Sched, totalCalls: int) {
    && d.cursor < |d.inCall|
    && d.idleUac == Count(d.inCall, false)
    && d.started - d.completed == Count(d.inCall, true)
    && d.ok + d.bad + d.unknown == d.completed == |d.details|
    && d.ok == WithResult(d.details, Successful)
    && d.bad == WithResult(d.details, Failed)
    && d.unknown == WithResult(d.details, Unknown)
    && (totalCalls > 0 ==> d.started <= totalCalls)
  }

  lemma {:induction false} CountUpdate(flags: seq<bool>, i: nat, flag: bool)
    requires i < |flags| && flags[i] != flag
    ensures Count(flags[i := flag], flag) == Count(flags, flag) + 1
    ensures Count(flags[i := flag], !flag) == Count(flags, !flag) - 1
  {
    if i > 0 {
      CountUpdate(flags[1..], i - 1, flag);
      assert flags[i := flag][1..] == flags[1..][i - 1 := flag];
    } else {
      assert flags[i := flag][1..] == flags[1..];
    }
  }

  lemma {:induction false} CountBoth(flags: seq<bool>)
    ensures Count(flags, true) + Count(flags, false) == |flags|
    ensures Count(flags, false) == 0 <==> forall i :: 0 <= i < |flags| ==> flags[i]
  {
    if flags != [] {
      CountBoth(flags[1..]);
      assert forall i :: 0 < i < |flags| ==> flags[i] == flags[1..][i - 1];
      if forall i :: 0 <= i < |flags| ==> flags[i] {
        assert forall i :: 0 <= i < |flags[1..]| ==> flags[1..][i];
      }
    }
  }

  lemma {:induction false} CountAllIdle(n: nat)
    ensures Count(seq(n, _ => false), true) == 0
  {
    if n > 0 {
      CountAllIdle(n - 1);
      assert seq(n, _ => false)[1..] == seq(n - 1, _ => false);
    }
  }

  lemma InitInv(slots: nat, totalCalls: int)
    requires slots > 0
    ensures Inv(InitSched(slots), totalCalls)
  {
    CountAllIdle(slots);
    CountBoth(InitSched(slots).inCall);
  }

  /** A report of a busy slot keeps the laws and frees the slot; the code's other branch changes nothing. */
  lemma AccountKeepsInv(d: Sched, totalCalls: int, cr: Report)
    requires Inv(d, totalCalls) && cr.accountIndex < |d.inCall|
    ensures Inv(Account(d, cr), totalCalls)
    ensures d.inCall[cr.accountIndex] ==> Account(d, cr).completed == d.completed + 1 <= d.started
  {
    if d.inCall[cr.accountIndex] {
      CountUpdate(d.inCall, cr.accountIndex, false);
      OneMoreResult(d.details, Detail(cr), Successful);
      OneMoreResult(d.details, Detail(cr), Failed);
      OneMoreResult(d.details, Detail(cr), Unknown);
    }
  }

  /** Whatever reports come in, draining keeps the laws. */
  lemma {:induction false} DrainKeepsInv(d: Sched, totalCalls: int, reports: seq<Report>)
    requires Inv(d, totalCalls)
    requires forall i :: 0 <= i < |reports| ==> reports[i].accountIndex < |d.inCall|
    ensures Inv(AccountAll(d, reports), totalCalls)
    decreases |reports|
  {
    if reports != [] {
      AccountKeepsInv(d, totalCalls, reports[0]);
      DrainKeepsInv(Account(d, reports[0]), totalCalls, reports[1..]);
    }
  }

  /** Draining reports of distinct busy slots frees those slots and no other. */
  lemma {:induction false} DrainFreesReported(d: Sched, reports: seq<Report>)
    requires forall i :: 0 <= i < |reports| ==>
               reports[i].accountIndex < |d.inCall| && d.inCall[reports[i].accountIndex]
    requires forall i, j :: 0 <= i < j < |reports| ==> reports[i].accountIndex != reports[j].accountIndex
    ensures var d' := AccountAll(d, reports);
            && (forall a :: 0 <= a < |d.inCall| ==>
                  (d'.inCall[a] <==> d.inCall[a] && forall i :: 0 <= i < |reports| ==> reports[i].accountIndex != a))
            && d'.completed == d.completed + |reports| && d'.idleUac == d.idleUac + |reports|
    decreases |reports|
  {
    if reports != [] {
      var rest, d1 := reports[1..], Account(d, reports[0]);
      assert forall i :: 0 <= i < |rest| ==> rest[i] == reports[i + 1];
      DrainFreesReported(d1, rest);
      assert forall i :: 0 < i < |reports| ==> reports[i] == rest[i - 1];
    }
  }

  /** What is written of a report: accounts are counted from 1 there. */
  function Detail(cr: Report): Report {
    cr.(accountIndex := cr.accountIndex + 1)
  }

  /** It writes them in the order received. */
  lemma {:induction false} DrainWritesInOrder(d: Sched, reports: seq<Report>)
    requires forall i :: 0 <= i < |reports| ==>
               reports[i].accountIndex < |d.inCall| && d.inCall[reports[i].accountIndex]
    requires forall i, j :: 0 <= i < j < |reports| ==> reports[i].accountIndex != reports[j].accountIndex
    ensures AccountAll(d, reports).details
         == d.details + seq(|reports|, i requires 0 <= i < |reports| => reports[i].(accountIndex := reports[i].accountIndex + 1))
    decreases |reports|
  {
    if reports != [] {
      var rest, d1 := reports[1..], Account(d, reports[0]);
      assert forall i :: 0 <= i < |rest| ==> rest[i] == reports[i + 1];
      DrainWritesInOrder(d1, rest);
    }
  }

  lemma StartKeepsInv(d: Sched, totalCalls: int, k: nat)
    requires Inv(d, totalCalls) && Decide(d, totalCalls).StartOne? && NextIdle(d.inCall, d.cursor, k)
    ensures Inv(StartOn(d, k), totalCalls)
  {
    CountUpdate(d.inCall, k, true);
  }

  /** What the loop decides between, told from the calls and the slots: it leaves when all calls wanted
      are completed, and starts one exactly when one is wanted and a slot is idle. */
  lemma DecidesExactly(d: Sched, totalCalls: int)
    requires Inv(d, totalCalls)
    ensures var wanted := totalCalls <= 0 || |d.details| < totalCalls;
            var startable := totalCalls <= 0 || d.started < totalCalls;
            && (Decide(d, totalCalls) == AllCompleted <==> !wanted)
            && (Decide(d, totalCalls) == StartOne <==> startable && exists k :: 0 <= k < |d.inCall| && !d.inCall[k])
  {
    CountBoth(d.inCall);
  }

  /** The loop leaves with every started call completed and accounted for. */
  lemma AllCompletedMeansAll(d: Sched, totalCalls: int)
    requires Inv(d, totalCalls) && Decide(d, totalCalls).AllCompleted?
    ensures d.ok + d.bad + d.unknown == d.completed == d.started == totalCalls
    ensures forall i :: 0 <= i < |d.inCall| ==> !d.inCall[i]
  {
    CountBoth(d.inCall);
    if exists i :: 0 <= i < |d.inCall| && d.inCall[i] {
      var i :| 0 <= i < |d.inCall| && d.inCall[i];
      CountUpdate(d.inCall, i, false);
    }
  }

  /** When the loop decides to start a call there is an idle slot to find, and just one is first. */
  lemma SearchFinds(d: Sched, totalCalls: int) returns (k: nat)
    requires Inv(d, totalCalls) && Decide(d, totalCalls).StartOne?
    ensures NextIdle(d.inCall, d.cursor, k)
    ensures forall k' :: NextIdle(d.inCall, d.cursor, k') ==> k' == k
  {
    CountBoth(d.inCall);
    var n := |d.inCall|;
    k :| 0 <= k < n && !d.inCall[k];
    while exists x :: 0 <= x < n && !d.inCall[x] && Dist(d.cursor, x, n) < Dist(d.cursor, k, n)
      invariant k < n && !d.inCall[k]
      decreases Dist(d.cursor, k, n)
    {
      var x :| 0 <= x < n && !d.inCall[x] && Dist(d.cursor, x, n) < Dist(d.cursor, k, n);
      k := x;
    }
  }

  /** Fairness, one start: a slot that is idle and passed over comes nearer by at least one. */
  lemma PassedOverComesNearer(d: Sched, k: nat, m: nat)
    requires NextIdle(d.inCall, d.cursor, k) && m < |d.inCall| && m != k && !d.inCall[m]
    ensures Dist(StartOn(d, k).cursor, m, |d.inCall|) < Dist(d.cursor, m, |d.inCall|)
  {
    assert Dist(d.cursor, k, |d.inCall|) <= Dist(d.cursor, m, |d.inCall|);
  }
}
