/** The variables of main.go's uac and the parts of its loop that update them in place. */
module Dispatcher {
  import opened UserAgent
  import opened Scheduler

  // What the agents send while the dispatcher makes its k-th receive.
  function Sends(coming: seq<seq<Report>>, k: nat): seq<Report> {
    if k < |coming| then coming[k] else []
  }

  /** All they send during n receives from the k-th on. */
  function Arrived(coming: seq<seq<Report>>, k: nat, n: nat): seq<Report> {
    if n == 0 then [] else Arrived(coming, k, n - 1) + Sends(coming, k + n - 1)
  }

  /** callEndChan as its only receiver sees it: the agents go on sending, `coming` says what and when. */
  class ReportChannel {
    var items: seq<Report>
    const coming: seq<seq<Report>>
    var receives: nat

    constructor (coming: seq<seq<Report>>)
      ensures items == [] && this.coming == coming && receives == 0
    {
      items, this.coming, receives := [], coming, 0;
    }

    method Receive() returns (cr: Report)
      requires items != []
      modifies this
      ensures cr == old(items)[0] && items == old(items)[1..] + Sends(coming, old(receives))
      ensures receives == old(receives) + 1
    {
      cr := items[0];
      items := items[1..] + Sends(coming, receives);
      receives := receives + 1;
    }
  }

  class Dispatcher {
    const inCall: array<bool>
    var idleUac: int
    var startedCalls: int
    var completedCalls: int
    var okCalls: int
    var badCalls: int
    var unknownCalls: int
    var j: nat
    var details: seq<Report>

    function View(): Sched
      reads this, inCall
    {
      Sched(inCall[..], idleUac, startedCalls, completedCalls, okCalls, badCalls, unknownCalls, j, details)
    }

    constructor (maxConcurrentCalls: nat)
      ensures View() == InitSched(maxConcurrentCalls) && fresh(inCall)
    {
      inCall := new bool[maxConcurrentCalls](_ => false);
      idleUac := maxConcurrentCalls;
      startedCalls, completedCalls, okCalls, badCalls, unknownCalls := 0, 0, 0, 0, 0;
      j := 0;
      details := [];
      new;
      assert inCall[..] == InitSched(maxConcurrentCalls).inCall;
    }

    // One pass through the drain loop's body
    method AccountOne(cr: Report)
      requires cr.accountIndex < inCall.Length
      modifies this, inCall
      ensures View() == Account(old(View()), cr)
    {
      if inCall[cr.accountIndex] {
        inCall[cr.accountIndex] := false;
        idleUac := idleUac + 1;
        completedCalls := completedCalls + 1;
        details := details + [cr.(accountIndex := cr.accountIndex + 1)];
        match cr.result
        case Successful => okCalls := okCalls + 1;
        case Failed => badCalls := badCalls + 1;
        case Unknown => unknownCalls := unknownCalls + 1;
      }
    }

    /** The drain: the report received and as many more as the channel held when it began, in order.
        What arrives meanwhile stays queued. */
    method Drain(first: Report, callEndChan: ReportChannel)
      requires first.accountIndex < inCall.Length
      requires forall i :: 0 <= i < |callEndChan.items| ==> callEndChan.items[i].accountIndex < inCall.Length
      modifies this, inCall, callEndChan
      ensures View() == AccountAll(old(View()), [first] + old(callEndChan.items))
      ensures callEndChan.items == Arrived(callEndChan.coming, old(callEndChan.receives), |old(callEndChan.items)|)
    {
      ghost var coming, k := callEndChan.coming, callEndChan.receives;
      ghost var left, arrived, done := callEndChan.items, [], 0;
      ghost var goal := AccountAll(View(), [first] + left);
      var cr := first;
      var eccLen := |callEndChan.items|;
      assert left + [] == left;
      hide AccountAll, Account;
      while true
        invariant eccLen == |left| == |old(callEndChan.items)| - done
        invariant callEndChan.items == left + arrived && arrived == Arrived(coming, k, done)
        invariant callEndChan.receives == k + done
        invariant cr.accountIndex < inCall.Length
        invariant forall i :: 0 <= i < |left| ==> left[i].accountIndex < inCall.Length
        invariant AccountAll(View(), [cr] + left) == goal
        decreases eccLen
      {
        AccountFirst(View(), cr, left);
        AccountOne(cr);
        if eccLen > 0 {
          OneReceive(left, arrived, Sends(coming, callEndChan.receives));
          cr := callEndChan.Receive();
          eccLen := eccLen - 1;
          arrived := arrived + Sends(coming, k + done);
          left, done := left[1..], done + 1;
          continue;
        }
        NoneLeft(View(), left, arrived);
        break;
      }
    }

    /** The cyclic search and the start: the chosen slot is the first idle one from j. */
    method StartNext(totalCalls: int) returns (slot: nat, callIndex: int)
      requires Scheduler.Inv(View(), totalCalls) && Decide(View(), totalCalls).StartOne?
      modifies this, inCall
      ensures NextIdle(old(View()).inCall, old(j), slot) && callIndex == old(startedCalls) + 1
      ensures View() == StartOn(old(View()), slot)
      ensures Scheduler.Inv(View(), totalCalls)
    {
      ghost var before := View();
      ghost var first := SearchFinds(before, totalCalls);
      ghost var from, n := j, inCall.Length;
      while true
        invariant from <= j <= from + Dist(from, first, n)
        invariant forall x :: 0 <= x < n && Dist(from, x, n) < j - from ==> inCall[x]
        invariant View() == before.(cursor := j)
        decreases from + Dist(from, first, n) - j
      {
        AtDistance(from, j - from, n);
        if !inCall[j % inCall.Length] {
          break;
        }
        j := j + 1;
      }
      slot := j % inCall.Length;
      callIndex := startedCalls + 1;
      inCall[slot] := true;
      idleUac := idleUac - 1;
      startedCalls := startedCalls + 1;
      AfterSlot(j, n);
      j := j + 1;
      j := j % inCall.Length;
      assert inCall[..] == before.inCall[slot := true];
      StartKeepsInv(before, totalCalls, slot);
    }

    // The select: a report, if there is one, and then the drain
    method TakeReports(callEndChan: ReportChannel)
      requires forall i :: 0 <= i < |Waiting(callEndChan)| ==> Waiting(callEndChan)[i].accountIndex < inCall.Length
      modifies this, inCall, callEndChan
      ensures View() == AccountAll(old(View()), old(Waiting(callEndChan)))
      ensures callEndChan.items == LeftBehind(callEndChan.coming, old(callEndChan.receives), |old(Waiting(callEndChan))|)
    {
      if |callEndChan.items| > 0 {
        ReceivedFirst(callEndChan.items, Sends(callEndChan.coming, callEndChan.receives));
        ghost var waiting := Waiting(callEndChan);
        var cr := callEndChan.Receive();
        assert cr == waiting[0];
        Drain(cr, callEndChan);
      }
    }

    /** One pass of the main loop that is not cancelled: the reports there are once one was received,
        then the decision, and a start where it says so.  It never leaves with a call under way. */
    method Pass(callEndChan: ReportChannel, totalCalls: int) returns (verdict: Verdict, slot: nat, callIndex: int)
      requires Scheduler.Inv(View(), totalCalls)
      requires forall i :: 0 <= i < |Waiting(callEndChan)| ==> Waiting(callEndChan)[i].accountIndex < inCall.Length
      modifies this, inCall, callEndChan
      ensures Scheduler.Inv(View(), totalCalls)
      ensures callEndChan.items == LeftBehind(callEndChan.coming, old(callEndChan.receives), |old(Waiting(callEndChan))|)
      ensures var d := AccountAll(old(View()), old(Waiting(callEndChan)));
              && verdict == Decide(d, totalCalls)
              && if verdict.StartOne?
                 then NextIdle(d.inCall, d.cursor, slot) && callIndex == d.started + 1 && View() == StartOn(d, slot)
                 else View() == d
      ensures verdict.AllCompleted? ==> startedCalls == completedCalls == totalCalls
      ensures verdict.AllCompleted? ==> forall i :: 0 <= i < inCall.Length ==> !inCall[i]
    {
      slot, callIndex := 0, 0;
      DrainKeepsInv(View(), totalCalls, Waiting(callEndChan));
      TakeReports(callEndChan);
      if totalCalls > 0 && completedCalls >= totalCalls {
        verdict := AllCompleted;
        AllCompletedMeansAll(View(), totalCalls);
        assert forall i :: 0 <= i < inCall.Length ==> inCall[i] == View().inCall[i];
      } else if totalCalls > 0 && startedCalls >= totalCalls {
        verdict := Wait;
      } else if idleUac == 0 {
        verdict := Wait;
      } else {
        verdict := StartOne;
        slot, callIndex := StartNext(totalCalls);
      }
    }
  }

  // What a pass accounts for: the queue at its first receive, and what comes during that receive.
  function Waiting(callEndChan: ReportChannel): seq<Report>
    reads callEndChan
  {
    if callEndChan.items == [] then []
    else callEndChan.items + Sends(callEndChan.coming, callEndChan.receives)
  }

  // What comes too late for a pass that takes `taken` reports: all that is sent behind its first receive.
  function LeftBehind(coming: seq<seq<Report>>, receives: nat, taken: nat): seq<Report> {
    if taken == 0 then [] else Arrived(coming, receives + 1, taken - 1)
  }

  lemma ReceivedFirst(reports: seq<Report>, more: seq<Report>)
    requires reports != []
    ensures [reports[0]] + (reports[1..] + more) == reports + more
    ensures forall i :: 0 <= i < |reports[1..] + more| ==> (reports[1..] + more)[i] == (reports + more)[i + 1]
  {
  }

  lemma AccountFirst(d: Sched, cr: Report, left: seq<Report>)
    requires cr.accountIndex < |d.inCall| && forall i :: 0 <= i < |left| ==> left[i].accountIndex < |d.inCall|
    ensures |Account(d, cr).inCall| == |d.inCall|
    ensures forall i :: 0 <= i < |[cr] + left| ==> ([cr] + left)[i].accountIndex < |d.inCall|
    ensures AccountAll(d, [cr] + left) == AccountAll(Account(d, cr), left)
  {
    assert ([cr] + left)[1..] == left;
  }

  lemma NoneLeft(d: Sched, left: seq<Report>, arrived: seq<Report>)
    requires left == []
    ensures AccountAll(d, left) == d && left + arrived == arrived
  {
  }

  lemma OneReceive(left: seq<Report>, arrived: seq<Report>, more: seq<Report>)
    requires left != []
    ensures (left + arrived)[0] == left[0]
    ensures (left + arrived)[1..] + more == left[1..] + (arrived + more)
    ensures [left[0]] + left[1..] == left
  {
  }

  lemma AtDistance(from: nat, d: nat, n: nat)
    requires from < n && d < n
    ensures (from + d) % n < n && Dist(from, (from + d) % n, n) == d
    ensures forall x :: 0 <= x < n && Dist(from, x, n) == d ==> x == (from + d) % n
  {
    ModSmall(from + d, n);
  }

  // The remainder without a division.
  lemma ModSmall(a: nat, n: nat)
    requires a < 2 * n
    ensures a % n == if a < n then a else a - n
  {
    if a >= n {
      ModOnce(a, n);
    }
  }

  lemma ModOnce(a: nat, n: nat)
    requires n <= a < 2 * n
    ensures a % n == a - n
  {
    assert a == n * 1 + (a - n);
  }

  lemma AfterSlot(j: nat, n: nat)
    requires 0 < n && j < 2 * n
    ensures (j + 1) % n == if j % n + 1 == n then 0 else j % n + 1
  {
    ModSmall(j, n);
    if j + 1 == 2 * n {
      assert j + 1 == n * 2 + 0;
    } else {
      ModSmall(j + 1, n);
    }
  }
}
