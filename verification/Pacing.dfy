/** The wall clock of rtc/util.go that paces the ingester: after every batch it says how long to
    sleep so that the samples sent do not run ahead of the time they stand for.  Times are in
    nanoseconds; the clock is a parameter. */
module Pacing {

  const TOLERANCE: int := 30_000_000

  class WallClock {
    const start: int
    var duration: int

    constructor (now: int)
      ensures start == now && duration == 0
    {
      start, duration := now, 0;
    }

    method Tick(d: int, now: int) returns (pause: int)
      modifies this
      ensures duration == old(duration) + d
      ensures pause == Pause(duration - (now - start))
    {
      duration := duration + d;
      var wc := now - start;
      var re := duration - wc;
      if re > TOLERANCE {
        return re;
      }
      return 0;
    }
  }

  /** How long to sleep with this much more sent than time has passed. */
  function Pause(lead: int): int {
    if lead > TOLERANCE then lead else 0
  }

  /** The times of successive ticks of length d: each comes after the pause the tick before asked
      for, or later. */
  ghost predicate Paced(start: int, d: nat, times: seq<int>) {
    && (times != [] ==> start <= times[0])
    && forall k :: 0 <= k < |times| - 1 ==> times[k] + Pause(Sent(d, k + 1) - (times[k] - start)) <= times[k + 1]
  }

  // What k ticks stand for.
  function Sent(d: nat, k: nat): nat {
    if k == 0 then 0 else Sent(d, k - 1) + d
  }

  /** A pause is asked for exactly when the lead is over 30 ms, and it takes up the whole lead. */
  lemma PauseCatchesUp(lead: int)
    ensures Pause(lead) > 0 <==> lead > 30_000_000
    ensures lead - Pause(lead) == if lead > 30_000_000 then 0 else lead
  {
  }

  /** Slept exactly as told, every tick leaves the sender level with the clock or within 30 ms of it. */
  lemma ExactSleep(start: int, d: nat, times: seq<int>, k: nat)
    requires Paced(start, d, times) && k < |times| - 1
    requires times[k + 1] == times[k] + Pause(Sent(d, k + 1) - (times[k] - start))
    ensures var lead := Sent(d, k + 1) - (times[k] - start);
            Sent(d, k + 1) - (times[k + 1] - start) == if lead > TOLERANCE then 0 else lead
  {
  }

  /** At every tick of every run the sender is at most 30 ms ahead of the clock, so no pause is
      longer than one tick and 30 ms. */
  lemma {:induction false} NeverFarAhead(start: int, d: nat, times: seq<int>, k: nat)
    requires Paced(start, d, times) && k < |times|
    ensures Sent(d, k) - (times[k] - start) <= TOLERANCE
    ensures Pause(Sent(d, k + 1) - (times[k] - start)) <= d + TOLERANCE
  {
    if k > 0 {
      NeverFarAhead(start, d, times, k - 1);
    }
  }
}
