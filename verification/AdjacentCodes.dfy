/** Where rtc/h264reader finds an empty unit, told from the bytes of the stream alone. */
module AdjacentCodes {
  import opened AnnexB

  predicate ShortCodeAt(bytes: seq<byte>, k: int) {
    0 <= k && k + 3 <= |bytes| && bytes[k] == 0 && bytes[k + 1] == 0 && bytes[k + 2] == 1
  }

  predicate LongCodeAt(bytes: seq<byte>, k: int) {
    0 <= k && k + 4 <= |bytes| && bytes[k] == 0 && ShortCodeAt(bytes, k + 1)
  }

  /** A start code, the last three bytes of which are at k, with another start code behind it. */
  predicate Adjacent(bytes: seq<byte>, k: int) {
    ShortCodeAt(bytes, k) && (ShortCodeAt(bytes, k + 3) || LongCodeAt(bytes, k + 3))
  }

  ghost predicate SomeAdjacent(bytes: seq<byte>, from: nat) {
    exists k :: k >= from && Adjacent(bytes, k)
  }

  /** Two start codes of the stream are adjacent.  The first start code ends behind byte 3 or byte 4;
      behind a short one byte 3 is not counted, so no start code of the stream begins with it. */
  ghost predicate CodesTouch(bytes: seq<byte>) {
    exists k :: (k == 1 || k >= 4) && Adjacent(bytes, k)
  }

  // A start code ends with rest[j], where `zeros` zero bytes were counted before rest.
  predicate CodeEndsAt(zeros: nat, rest: seq<byte>, j: nat)
    requires j < |rest|
  {
    && rest[j] == 1
    && (if j >= 1 then rest[j - 1] == 0 else zeros >= 1)
    && (if j >= 2 then rest[j - 2] == 0 else zeros >= 2 - j)
  }

  predicate LongCodeEndsAt(zeros: nat, rest: seq<byte>, j: nat)
    requires j < |rest|
  {
    CodeEndsAt(zeros, rest, j) && if j >= 3 then rest[j - 3] == 0 else zeros >= 3 - j
  }

  lemma OneByteOn(zeros: nat, rest: seq<byte>, j: nat)
    requires 0 < j < |rest|
    ensures var zeros' := if rest[0] == 0 then zeros + 1 else 0;
            && (CodeEndsAt(zeros, rest, j) <==> CodeEndsAt(zeros', rest[1..], j - 1))
            && (LongCodeEndsAt(zeros, rest, j) <==> LongCodeEndsAt(zeros', rest[1..], j - 1))
  {
  }

  /** The machine stops behind the first start code that ends in rest, and cuts just that code. */
  lemma {:induction false} ScanStopsAtFirst(nal: seq<byte>, zeros: nat, rest: seq<byte>)
    requires EndsInZeros(nal, zeros)
    ensures var r := Scan(nal, zeros, rest);
            && (r.Tail? ==> forall j :: 0 <= j < |rest| ==> !CodeEndsAt(zeros, rest, j))
            && (r.Hit? ==>
                  var t := |rest| - |r.rest| - 1;
                  && CodeEndsAt(zeros, rest, t) && r.rest == rest[t + 1..]
                  && (forall j :: 0 <= j < t ==> !CodeEndsAt(zeros, rest, j))
                  && (r.long <==> LongCodeEndsAt(zeros, rest, t))
                  && |r.nal| == |nal| + t + 1 - |StartCode(r.long)|)
    decreases |rest|
  {
    if rest != [] && !(rest[0] == 1 && zeros >= 2) {
      assert !CodeEndsAt(zeros, rest, 0);
      ScanStopsAtFirst(nal + [rest[0]], if rest[0] == 0 then zeros + 1 else 0, rest[1..]);
      hide CodeEndsAt, LongCodeEndsAt, EndsInZeros;
      forall j | 0 < j < |rest|
        ensures var zeros' := if rest[0] == 0 then zeros + 1 else 0;
                && (CodeEndsAt(zeros, rest, j) <==> CodeEndsAt(zeros', rest[1..], j - 1))
                && (LongCodeEndsAt(zeros, rest, j) <==> LongCodeEndsAt(zeros', rest[1..], j - 1))
      {
        OneByteOn(zeros, rest, j);
      }
    }
  }

  ghost predicate EmptyInside(units: seq<Unit>) {
    exists i :: 0 <= i < |units| - 1 && units[i].data == []
  }

  lemma EmptyInsideTail(unit: Unit, units: seq<Unit>)
    requires units != []
    ensures EmptyInside([unit] + units) <==> unit.data == [] || EmptyInside(units)
  {
    var all := [unit] + units;
    if i :| 0 <= i < |units| - 1 && units[i].data == [] {
      assert all[i + 1].data == [];
    }
    if i :| 0 <= i < |all| - 1 && all[i].data == [] {
      assert i > 0 ==> units[i - 1].data == [];
    }
    if unit.data == [] {
      assert all[0].data == [];
    }
  }

  // Before the first start code, which ends with rest[t], no start code begins.
  lemma AdjacentAfterFirst(rest: seq<byte>, t: nat)
    requires t < |rest| && CodeEndsAt(0, rest, t) && forall j :: 0 <= j < t ==> !CodeEndsAt(0, rest, j)
    ensures var more := rest[t + 1..];
            SomeAdjacent(rest, 0) <==> ShortCodeAt(more, 0) || LongCodeAt(more, 0) || SomeAdjacent(more, 0)
  {
    var more := rest[t + 1..];
    assert ShortCodeAt(rest, t - 2);
    assert Adjacent(rest, t - 2) <==> ShortCodeAt(more, 0) || LongCodeAt(more, 0);
    if k :| k >= 0 && Adjacent(more, k) {
      assert Adjacent(rest, k + t + 1);
    }
    if k :| k >= 0 && Adjacent(rest, k) {
      assert CodeEndsAt(0, rest, k + 2);
      if k > t - 2 {
        assert k > t;
        assert Adjacent(more, k - t - 1);
      }
    }
  }

  lemma NoneAdjacent(rest: seq<byte>)
    requires forall j :: 0 <= j < |rest| ==> !CodeEndsAt(0, rest, j)
    ensures !SomeAdjacent(rest, 0) && !ShortCodeAt(rest, 0) && !LongCodeAt(rest, 0)
  {
    forall k | ShortCodeAt(rest, k)
      ensures false
    {
      assert CodeEndsAt(0, rest, k + 2);
    }
  }

  // The first unit is empty when its end code begins at once.
  lemma FirstEmpty(rest: seq<byte>)
    requires Scan([], 0, rest).Hit?
    ensures Scan([], 0, rest).nal == [] <==> ShortCodeAt(rest, 0) || LongCodeAt(rest, 0)
  {
    var r := Scan([], 0, rest);
    ScanStopsAtFirst([], 0, rest);
    var t := |rest| - |r.rest| - 1;
    assert ShortCodeAt(rest, 0) ==> CodeEndsAt(0, rest, 2);
    assert LongCodeAt(rest, 0) ==> CodeEndsAt(0, rest, 3);
  }

  lemma {:induction false} EmptyExactly(long: bool, rest: seq<byte>)
    ensures EmptyInside(Units(long, [], 0, rest)) <==> ShortCodeAt(rest, 0) || LongCodeAt(rest, 0) || SomeAdjacent(rest, 0)
    decreases |rest|
  {
    ScanStopsAtFirst([], 0, rest);
    match Scan([], 0, rest)
    case Tail(nal, _) => NoneAdjacent(rest);
    case Hit(nal, l, more) =>
      FirstEmpty(rest);
      EmptyExactly(l, more);
      EmptyInsideTail(Unit(long, nal), Units(l, [], 0, more));
      AdjacentAfterFirst(rest, |rest| - |more| - 1);
  }

  // Behind a short first code: the uncounted byte keeps the first unit from being empty.
  lemma EmptyExactlyBehindShort(b: byte, rest: seq<byte>)
    ensures EmptyInside(Units(false, [b], 0, rest)) <==> SomeAdjacent(rest, 0)
  {
    ScanStopsAtFirst([b], 0, rest);
    match Scan([b], 0, rest)
    case Tail(nal, _) => NoneAdjacent(rest);
    case Hit(nal, l, more) =>
      EmptyExactly(l, more);
      EmptyInsideTail(Unit(false, nal), Units(l, [], 0, more));
      AdjacentAfterFirst(rest, |rest| - |more| - 1);
  }

  lemma AdjacentFromFour(bytes: seq<byte>)
    requires |bytes| >= 4
    ensures SomeAdjacent(bytes[4..], 0) <==> SomeAdjacent(bytes, 4)
  {
    if k :| k >= 0 && Adjacent(bytes[4..], k) {
      assert Adjacent(bytes, k + 4);
    }
    if k :| k >= 4 && Adjacent(bytes, k) {
      assert Adjacent(bytes[4..], k - 4);
    }
  }

  /** A unit before the last is empty exactly where two start codes touch. */
  lemma EmptyUnitExactly(bytes: seq<byte>)
    requires StartsWithCode(bytes)
    ensures EmptyInside(Parse(bytes)) <==> CodesTouch(bytes)
  {
    var rest := bytes[4..];
    AdjacentFromFour(bytes);
    if bytes[..3] == StartCode(false) {
      assert bytes[2] == bytes[..3][2] == 1;
      EmptyExactlyBehindShort(bytes[3], rest);
    } else {
      assert bytes[..4] == [0, 0, 0, 1];
      assert bytes[0] == bytes[..4][0] && bytes[1] == bytes[..4][1] && bytes[2] == bytes[..4][2] && bytes[3] == bytes[..4][3];
      EmptyExactly(true, rest);
      assert ShortCodeAt(bytes, 1);
      assert ShortCodeAt(rest, 0) <==> ShortCodeAt(bytes, 4);
      assert LongCodeAt(rest, 0) <==> LongCodeAt(bytes, 4);
      assert Adjacent(bytes, 1) <==> ShortCodeAt(rest, 0) || LongCodeAt(rest, 0);
    }
  }
}
