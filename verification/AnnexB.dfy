/** The byte stream format of Annex B of ITU-T H.264 as rtc/h264reader cuts it: a sequence of NAL
    units, each behind a start code of three or four bytes, and the byte machine that finds them. */
module AnnexB {

  type byte = b: int | 0 <= b < 256

  datatype Unit = Unit(long: bool, data: seq<byte>)

  function StartCode(long: bool): seq<byte> {
    if long then [0, 0, 0, 1] else [0, 0, 1]
  }

  function Serialize(units: seq<Unit>): seq<byte> {
    if units == [] then [] else StartCode(units[0].long) + units[0].data + Serialize(units[1..])
  }

  /* ---------- the machine ---------- */

  predicate EndsInZeros(nal: seq<byte>, zeros: nat) {
    zeros <= |nal| && forall i :: |nal| - zeros <= i < |nal| ==> nal[i] == 0
  }

  datatype Scanned =
    | Hit(nal: seq<byte>, long: bool, rest: seq<byte>)  // ended by a start code
    | Tail(nal: seq<byte>, zeros: nat)                  // ended by the end of the stream

  /** Reads on from a NAL begun as `nal`, with `zeros` zero bytes counted at its end
      (rtc/h264reader/h264reader.go:123-144, 157-181). */
  function Scan(nal: seq<byte>, zeros: nat, rest: seq<byte>): (r: Scanned)
    requires EndsInZeros(nal, zeros)
    ensures r.Hit? ==> |r.rest| < |rest|
    ensures r.Tail? ==> r.nal == nal + rest
    decreases |rest|
  {
    if rest == [] then Tail(nal, zeros)
    else if rest[0] == 1 && zeros >= 2 then
      Hit(nal[..|nal| - (if zeros > 2 then 3 else 2)], zeros > 2, rest[1..])
    else
      Scan(nal + [rest[0]], if rest[0] == 0 then zeros + 1 else 0, rest[1..])
  }

  /** All units of a stream whose first start code has been read. */
  function Units(long: bool, nal: seq<byte>, zeros: nat, rest: seq<byte>): (units: seq<Unit>)
    requires EndsInZeros(nal, zeros)
    ensures units != []
    decreases |rest|
  {
    match Scan(nal, zeros, rest)
    case Tail(n, _) => [Unit(long, n)]
    case Hit(n, l, r) => [Unit(long, n)] + Units(l, [], 0, r)
  }

  predicate StartsWithCode(bytes: seq<byte>) {
    |bytes| >= 4 && (bytes[..3] == StartCode(false) || bytes[..4] == StartCode(true))
  }

  /** The fourth byte after a short first start code enters the NAL uncounted
      (rtc/h264reader/h264reader.go:98-100). */
  function Parse(bytes: seq<byte>): seq<Unit>
    requires StartsWithCode(bytes)
  {
    if bytes[..3] == StartCode(false) then Units(false, [bytes[3]], 0, bytes[4..]) else Units(true, [], 0, bytes[4..])
  }

  /* ---------- cutting loses nothing ---------- */

  lemma {:induction false} ScanLosesNothing(nal: seq<byte>, zeros: nat, rest: seq<byte>)
    requires EndsInZeros(nal, zeros)
    ensures var r := Scan(nal, zeros, rest);
            r.Hit? ==> r.nal + StartCode(r.long) + r.rest == nal + rest
    decreases |rest|
  {
    if rest == [] {
    } else if rest[0] == 1 && zeros >= 2 {
      var long := zeros > 2;
      var cut := |nal| - (if long then 3 else 2);
      assert nal[cut..] + [1] == StartCode(long);
      assert nal + rest == nal[..cut] + (nal[cut..] + [1]) + rest[1..];
    } else {
      ScanLosesNothing(nal + [rest[0]], if rest[0] == 0 then zeros + 1 else 0, rest[1..]);
      assert nal + [rest[0]] + rest[1..] == nal + rest;
    }
  }

  lemma Assoc(a: seq<byte>, b: seq<byte>, c: seq<byte>)
    ensures (a + b) + c == a + (b + c)
  {
  }

  lemma {:induction false} UnitsLoseNothing(long: bool, nal: seq<byte>, zeros: nat, rest: seq<byte>)
    requires EndsInZeros(nal, zeros)
    ensures Serialize(Units(long, nal, zeros, rest)) == StartCode(long) + (nal + rest)
    decreases |rest|
  {
    var code := StartCode(long);
    match Scan(nal, zeros, rest)
    case Tail(n, _) =>
      assert Serialize([Unit(long, n)]) == code + n + [];
    case Hit(n, l, r) =>
      ScanLosesNothing(nal, zeros, rest);
      UnitsLoseNothing(l, [], 0, r);
      assert [] + r == r;
      assert ([Unit(long, n)] + Units(l, [], 0, r))[1..] == Units(l, [], 0, r);
      assert Serialize(Units(long, nal, zeros, rest)) == code + n + (StartCode(l) + r);
      Assoc(code, n, StartCode(l) + r);
      Assoc(n, StartCode(l), r);
  }

  /** Segmentation is lossless: the units found, written back behind the start codes found, are the
      stream, byte for byte, for every stream that begins with a start code. */
  lemma ParseIsLossless(bytes: seq<byte>)
    requires StartsWithCode(bytes)
    ensures Serialize(Parse(bytes)) == bytes
  {
    if bytes[..3] == StartCode(false) {
      UnitsLoseNothing(false, [bytes[3]], 0, bytes[4..]);
      assert bytes == bytes[..3] + ([bytes[3]] + bytes[4..]);
    } else {
      UnitsLoseNothing(true, [], 0, bytes[4..]);
      assert bytes == bytes[..4] + ([] + bytes[4..]);
    }
  }

  /* ---------- and finds exactly the units that were written ---------- */

  predicate CodeAt(data: seq<byte>, i: nat) {
    i + 2 < |data| && data[i] == 0 && data[i + 1] == 0 && data[i + 2] <= 1
  }

  /** A NAL unit as section 7.4.1 of ITU-T H.264 allows it: not empty, no 00 00 00 or 00 00 01
      inside, no zero byte at the end. */
  predicate ValidNal(data: seq<byte>) {
    data != [] && data[|data| - 1] != 0 && forall i :: 0 <= i < |data| ==> !CodeAt(data, i)
  }

  // The scan runs through the rest of a valid NAL without stopping.
  lemma {:induction false} ScanThrough(data: seq<byte>, at: nat, zeros: nat, more: seq<byte>)
    requires ValidNal(data) && at <= |data| && EndsInZeros(data[..at], zeros)
    ensures EndsInZeros(data, 0)
    ensures Scan(data[..at], zeros, data[at..] + more) == Scan(data, 0, more)
    decreases |data| - at
  {
    if at == |data| {
      assert data[..at] == data && data[at..] + more == more;
      assert data[..at][|data| - 1] != 0;
    } else {
      var rest := data[at..] + more;
      assert rest[0] == data[at] && rest[1..] == data[at + 1..] + more;
      assert data[..at] + [data[at]] == data[..at + 1];
      if at >= 2 {
        assert !CodeAt(data, at - 2);
        assert data[..at][at - 1] == data[at - 1] && data[..at][at - 2] == data[at - 2];
      }
      var zeros' := if data[at] == 0 then zeros + 1 else 0;
      assert EndsInZeros(data[..at + 1], zeros') by {
        assert forall i :: 0 <= i < at ==> data[..at + 1][i] == data[..at][i];
      }
      ScanThrough(data, at + 1, zeros', more);
    }
  }

  lemma ScanStopsAtCode(data: seq<byte>, long: bool, rest: seq<byte>)
    requires ValidNal(data)
    ensures Scan(data, 0, StartCode(long) + rest) == Hit(data, long, rest)
  {
    var code := StartCode(long);
    var d1, d2 := data + [0], data + [0] + [0];
    var s1, s2 := code[1..] + rest, code[2..] + rest;
    assert (code + rest)[0] == 0 && (code + rest)[1..] == s1;
    assert s1[0] == 0 && s1[1..] == s2;
    assert Scan(data, 0, code + rest) == Scan(d1, 1, s1) == Scan(d2, 2, s2);
    if long {
      var d3, s3 := d2 + [0], code[3..] + rest;
      assert s2[0] == 0 && s2[1..] == s3;
      assert s3[0] == 1 && s3[1..] == rest;
      assert Scan(d2, 2, s2) == Scan(d3, 3, s3);
      assert d3[..|d3| - 3] == data;
    } else {
      assert s2[0] == 1 && s2[1..] == rest;
      assert d2[..|d2| - 2] == data;
    }
  }

  predicate ValidUnits(units: seq<Unit>) {
    units != [] && forall i :: 0 <= i < |units| ==> ValidNal(units[i].data)
  }

  lemma LastUnit(long: bool, seen: seq<byte>, zeros: nat, bytes: seq<byte>, data: seq<byte>)
    requires EndsInZeros(seen, zeros) && EndsInZeros(data, 0) && Scan(seen, zeros, bytes) == Scan(data, 0, [])
    ensures Units(long, seen, zeros, bytes) == [Unit(long, data)]
  {
    assert Scan(data, 0, []) == Tail(data, 0);
  }

  lemma NextUnit(long: bool, seen: seq<byte>, zeros: nat, bytes: seq<byte>, hit: Scanned)
    requires EndsInZeros(seen, zeros) && hit.Hit? && Scan(seen, zeros, bytes) == hit
    ensures EndsInZeros([], 0)
    ensures Units(long, seen, zeros, bytes) == [Unit(long, hit.nal)] + Units(hit.long, [], 0, hit.rest)
  {
  }

  lemma {:induction false} UnitsFindWrittenBehind(units: seq<Unit>)
    requires ValidUnits(units)
    ensures EndsInZeros([], 0)
    ensures Units(units[0].long, [], 0, units[0].data + Serialize(units[1..])) == units
    decreases |units|, 1
  {
    var data := units[0].data;
    assert data[..0] == [] && data[0..] == data;
    UnitsFindWritten(units, 0, 0);
  }

  lemma {:induction false} UnitsFindWritten(units: seq<Unit>, at: nat, zeros: nat)
    requires ValidUnits(units)
    requires at <= |units[0].data| && EndsInZeros(units[0].data[..at], zeros)
    ensures Units(units[0].long, units[0].data[..at], zeros, units[0].data[at..] + Serialize(units[1..])) == units
    decreases |units|, 0
  {
    var data, rest := units[0].data, units[1..];
    hide Scan, Units, ValidNal;
    ScanThrough(data, at, zeros, Serialize(rest));
    if rest == [] {
      LastUnit(units[0].long, data[..at], zeros, data[at..] + Serialize(rest), data);
    } else {
      var more := rest[0].data + Serialize(rest[1..]);
      Assoc(StartCode(rest[0].long), rest[0].data, Serialize(rest[1..]));
      ScanStopsAtCode(data, rest[0].long, more);
      NextUnit(units[0].long, data[..at], zeros, data[at..] + Serialize(rest), Hit(data, rest[0].long, more));
      UnitsFindWrittenBehind(rest);
      assert units == [units[0]] + rest;
    }
  }

  lemma FirstBytes(units: seq<Unit>)
    requires units != [] && units[0].data != []
    ensures var bytes, more := Serialize(units), units[0].data + Serialize(units[1..]);
            && StartsWithCode(bytes)
            && (units[0].long ==> bytes[..4] == StartCode(true) && bytes[4..] == more)
            && (!units[0].long ==> bytes[..3] == StartCode(false) && bytes[3..] == more)
  {
    var more := units[0].data + Serialize(units[1..]);
    Assoc(StartCode(units[0].long), units[0].data, Serialize(units[1..]));
    assert Serialize(units) == StartCode(units[0].long) + more;
  }

  /** Round trip: valid NAL units written behind any mix of start codes are found again, with those
      start codes. */
  lemma ParseOfSerialize(units: seq<Unit>)
    requires ValidUnits(units)
    ensures StartsWithCode(Serialize(units)) && Parse(Serialize(units)) == units
  {
    var bytes, data, rest := Serialize(units), units[0].data, Serialize(units[1..]);
    FirstBytes(units);
    if units[0].long {
      assert data[..0] == [] && data[0..] == data;
      assert bytes[..3] != StartCode(false) by {
        assert bytes[..3][2] == bytes[..4][2] == 0;
      }
      UnitsFindWritten(units, 0, 0);
    } else {
      assert data[..1] == [data[0]];
      assert bytes[3] == bytes[3..][0] == data[0];
      assert bytes[4..] == bytes[3..][1..] == data[1..] + rest;
      UnitsFindWritten(units, 1, 0);
    }
  }
}
