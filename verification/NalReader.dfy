/** What H264Reader.NextNAL returns, call after call, as a function of the bytes of the stream. */
module NalReader {
  import opened AnnexB
  import opened AdjacentCodes

  /** A parsed NAL (rtc/h264reader/h264reader.go:41-50, 183-192). */
  datatype Nal = Nal(forbiddenZeroBit: bool, refIdc: byte, unitType: byte, data: seq<byte>)

  const SEI: byte := 6
  const SPS: byte := 7
  const PPS: byte := 8

  // firstByte & 0x1F and (firstByte & 0x60) >> 5
  function TypeOf(header: byte): byte { header % 32 }
  function RefIdcOf(header: byte): byte { header / 32 % 4 }

  function ParseHeader(data: seq<byte>): Nal
    requires data != []
  {
    Nal(data[0] / 128 == 1, RefIdcOf(data[0]), TypeOf(data[0]), data)
  }

  /** Panicked is the index out of range of parseHeader on an empty NAL. */
  datatype Outcome = Got(nal: Nal) | Eof | NotH264 | Panicked

  /** The reader with the bytes it has not consumed yet, wherever they are buffered. */
  datatype State = State(parsed: bool, nal: seq<byte>, zeros: nat, rest: seq<byte>)

  function Start(bytes: seq<byte>): State {
    State(false, [], 0, bytes)
  }

  /* The zero counter counts zeros at the end of nalBuffer, as long as there are bytes left.  At the
     end of the stream the counter is not reset with the buffer. */
  predicate Sound(s: State) {
    s.rest == [] || EndsInZeros(s.nal, s.zeros)
  }

  datatype Prefix = Found(length: nat) | NoPrefix(error: Outcome)

  /** bitStreamStartsWithH264Prefix on the first (at most four) bytes. */
  function ReadPrefix(first: seq<byte>): Prefix {
    var n := |first|;
    if n == 0 then NoPrefix(Eof)
    else if n < 3 then NoPrefix(NotH264)
    else if n == 3 then NoPrefix(if first == [0, 0, 1] then Eof else NotH264)
    else if first[..3] == [0, 0, 1] then Found(3)
    else if first[..4] == [0, 0, 0, 1] then Found(4)
    else NoPrefix(NotH264)
  }

  function Min(a: nat, b: nat): nat {
    if a <= b then a else b
  }

  function AfterPrefix(s: State): State {
    var n := Min(4, |s.rest|);
    var s' := s.(rest := s.rest[n..]);
    match ReadPrefix(s.rest[..n])
    case Found(length) => s'.(parsed := true, nal := if length == 3 then s.nal + [s.rest[3]] else s.nal)
    case NoPrefix(_) => s'
  }

  // Behind the loop, at the end of the stream.
  function AtEnd(nal: seq<byte>, zeros: nat): (Outcome, State) {
    var s' := State(true, [], zeros, []);
    (if nal == [] then Eof else Got(ParseHeader(nal)), s')
  }

  /** The loop of NextNAL. */
  function NextBody(s: State): (r: (Outcome, State))
    requires s.parsed && Sound(s)
    ensures Sound(r.1) && r.1.parsed
    ensures r.0.Got? ==> |r.1.nal| + |r.1.rest| < |s.nal| + |s.rest|
    decreases |s.rest|
  {
    if s.rest == [] then AtEnd(s.nal, s.zeros)
    else
      match Scan(s.nal, s.zeros, s.rest)
      case Tail(nal, zeros) => AtEnd(nal, zeros)
      case Hit(nal, _, rest) =>
        var s' := State(true, [], 0, rest);
        if nal == [] then (Panicked, s')
        else if ParseHeader(nal).unitType == SEI then NextBody(s')
        else (Got(ParseHeader(nal)), s')
  }

  /** One call of NextNAL. */
  function NextNal(s: State): (r: (Outcome, State))
    requires Ready(s)
    ensures Ready(r.1)
    ensures r.0.Got? ==> |r.1.nal| + |r.1.rest| < |s.nal| + |s.rest|
  {
    if s.parsed then NextBody(s)
    else
      var prefix, s' := ReadPrefix(s.rest[..Min(4, |s.rest|)]), AfterPrefix(s);
      if prefix.NoPrefix? then (prefix.error, s') else NextBody(s')
  }

  predicate Ready(s: State) {
    Sound(s) && (!s.parsed ==> s.nal == [] && s.zeros == 0)
  }

  /** The NALs of repeated calls up to the first call that returns none, and how that call ended. */
  function ReadAll(s: State): (seq<Nal>, Outcome)
    requires Ready(s)
    decreases |s.nal| + |s.rest|
  {
    var (outcome, s') := NextNal(s);
    if outcome.Got? then
      var (nals, end) := ReadAll(s');
      ([outcome.nal] + nals, end)
    else ([], outcome)
  }

  /* ---------- which units of the stream the calls return ---------- */

  /** The units delivered: SEI is skipped unless it is the last unit, an empty unit stops everything,
      an empty last unit is the end of the stream. */
  function Deliver(units: seq<Unit>): (seq<Nal>, Outcome)
    requires units != []
  {
    var data := units[0].data;
    if |units| == 1 then (if data == [] then ([], Eof) else ([ParseHeader(data)], Eof))
    else if data == [] then ([], Panicked)
    else
      var (nals, end) := Deliver(units[1..]);
      (if ParseHeader(data).unitType == SEI then nals else [ParseHeader(data)] + nals, end)
  }

  lemma {:induction false} ReadsUnits(long: bool, s: State)
    requires s.parsed && EndsInZeros(s.nal, s.zeros)
    ensures ReadAll(s) == Deliver(Units(long, s.nal, s.zeros, s.rest))
    decreases |s.rest|
  {
    match Scan(s.nal, s.zeros, s.rest)
    case Tail(nal, zeros) =>
      assert NextNal(s) == AtEnd(nal, zeros) by {
        if s.rest == [] {
          assert s.nal + [] == s.nal;
        }
      }
      assert ReadAll(State(true, [], zeros, [])) == ([], Eof);
      assert Units(long, s.nal, s.zeros, s.rest) == [Unit(long, nal)];
      if nal != [] {
        assert [ParseHeader(nal)] + [] == [ParseHeader(nal)];
      }
    case Hit(nal, l, rest) =>
      var s' := State(true, [], 0, rest);
      var more := Units(l, [], 0, rest);
      assert ([Unit(long, nal)] + more)[1..] == more;
      if nal != [] {
        ReadsUnits(l, s');
      }
  }

  /** Repeated NextNAL on any stream that begins with a start code. */
  lemma ReadAllDeliversUnits(bytes: seq<byte>)
    requires StartsWithCode(bytes)
    ensures ReadAll(Start(bytes)) == Deliver(Parse(bytes))
  {
    var s := Start(bytes);
    var s' := AfterPrefix(s);
    assert bytes[..4][..3] == bytes[..3] && bytes[..4][..4] == bytes[..4];
    assert [] + [bytes[3]] == [bytes[3]];
    ReadsUnits(bytes[..3] != StartCode(false), s');
    assert NextNal(s) == NextBody(s');
    assert ReadAll(s) == ReadAll(s');
  }

  function WithoutSei(units: seq<Unit>): seq<Nal>
    requires forall i :: 0 <= i < |units| ==> units[i].data != []
  {
    if units == [] then []
    else
      var nal := ParseHeader(units[0].data);
      (if nal.unitType == SEI then [] else [nal]) + WithoutSei(units[1..])
  }

  lemma {:induction false} DeliverKeepsAllButSei(units: seq<Unit>)
    requires units != [] && forall i :: 0 <= i < |units| ==> units[i].data != []
    ensures var n := |units| - 1;
            Deliver(units) == (WithoutSei(units[..n]) + [ParseHeader(units[n].data)], Eof)
  {
    var n := |units| - 1;
    if n == 0 {
      assert WithoutSei(units[..0]) + [ParseHeader(units[0].data)] == [ParseHeader(units[0].data)];
    } else {
      DeliverKeepsAllButSei(units[1..]);
      assert units[..n][1..] == units[1..][..n - 1];
      var nal := ParseHeader(units[0].data);
      var rest := WithoutSei(units[1..][..n - 1]) + [ParseHeader(units[n].data)];
      assert (if nal.unitType == SEI then rest else [nal] + rest)
          == WithoutSei(units[..n]) + [ParseHeader(units[n].data)];
    }
  }

  /** Reader round trip: of valid NAL units written behind any mix of start codes the reader returns
      all but the SEI units that are not last, in order, and then the end of the stream. */
  lemma ReaderRoundTrip(units: seq<Unit>)
    requires ValidUnits(units)
    ensures var n := |units| - 1;
            ReadAll(Start(Serialize(units))) == (WithoutSei(units[..n]) + [ParseHeader(units[n].data)], Eof)
  {
    ParseOfSerialize(units);
    ReadAllDeliversUnits(Serialize(units));
    DeliverKeepsAllButSei(units);
  }

  lemma {:induction false} DeliverPanicsExactly(units: seq<Unit>)
    requires units != []
    ensures Deliver(units).1 == if EmptyInside(units) then Panicked else Eof
  {
    if |units| > 1 {
      EmptyInsideTail(units[0], units[1..]);
      assert [units[0]] + units[1..] == units;
      if units[0].data != [] {
        DeliverPanicsExactly(units[1..]);
      }
    }
  }

  /** A stream without a start code in front gives nothing; it counts as ended when it is empty or no
      more than a short start code, and otherwise as no H.264 stream. */
  lemma NothingWithoutCode(bytes: seq<byte>)
    requires !StartsWithCode(bytes)
    ensures ReadAll(Start(bytes)).0 == []
    ensures ReadAll(Start(bytes)).1 == if bytes in {[], [0, 0, 1]} then Eof else NotH264
    ensures NextNal(Start(bytes)).0 == ReadAll(Start(bytes)).1
  {
    var first := bytes[..Min(4, |bytes|)];
    assert |bytes| >= 4 ==> first[..3] == bytes[..3] && first[..4] == bytes[..4];
    assert ReadPrefix(first).NoPrefix?;
    assert |bytes| <= 4 ==> first == bytes;
  }

  /** The header byte is its three fields. */
  lemma HeaderFields(data: seq<byte>)
    requires data != []
    ensures var nal := ParseHeader(data);
            && nal.data == data && nal.refIdc < 4 && nal.unitType < 32
            && (if nal.forbiddenZeroBit then 128 else 0) + nal.refIdc * 32 + nal.unitType == data[0]
  {
  }

  /** SEI in front of a slice is skipped, SEI at the end is returned. */
  lemma SeiSkippedUnlessLast()
    ensures var units := [Unit(true, [0x06, 0x80]), Unit(false, [0x65, 0x88]), Unit(true, [0x06, 0x80])];
            ReadAll(Start(Serialize(units))) == ([ParseHeader([0x65, 0x88]), ParseHeader([0x06, 0x80])], Eof)
  {
    SeiSliceSei(Unit(true, [0x06, 0x80]), Unit(false, [0x65, 0x88]), Unit(true, [0x06, 0x80]));
  }

  lemma SeiSliceSei(sei: Unit, slice: Unit, last: Unit)
    requires |sei.data| == |slice.data| == |last.data| == 2 && sei.data[1] != 0 && slice.data[1] != 0 && last.data[1] != 0
    requires TypeOf(sei.data[0]) == SEI && TypeOf(slice.data[0]) != SEI
    ensures ReadAll(Start(Serialize([sei, slice, last]))) == ([ParseHeader(slice.data), ParseHeader(last.data)], Eof)
  {
    var units := [sei, slice, last];
    assert ValidUnits(units);
    assert [ParseHeader(slice.data)] + [ParseHeader(last.data)] == [ParseHeader(slice.data), ParseHeader(last.data)];
    ReaderRoundTrip(units);
    hide ReadAll, Serialize;
    assert units[..2] == [sei, slice];
    assert [sei, slice][1..] == [slice] && [slice][1..] == [];
    assert WithoutSei([slice]) == [ParseHeader(slice.data)] + WithoutSei([slice][1..]) == [ParseHeader(slice.data)];
    assert WithoutSei([sei, slice]) == [] + WithoutSei([slice]) == [ParseHeader(slice.data)];
  }

  /** On any stream the reader panics exactly when the stream begins with a start code and two of its
      start codes touch. */
  lemma PanicsExactlyWhereCodesTouch(bytes: seq<byte>)
    ensures ReadAll(Start(bytes)).1 == Panicked <==> StartsWithCode(bytes) && CodesTouch(bytes)
  {
    if StartsWithCode(bytes) {
      ReadAllDeliversUnits(bytes);
      DeliverPanicsExactly(Parse(bytes));
      EmptyUnitExactly(bytes);
    } else {
      NothingWithoutCode(bytes);
    }
  }

  /** Such a stream: a long start code with a short one behind it. */
  lemma TouchingCodesPanic()
    ensures ReadAll(Start([0, 0, 0, 1, 0, 0, 1, 0x65])).1 == Panicked
  {
    var bytes: seq<byte> := [0, 0, 0, 1, 0, 0, 1, 0x65];
    assert bytes[..4] == StartCode(true);
    assert Adjacent(bytes, 1);
    PanicsExactlyWhereCodesTouch(bytes);
  }

  lemma {:induction false} CounterAtEnd(nal: seq<byte>, zeros: nat, rest: seq<byte>)
    requires EndsInZeros(nal, zeros) && rest != []
    ensures var r := Scan(nal, zeros, rest);
            && (r.Tail? ==> (r.zeros > 0 <==> rest[|rest| - 1] == 0))
            && (r.Hit? && r.rest != [] ==> r.rest[|r.rest| - 1] == rest[|rest| - 1])
            && (r.Hit? && r.rest == [] ==> rest[|rest| - 1] == 1)
    decreases |rest|
  {
    if !(rest[0] == 1 && zeros >= 2) && |rest| > 1 {
      CounterAtEnd(nal + [rest[0]], if rest[0] == 0 then zeros + 1 else 0, rest[1..]);
    }
  }

  // The zero counter counts zero bytes that are not in the buffer.
  predicate Stale(s: State) {
    !EndsInZeros(s.nal, s.zeros)
  }

  lemma {:induction false} CounterStaleAfterPrefix(s: State)
    requires s.parsed && EndsInZeros(s.nal, s.zeros) && s.rest != []
    ensures var s' := NextNal(s).1;
            Stale(s') <==> s'.rest == [] && s.rest[|s.rest| - 1] == 0
    decreases |s.rest|
  {
    CounterAtEnd(s.nal, s.zeros, s.rest);
    match Scan(s.nal, s.zeros, s.rest)
    case Tail(_, _) =>
    case Hit(nal, _, rest) =>
      if nal != [] && ParseHeader(nal).unitType == SEI {
        var s1 := State(true, [], 0, rest);
        assert NextNal(s) == NextBody(s) == NextBody(s1) == NextNal(s1);
        if rest != [] {
          CounterStaleAfterPrefix(s1);
        } else {
          assert NextNal(s1) == AtEnd([], 0);
        }
      }
  }

  /** Between calls the zero counter is sound until the end of the stream; there it outlives the buffer
      exactly when the last byte of the stream is zero and was not among the first four, which are
      read for the first start code.  A byte 1 arriving later would then cut the empty buffer below
      zero. */
  lemma CounterStaleExactly(s: State)
    requires Ready(s) && s.rest != []
    ensures var s' := NextNal(s).1;
            Stale(s') <==> s'.rest == [] && s.rest[|s.rest| - 1] == 0 && (s.parsed || |s.rest| > 4)
  {
    if s.parsed {
      CounterStaleAfterPrefix(s);
    } else if ReadPrefix(s.rest[..Min(4, |s.rest|)]).Found? {
      var s1 := AfterPrefix(s);
      assert NextNal(s) == NextBody(s1) == NextNal(s1);
      assert s.rest[..4][3] == s.rest[3];
      if s1.rest != [] {
        CounterStaleAfterPrefix(s1);
        assert s1.rest[|s1.rest| - 1] == s.rest[|s.rest| - 1];
      }
    }
  }

  /** The reader after the first call that returns no NAL. */
  function AfterAll(s: State): State
    requires Ready(s)
    decreases |s.nal| + |s.rest|
  {
    var (outcome, s') := NextNal(s);
    if outcome.Got? then AfterAll(s') else s'
  }

  lemma {:induction false} StaleAfterAll(s: State)
    requires s.parsed && Ready(s) && (s.rest == [] ==> s.nal == [])
    requires ReadAll(s).1 == Eof
    ensures Stale(AfterAll(s)) <==> if s.rest == [] then s.zeros > 0 else s.rest[|s.rest| - 1] == 0
    decreases |s.nal| + |s.rest|
  {
    var (outcome, s') := NextNal(s);
    if s.rest == [] {
      StreamEnds(s);
    } else {
      CounterStaleAfterPrefix(s);
      LastByteStays(s);
      if outcome.Got? {
        StaleAfterAll(s');
      }
    }
  }

  // A call leaves the end of the stream unread, or has read a final start code or the whole stream.
  lemma {:induction false} LastByteStays(s: State)
    requires s.parsed && EndsInZeros(s.nal, s.zeros) && s.rest != []
    ensures var (outcome, s') := NextNal(s);
            && (s'.rest != [] ==> s'.rest[|s'.rest| - 1] == s.rest[|s.rest| - 1])
            && (s'.rest == [] ==> s'.nal == [])
            && (outcome == Eof ==> s'.rest == [])
    decreases |s.rest|
  {
    CounterAtEnd(s.nal, s.zeros, s.rest);
    match Scan(s.nal, s.zeros, s.rest)
    case Tail(_, _) =>
    case Hit(nal, _, rest) =>
      if nal != [] && ParseHeader(nal).unitType == SEI {
        var s1 := State(true, [], 0, rest);
        assert NextNal(s) == NextBody(s) == NextBody(s1) == NextNal(s1);
        if rest != [] {
          LastByteStays(s1);
        } else {
          StreamEnds(s1);
        }
      }
  }

  /** A stream read to its end leaves the counter stale exactly when it begins with a start code, no
      start codes touch, and it ends in a zero byte behind its first four bytes. */
  lemma StaleAtEndExactly(bytes: seq<byte>)
    ensures Stale(AfterAll(Start(bytes))) && ReadAll(Start(bytes)).1 == Eof
       <==> StartsWithCode(bytes) && !CodesTouch(bytes) && |bytes| > 4 && bytes[|bytes| - 1] == 0
  {
    var s := Start(bytes);
    PanicsExactlyWhereCodesTouch(bytes);
    if !StartsWithCode(bytes) {
      NothingWithoutCode(bytes);
    } else {
      ReadAllDeliversUnits(bytes);
      DeliverPanicsExactly(Parse(bytes));
      EmptyUnitExactly(bytes);
      FirstCall(bytes);
      if !CodesTouch(bytes) {
        var s1 := AfterPrefix(s);
        if |bytes| > 4 {
          assert s1.rest[|s1.rest| - 1] == bytes[|bytes| - 1];
          StaleAfterAll(s1);
        } else {
          ShortStream(s1);
        }
      }
    }
  }

  /** Such a stream: one unit with a zero byte behind it. */
  lemma TrailingZeroLeavesStale()
    ensures Stale(AfterAll(Start([0, 0, 0, 1, 0x65, 0])))
  {
    var bytes: seq<byte> := [0, 0, 0, 1, 0x65, 0];
    assert bytes[..4] == StartCode(true);
    forall k | ShortCodeAt(bytes, k)
      ensures k == 1
    {
    }
    assert !CodesTouch(bytes);
    StaleAtEndExactly(bytes);
  }

  // Behind its first start code the reader goes on as one that has parsed it.
  lemma FirstCall(bytes: seq<byte>)
    requires StartsWithCode(bytes)
    ensures var s1 := AfterPrefix(Start(bytes));
            && s1.parsed && Ready(s1) && s1.rest == bytes[4..] && s1.zeros == 0
            && ReadAll(Start(bytes)) == ReadAll(s1) && AfterAll(Start(bytes)) == AfterAll(s1)
  {
    var s := Start(bytes);
    var s1 := AfterPrefix(s);
    assert bytes[..4][..3] == bytes[..3] && bytes[..4][..4] == bytes[..4];
    assert NextNal(s) == NextBody(s1) == NextNal(s1);
  }

  lemma ShortStream(s: State)
    requires s.parsed && s.rest == [] && s.zeros == 0
    ensures !Stale(AfterAll(s))
  {
    StreamEnds(s);
    var s' := State(true, [], 0, []);
    assert NextNal(s).1 == s';
    StreamEnds(s');
  }

  // Nothing is left to read.
  lemma StreamEnds(s: State)
    requires s.parsed && Sound(s) && s.rest == []
    ensures NextBody(s) == AtEnd(s.nal, s.zeros)
  {
  }

  // One byte of the loop: it joins the buffer, or completes a start code.
  lemma ByteJoins(s: State, zeros: nat)
    requires s.parsed && EndsInZeros(s.nal, s.zeros) && s.rest != []
    requires !(s.rest[0] == 1 && s.zeros >= 2) && zeros == (if s.rest[0] == 0 then s.zeros + 1 else 0)
    ensures var s' := State(true, s.nal + [s.rest[0]], zeros, s.rest[1..]);
            EndsInZeros(s'.nal, s'.zeros) && NextBody(s) == NextBody(s')
  {
    var s' := State(true, s.nal + [s.rest[0]], zeros, s.rest[1..]);
    ScanOneByte(s.nal, s.zeros, s.rest);
    hide Scan, EndsInZeros, ParseHeader;
    assert s'.rest == [] ==> Scan(s'.nal, s'.zeros, s'.rest) == Tail(s'.nal, s'.zeros);
  }

  lemma ScanOneByte(nal: seq<byte>, zeros: nat, rest: seq<byte>)
    requires EndsInZeros(nal, zeros) && rest != [] && !(rest[0] == 1 && zeros >= 2)
    ensures var zeros' := if rest[0] == 0 then zeros + 1 else 0;
            && EndsInZeros(nal + [rest[0]], zeros')
            && Scan(nal, zeros, rest) == Scan(nal + [rest[0]], zeros', rest[1..])
            && (rest[1..] == [] ==> Scan(nal + [rest[0]], zeros', rest[1..]) == Tail(nal + [rest[0]], zeros'))
  {
  }

  lemma CodeEnds(s: State, nal: seq<byte>)
    requires s.parsed && EndsInZeros(s.nal, s.zeros) && s.rest != []
    requires s.rest[0] == 1 && s.zeros >= 2 && nal == s.nal[..|s.nal| - (if s.zeros > 2 then 3 else 2)]
    ensures var s' := State(true, [], 0, s.rest[1..]);
            NextBody(s) == if nal == [] then (Panicked, s')
                           else if ParseHeader(nal).unitType == SEI then NextBody(s')
                           else (Got(ParseHeader(nal)), s')
    ensures EndsInZeros([], 0)
  {
  }
}
