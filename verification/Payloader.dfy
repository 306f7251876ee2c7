/** The H.264 payloader of pion/rtp between the track and the packets: start codes inside a sample
    split it, delimiters and filler are dropped, and what does not fit one packet is fragmented as in
    section 5.8 of RFC 6184 (vendor/github.com/pion/rtp/codecs/h264_packet.go:27-148). */
module Payloader {
  import opened AnnexB
  import opened NalReader
  import opened StapA
  import opened AdjacentCodes

  const DELIMITER: byte := 9
  const FILLER: byte := 12

  datatype Code = Code(at: nat, length: nat) | NoCode

  /** The next start code from i on, behind `zeros` zero bytes; all of them belong to it. */
  function NextCode(data: seq<byte>, i: nat, zeros: nat): (c: Code)
    requires zeros <= i <= |data|
    ensures c.Code? ==> i <= c.at + c.length <= |data| && i - zeros <= c.at && c.length >= 3
    decreases |data| - i
  {
    if i == |data| then NoCode
    else if data[i] == 1 && zeros >= 2 then Code(i - zeros, zeros + 1)
    else NextCode(data, i + 1, if data[i] == 0 then zeros + 1 else 0)
  }

  function EmittedFrom(data: seq<byte>, start: nat): seq<seq<byte>>
    requires start <= |data|
    decreases |data| - start
  {
    match NextCode(data, start, 0)
    case NoCode => [data[start..]]
    case Code(at, length) => [data[start..at]] + EmittedFrom(data, at + length)
  }

  /** emitNalus: the pieces behind the start codes, or everything if there are none. */
  function Emitted(data: seq<byte>): seq<seq<byte>> {
    match NextCode(data, 0, 0)
    case NoCode => [data]
    case Code(at, length) => EmittedFrom(data, at + length)
  }

  // One fragment: FU indicator, FU header and a part of the NAL unit from `at` on.
  function Fragment(nal: seq<byte>, mtu: nat, at: nat): seq<byte>
    requires mtu > 2 && 1 <= at < |nal|
  {
    var size := Min(mtu - 2, |nal| - at);
    var flag := if at == 1 then 128 else if at + size == |nal| then 64 else 0;
    [RefIdcOf(nal[0]) * 32 + FU_A, flag + TypeOf(nal[0])] + nal[at..at + size]
  }

  function Fragments(nal: seq<byte>, mtu: nat, at: nat): seq<seq<byte>>
    requires mtu > 2 && 1 <= at <= |nal|
    decreases |nal| - at
  {
    if at == |nal| then [] else [Fragment(nal, mtu, at)] + Fragments(nal, mtu, at + Min(mtu - 2, |nal| - at))
  }

  /** The packets of one NAL unit. */
  function Packets(nal: seq<byte>, mtu: nat): seq<seq<byte>> {
    if nal == [] || TypeOf(nal[0]) == DELIMITER || TypeOf(nal[0]) == FILLER then []
    else if |nal| <= mtu then [nal]
    else if mtu <= 2 then []
    else Fragments(nal, mtu, 1)
  }

  function AllPackets(nals: seq<seq<byte>>, mtu: nat): seq<seq<byte>> {
    if nals == [] then [] else Packets(nals[0], mtu) + AllPackets(nals[1..], mtu)
  }

  /** H264Payloader.Payload */
  function Payload(data: seq<byte>, mtu: nat): seq<seq<byte>> {
    if data == [] then [] else AllPackets(Emitted(data), mtu)
  }

  /** Every packet fits, and says by its type and flags what it is: the unit itself, or a fragment of
      type 28 that begins the unit, ends it, or neither. */
  lemma {:induction false} FragmentsFit(nal: seq<byte>, mtu: nat, at: nat)
    requires mtu > 2 && 1 <= at <= |nal|
    ensures forall i :: 0 <= i < |Fragments(nal, mtu, at)| ==>
              var f := Fragments(nal, mtu, at)[i];
              && 2 < |f| <= mtu && f[0] % 32 == 28 && f[1] % 32 == nal[0] % 32 && f[0] / 32 % 4 == nal[0] / 32 % 4
              && (f[1] >= 128 <==> at == 1 && i == 0)
              && (f[1] / 64 % 2 == 1 <==> i == |Fragments(nal, mtu, at)| - 1 && !(at == 1 && i == 0))
    decreases |nal| - at
  {
    if at < |nal| {
      var next := at + Min(mtu - 2, |nal| - at);
      var f, rest := Fragment(nal, mtu, at), Fragments(nal, mtu, next);
      FragmentBytes(nal, mtu, at);
      FragmentsFit(nal, mtu, next);
      assert forall i :: 0 < i < |[f] + rest| ==> ([f] + rest)[i] == rest[i - 1];
      assert rest == [] <==> next == |nal|;
    }
  }

  lemma FragmentBytes(nal: seq<byte>, mtu: nat, at: nat)
    requires mtu > 2 && 1 <= at < |nal|
    ensures var f, size := Fragment(nal, mtu, at), Min(mtu - 2, |nal| - at);
            && |f| == 2 + size && size > 0 && f[0] % 32 == 28 && f[1] % 32 == nal[0] % 32 && f[0] / 32 % 4 == nal[0] / 32 % 4
            && (f[1] >= 128 <==> at == 1)
            && (f[1] / 64 % 2 == 1 <==> at > 1 && at + size == |nal|)
  {
  }

  // The next start code behind a valid unit is the one written there.
  lemma {:induction false} CodeBehindUnit(before: seq<byte>, data: seq<byte>, at: nat, zeros: nat, long: bool, rest: seq<byte>)
    requires ValidNal(data) && zeros <= at <= |data|
    requires forall j :: at - zeros <= j < at ==> data[j] == 0
    ensures NextCode(before + data + StartCode(long) + rest, |before| + at, zeros)
         == Code(|before| + |data|, |StartCode(long)|)
    decreases |data| - at
  {
    var all := before + data + StartCode(long) + rest;
    assert data[|data| - 1] != 0;
    if at < |data| {
      assert all[|before| + at] == data[at];
      if zeros >= 2 {
        assert !CodeAt(data, at - 2);
      }
      CodeBehindUnit(before, data, at + 1, if data[at] == 0 then zeros + 1 else 0, long, rest);
    } else {
      CodeHere(before + data, long, rest);
    }
  }

  lemma CodeHere(before: seq<byte>, long: bool, rest: seq<byte>)
    ensures NextCode(before + StartCode(long) + rest, |before|, 0) == Code(|before|, |StartCode(long)|)
  {
    var all, n := before + StartCode(long) + rest, |before|;
    assert all[n] == 0 && all[n + 1] == 0;
    assert NextCode(all, n, 0) == NextCode(all, n + 2, 2);
    if long {
      assert all[n + 2] == 0 && all[n + 3] == 1;
      assert NextCode(all, n + 2, 2) == NextCode(all, n + 3, 3);
    } else {
      assert all[n + 2] == 1;
    }
  }

  lemma {:induction false} NoCodeInLast(before: seq<byte>, data: seq<byte>, at: nat, zeros: nat)
    requires ValidNal(data) && zeros <= at <= |data|
    requires forall j :: at - zeros <= j < at ==> data[j] == 0
    ensures NextCode(before + data, |before| + at, zeros).NoCode?
    decreases |data| - at
  {
    if at < |data| {
      assert (before + data)[|before| + at] == data[at];
      if zeros >= 2 {
        assert !CodeAt(data, at - 2);
      }
      NoCodeInLast(before, data, at + 1, if data[at] == 0 then zeros + 1 else 0);
    }
  }

  function DatasOf(units: seq<Unit>): seq<seq<byte>> {
    if units == [] then [] else [units[0].data] + DatasOf(units[1..])
  }

  lemma {:induction false} PiecesFrom(before: seq<byte>, units: seq<Unit>)
    requires ValidUnits(units)
    ensures EmittedFrom(before + units[0].data + Serialize(units[1..]), |before|) == DatasOf(units)
    decreases |units|
  {
    var data, rest := units[0].data, units[1..];
    if rest == [] {
      LastPiece(before, data);
      assert before + data + [] == before + data;
    } else {
      var code, data', rest' := StartCode(rest[0].long), rest[0].data, Serialize(rest[1..]);
      PieceThenMore(before, data, rest[0].long, data' + rest');
      PiecesFrom(before + data + code, rest);
      hide EmittedFrom, Serialize, ValidNal;
      FiveParts(before, data, code, data', rest');
      SerializeFirst(rest);
    }
  }

  lemma SerializeFirst(units: seq<Unit>)
    requires units != []
    ensures Serialize(units) == StartCode(units[0].long) + units[0].data + Serialize(units[1..])
  {
  }

  lemma FiveParts(a: seq<byte>, b: seq<byte>, c: seq<byte>, d: seq<byte>, e: seq<byte>)
    ensures a + b + (c + d + e) == a + b + c + (d + e) == a + b + c + d + e
  {
  }

  lemma LastPiece(before: seq<byte>, data: seq<byte>)
    requires ValidNal(data)
    ensures EmittedFrom(before + data, |before|) == [data]
  {
    NoCodeInLast(before, data, 0, 0);
    assert (before + data)[|before|..] == data;
  }

  lemma PieceThenMore(before: seq<byte>, data: seq<byte>, long: bool, more: seq<byte>)
    requires ValidNal(data)
    ensures var code := StartCode(long);
            EmittedFrom(before + data + code + more, |before|)
            == [data] + EmittedFrom(before + data + code + more, |before + data + code|)
  {
    CodeBehindUnit(before, data, 0, 0, long, more);
    assert (before + data + StartCode(long) + more)[|before|..|before| + |data|] == data;
  }

  /** A sample of several units behind start codes of either length gives exactly those units. */
  lemma EmittedUnits(units: seq<Unit>)
    requires ValidUnits(units)
    ensures Emitted(Serialize(units)) == DatasOf(units)
  {
    var code, data, rest := StartCode(units[0].long), units[0].data, Serialize(units[1..]);
    assert Serialize(units) == [] + code + (data + rest) by {
      Assoc(code, data, rest);
      assert [] + code == code;
    }
    CodeHere([], units[0].long, data + rest);
    assert Serialize(units) == code + data + rest;
    PiecesFrom(code, units);
  }

  ghost predicate WithoutCode(data: seq<byte>) {
    forall k :: !ShortCodeAt(data, k)
  }

  lemma {:induction false} NoCodeFound(data: seq<byte>, i: nat, zeros: nat)
    requires WithoutCode(data) && zeros <= i <= |data|
    requires forall j :: i - zeros <= j < i ==> data[j] == 0
    ensures NextCode(data, i, zeros).NoCode?
    decreases |data| - i
  {
    if i < |data| {
      if data[i] == 1 && zeros >= 2 {
        assert ShortCodeAt(data, i - 2);
      }
      if data[i] != 1 || zeros < 2 {
        NoCodeFound(data, i + 1, if data[i] == 0 then zeros + 1 else 0);
      }
    }
  }

  /** A sample without start codes is one NAL unit to the payloader. */
  lemma EmittedWhole(data: seq<byte>, mtu: nat)
    requires WithoutCode(data) && data != []
    ensures Payload(data, mtu) == Packets(data, mtu)
  {
    NoCodeFound(data, 0, 0);
    assert Emitted(data) == [data];
    assert AllPackets([data], mtu) == Packets(data, mtu) + AllPackets([], mtu);
    assert Packets(data, mtu) + [] == Packets(data, mtu);
  }

  lemma ValidHasNoCode(data: seq<byte>)
    requires ValidNal(data)
    ensures WithoutCode(data)
  {
    forall k | ShortCodeAt(data, k)
      ensures false
    {
      assert CodeAt(data, k);
    }
  }

  /** Nor does a start code arise in the aggregation packet of two valid NAL units. */
  lemma PacketHasNoCode(a: Nal, b: Nal)
    requires ValidNal(a.data) && ValidNal(b.data) && |a.data| <= 65535 && |b.data| <= 65535
    requires a.data[0] != 0 && b.data[0] != 0
    ensures WithoutCode(Packaged([a, b]).data)
  {
    var packet := Packaged([a, b]).data;
    PacketBytes(a, b);
    ValidHasNoCode(a.data);
    ValidHasNoCode(b.data);
    var n := |a.data|;
    forall k | ShortCodeAt(packet, k)
      ensures false
    {
      if 3 <= k && k + 3 <= 3 + n {
        assert ShortCodeAt(a.data, k - 3);
      } else if 5 + n <= k {
        assert ShortCodeAt(b.data, k - 5 - n);
      }
    }
  }

  // The packet byte by byte.
  lemma PacketBytes(a: Nal, b: Nal)
    requires a.data != [] && b.data != [] && |a.data| <= 65535 && |b.data| <= 65535
    ensures var packet, n := Packaged([a, b]).data, |a.data|;
            && |packet| == 5 + n + |b.data|
            && packet[0] >= 24
            && (packet[1] != 0 || packet[2] != 0) && (packet[3 + n] != 0 || packet[4 + n] != 0)
            && (forall k :: 0 <= k < n ==> packet[3 + k] == a.data[k])
            && (forall k :: 0 <= k < |b.data| ==> packet[5 + n + k] == b.data[k])
  {
    var nals := [a, b];
    var datas := Datas(nals);
    assert datas == [a.data, b.data];
    assert datas[1..] == [b.data] && [b.data][1..] == [];
    assert Body([b.data]) == LengthBytes(|b.data|) + b.data + [];
    assert Body(datas) == LengthBytes(|a.data|) + a.data + Body([b.data]);
    LengthNotZero(|a.data|);
    LengthNotZero(|b.data|);
  }

  lemma LengthNotZero(length: nat)
    requires 0 < length <= 65535
    ensures LengthBytes(length)[0] != 0 || LengthBytes(length)[1] != 0
  {
  }
}
