/** Aggregation packets of section 5.7.1 of RFC 6184 as rtc/util.go packs them and as the H.264
    depacketizer of pion/rtp takes them apart. */
module StapA {
  import opened Wrappers
  import opened AnnexB
  import opened NalReader

  const STAP_A: byte := 24
  const FU_A: byte := 28

  // buf.WriteByte(byte(len >> 8)); buf.WriteByte(byte(len))
  function LengthBytes(length: nat): seq<byte> {
    [length / 256 % 256, length % 256]
  }

  function Body(frames: seq<seq<byte>>): seq<byte> {
    if frames == [] then [] else LengthBytes(|frames[0]|) + frames[0] + Body(frames[1..])
  }

  function Datas(nals: seq<Nal>): (datas: seq<seq<byte>>)
    ensures |datas| == |nals| && forall i :: 0 <= i < |nals| ==> datas[i] == nals[i].data
  {
    seq(|nals|, i requires 0 <= i < |nals| => nals[i].data)
  }

  // first.RefIdc<<5&0x60 | 24
  function StapHeader(refIdc: byte): byte {
    refIdc % 4 * 32 + STAP_A
  }

  lemma {:induction false} BodyOfOneMore(frames: seq<seq<byte>>, last: seq<byte>)
    ensures Body(frames + [last]) == Body(frames) + LengthBytes(|last|) + last
  {
    if frames == [] {
      assert Body([last]) == LengthBytes(|last|) + last + Body([]);
    } else {
      assert (frames + [last])[0] == frames[0] && (frames + [last])[1..] == frames[1..] + [last];
      BodyOfOneMore(frames[1..], last);
    }
  }

  /** packageAsSTAPA. */
  method PackageAsStapA(frames: seq<Nal>) returns (nal: Nal)
    requires frames != []
    ensures nal == Packaged(frames)
  {
    var first := frames[0];
    var buf := [first.refIdc % 4 * 32 + 24];
    for i := 0 to |frames|
      invariant buf == [StapHeader(first.refIdc)] + Body(Datas(frames)[..i])
    {
      var length := |frames[i].data|;
      assert Datas(frames)[..i + 1] == Datas(frames)[..i] + [frames[i].data];
      BodyOfOneMore(Datas(frames)[..i], frames[i].data);
      buf := buf + [length / 256 % 256];
      buf := buf + [length % 256];
      buf := buf + frames[i].data;
    }
    assert Datas(frames)[..|frames|] == Datas(frames);
    nal := Nal(false, first.refIdc, 24, buf);
  }

  function Packaged(frames: seq<Nal>): Nal
    requires frames != []
  {
    Nal(false, frames[0].refIdc, STAP_A, [StapHeader(frames[0].refIdc)] + Body(Datas(frames)))
  }

  /* ---------- taking packets apart ---------- */

  /** OutOfRange is the panic on a length field cut in half. */
  datatype UnmarshalError = ShortPacket | UnhandledType | OutOfRange

  /** The frames of an aggregation packet behind its header byte. */
  function Unpack(body: seq<byte>): Result<seq<seq<byte>>, UnmarshalError> {
    if body == [] then Ok([])
    else if |body| == 1 then Err(OutOfRange)
    else
      var size := (body[0] as int) * 256 + body[1];
      if |body| < 2 + size then Err(ShortPacket)
      else
        match Unpack(body[2 + size..])
        case Ok(frames) => Ok([body[2..2 + size]] + frames)
        case Err(e) => Err(e)
  }

  lemma LengthField(length: nat)
    ensures (LengthBytes(length)[0] as int) * 256 + LengthBytes(length)[1] == length % 65536
  {
    var hi, lo := length / 256, length % 256;
    assert length == 65536 * (hi / 256) + (hi % 256 * 256 + lo);
  }

  lemma LengthInFront(field: seq<byte>, frame: seq<byte>, rest: seq<byte>)
    requires |field| == 2
    ensures var body := field + frame + rest;
            && body[0] == field[0] && body[1] == field[1]
            && body[2..2 + |frame|] == frame && body[2 + |frame|..] == rest
  {
  }

  lemma UnpackFirst(frame: seq<byte>, rest: seq<byte>)
    requires |frame| <= 65535
    ensures Unpack(LengthBytes(|frame|) + frame + rest)
         == match Unpack(rest) case Ok(frames) => Ok([frame] + frames) case Err(e) => Err(e)
  {
    var body := LengthBytes(|frame|) + frame + rest;
    LengthField(|frame|);
    LengthInFront(LengthBytes(|frame|), frame, rest);
  }

  lemma UnpackFirstLength(frame: seq<byte>, rest: seq<byte>)
    ensures var r := Unpack(LengthBytes(|frame|) + frame + rest);
            r.Ok? ==> r.value != [] && |r.value[0]| == |frame| % 65536
  {
    LengthField(|frame|);
    var body := LengthBytes(|frame|) + frame + rest;
    assert body[0] == LengthBytes(|frame|)[0] && body[1] == LengthBytes(|frame|)[1];
  }

  lemma SameRest(first: seq<byte>, a: seq<seq<byte>>, b: seq<seq<byte>>)
    ensures [first] + a == [first] + b <==> a == b
  {
    assert ([first] + a)[1..] == a && ([first] + b)[1..] == b;
  }

  predicate AllFit(frames: seq<seq<byte>>) {
    forall i :: 0 <= i < |frames| ==> |frames[i]| <= 65535
  }

  /** STAP-A round trip: a packet gives back exactly the frames put in if and only if each of them
      fits its 16-bit length field. */
  lemma {:induction false} UnpackReturnsFramesExactly(frames: seq<seq<byte>>)
    ensures Unpack(Body(frames)) == Ok(frames) <==> AllFit(frames)
  {
    if frames != [] {
      var first, rest := frames[0], frames[1..];
      UnpackReturnsFramesExactly(rest);
      assert frames == [first] + rest;
      if |first| <= 65535 {
        UnpackFirst(first, Body(rest));
        assert AllFit(frames) <==> AllFit(rest) by {
          if AllFit(frames) {
            assert forall i :: 0 <= i < |rest| ==> rest[i] == frames[i + 1];
          }
        }
        if Unpack(Body(rest)).Ok? {
          SameRest(first, Unpack(Body(rest)).value, rest);
        }
      } else {
        UnpackFirstLength(first, Body(rest));
      }
    }
  }

  /** The header byte of a packet parses back to type 24 and the first frame's importance. */
  lemma HeaderParsesBack(frames: seq<Nal>)
    requires frames != [] && frames[0].refIdc < 4
    ensures var header := ParseHeader(Packaged(frames).data);
            header.unitType == 24 && header.refIdc == frames[0].refIdc && !header.forbiddenZeroBit
            && header == Packaged(frames)
  {
  }

  lemma LengthBack(hi: byte, lo: byte)
    ensures LengthBytes((hi as int) * 256 + lo) == [hi, lo]
  {
    var n := (hi as int) * 256 + lo;
    assert n / 256 == hi && n % 256 == lo;
  }

  /** The other way round: whatever is taken apart is the body of the frames it gives. */
  lemma {:induction false} BodyOfUnpacked(body: seq<byte>)
    requires Unpack(body).Ok?
    ensures Body(Unpack(body).value) == body && AllFit(Unpack(body).value)
    decreases |body|
  {
    if body != [] {
      var size := (body[0] as int) * 256 + body[1];
      var first, rest := body[2..2 + size], body[2 + size..];
      BodyOfUnpacked(rest);
      LengthBack(body[0], body[1]);
      BodyOfFirst(first, Unpack(rest).value);
      FitWithFirst(first, Unpack(rest).value);
      hide Body, AllFit;
      Pieces(body, size);
    }
  }

  lemma BodyOfFirst(first: seq<byte>, frames: seq<seq<byte>>)
    ensures Body([first] + frames) == LengthBytes(|first|) + first + Body(frames)
  {
    assert ([first] + frames)[1..] == frames;
  }

  lemma FitWithFirst(first: seq<byte>, frames: seq<seq<byte>>)
    requires |first| <= 65535 && AllFit(frames)
    ensures AllFit([first] + frames)
  {
  }

  lemma Pieces(body: seq<byte>, size: nat)
    requires |body| >= 2 + size
    ensures body == [body[0], body[1]] + body[2..2 + size] + body[2 + size..]
  {
  }

  /** A body can be taken apart exactly when it is the body of some frames that fit. */
  lemma UnpacksExactly(body: seq<byte>)
    ensures Unpack(body).Ok? <==> exists frames :: AllFit(frames) && Body(frames) == body
  {
    if Unpack(body).Ok? {
      BodyOfUnpacked(body);
    }
    if frames :| AllFit(frames) && Body(frames) == body {
      UnpackReturnsFramesExactly(frames);
    }
  }

  /** A frame of 65536 bytes is lost: its length field says zero. */
  lemma LongFrameIsLost()
    ensures var frame: seq<byte> := seq(65536, _ => 0x65);
            Unpack(Body([frame])) != Ok([frame])
  {
    var frame: seq<byte> := seq(65536, _ => 0x65);
    assert [frame][0] == frame && |frame| == 65536;
    UnpackReturnsFramesExactly([frame]);
  }

}
