/** rtc/h264writer: RTP payloads back to a byte stream, from the first key frame on. */
module H264Writer {
  import opened Wrappers
  import opened AnnexB
  import opened NalReader
  import opened StapA

  function StartCodes(frames: seq<seq<byte>>): seq<Unit> {
    seq(|frames|, i requires 0 <= i < |frames| => Unit(true, frames[i]))
  }

  /** codecs.H264Packet.Unmarshal (vendor/github.com/pion/rtp/codecs/h264_packet.go:145-196). */
  function Unmarshal(payload: seq<byte>): Result<seq<byte>, UnmarshalError> {
    if |payload| <= 2 then Err(ShortPacket)
    else
      var unitType := TypeOf(payload[0]);
      if 0 < unitType < 24 then Ok(StartCode(true) + payload)
      else if unitType == STAP_A then
        match Unpack(payload[1..])
        case Ok(frames) => Ok(Serialize(StartCodes(frames)))
        case Err(e) => Err(e)
      else if unitType == FU_A then
        if payload[1] >= 128
        then Ok(StartCode(true) + [RefIdcOf(payload[0]) * 32 + TypeOf(payload[1])] + payload[2..])
        else Ok(payload[2..])
      else Err(UnhandledType)
  }

  /** isKeyFrame, on the first four bytes as one big-endian word. */
  predicate IsKeyFrame(data: seq<byte>) {
    |data| >= 4 &&
    var word := (data[0] as int) * 0x1000000 + (data[1] as int) * 0x10000 + (data[2] as int) * 0x100 + data[3];
    (word / 0x1000000 % 32 == STAP_A && word % 32 == SPS) || word / 0x1000000 % 32 == SPS
  }

  lemma KeyFrameByTypes(data: seq<byte>)
    ensures IsKeyFrame(data) <==>
              |data| >= 4 && (TypeOf(data[0]) == SPS || (TypeOf(data[0]) == STAP_A && TypeOf(data[3]) == SPS))
  {
    if |data| >= 4 {
      var low := (data[1] as int) * 0x10000 + (data[2] as int) * 0x100 + data[3];
      var word := (data[0] as int) * 0x1000000 + low;
      assert word / 0x1000000 == data[0];
      assert word == 32 * ((data[0] as int) * 0x80000 + (data[1] as int) * 0x800 + (data[2] as int) * 8 + data[3] / 32) + data[3] % 32;
      assert word % 32 == data[3] % 32;
    }
  }

  /** A packet is taken for a key frame exactly when its first frame is a parameter set of type SPS. */
  lemma StapAIsKeyFrameExactly(frames: seq<Nal>)
    requires frames != [] && frames[0].data != []
    ensures IsKeyFrame(Packaged(frames).data) <==> TypeOf(frames[0].data[0]) == SPS
  {
    var data := Packaged(frames).data;
    KeyFrameByTypes(data);
    assert Datas(frames)[0] == frames[0].data;
    assert data[3] == frames[0].data[0];
  }

  datatype WriterState = WriterState(hasKeyFrame: bool, written: seq<byte>)

  /** One WriteRTP. */
  function Write(s: WriterState, payload: seq<byte>): (WriterState, Option<UnmarshalError>) {
    if payload == [] then (s, None)
    else
      var s' := s.(hasKeyFrame := s.hasKeyFrame || IsKeyFrame(payload));
      if !s'.hasKeyFrame then (s', None)
      else
        match Unmarshal(payload)
        case Ok(data) => (s'.(written := s.written + data), None)
        case Err(e) => (s', Some(e))
  }

  /** What a single NAL unit in a packet adds to the file, and what it does to the gate: it is written
      behind a long start code once the gate is open, which an SPS of four bytes opens. */
  lemma SingleUnitIsWritten(s: WriterState, payload: seq<byte>)
    requires |payload| > 2 && 0 < payload[0] % 32 < 24
    ensures var (s', err) := Write(s, payload);
            && s'.hasKeyFrame == (s.hasKeyFrame || (payload[0] % 32 == 7 && |payload| >= 4))
            && s'.written == (if s'.hasKeyFrame then s.written + [0, 0, 0, 1] + payload else s.written)
            && err.None?
  {
    KeyFrameByTypes(payload);
    assert s.written + ([0, 0, 0, 1] + payload) == s.written + [0, 0, 0, 1] + payload;
  }

  /** What an aggregation packet does: its frames are written, each behind a long start code, or, when
      it cannot be taken apart, nothing. */
  lemma AggregateIsWritten(s: WriterState, payload: seq<byte>)
    requires |payload| > 2 && payload[0] % 32 == 24
    ensures var (s', err) := Write(s, payload);
            && s'.hasKeyFrame == (s.hasKeyFrame || (|payload| >= 4 && payload[3] % 32 == 7))
            && (s'.hasKeyFrame && Unpack(payload[1..]).Ok? ==>
                  s'.written == s.written + Serialize(StartCodes(Unpack(payload[1..]).value)) && err.None?)
            && (s'.hasKeyFrame && Unpack(payload[1..]).Err? ==> s'.written == s.written && err.Some?)
            && (!s'.hasKeyFrame ==> s' == s && err.None?)
  {
    KeyFrameByTypes(payload);
  }

  /** Everything else adds nothing: packets of two bytes or less, and types without a meaning here. */
  lemma OthersAreNotWritten(s: WriterState, payload: seq<byte>)
    requires |payload| <= 2 || payload[0] % 32 == 0 || payload[0] % 32 > 28 || 24 < payload[0] % 32 < 28
    ensures var (s', err) := Write(s, payload);
            s' == s && (err.Some? <==> s.hasKeyFrame && payload != [])
  {
    KeyFrameByTypes(payload);
  }

  class Writer {
    var hasKeyFrame: bool
    var writer: seq<byte>

    function View(): WriterState
      reads this
    {
      WriterState(hasKeyFrame, writer)
    }

    constructor ()
      ensures View() == WriterState(false, [])
    {
      hasKeyFrame := false;
      writer := [];
    }

    method WriteRTP(payload: seq<byte>) returns (err: Option<UnmarshalError>)
      modifies this
      ensures (View(), err) == Write(old(View()), payload)
    {
      if |payload| == 0 {
        return None;
      }
      if !hasKeyFrame {
        hasKeyFrame := IsKeyFrame(payload);
        if !hasKeyFrame {
          return None;
        }
      }
      var data := Unmarshal(payload);
      if data.Err? {
        return Some(data.error);
      }
      writer := writer + data.value;
      err := None;
    }
  }
}
