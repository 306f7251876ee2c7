/** rtc/h264reader: the reader over a stream that hands out its bytes in chunks.  Every method's
    contract speaks of the bytes only, so how the stream cuts them up makes no difference. */
module H264Reader {
  import opened AnnexB
  import opened NalReader

  /** One answer of io.Reader.Read: the bytes and whether an error came with them. */
  datatype Chunk = Chunk(data: seq<byte>, failed: bool)

  const BUFFER_SIZE := 4096

  predicate Bad(c: Chunk) {
    c.data == [] || c.failed
  }

  /** The answers a stream will still give; after them it is at its end.  Only the last answer may be
      empty or an error. */
  predicate Steady(script: seq<Chunk>) {
    && (forall i :: 0 <= i < |script| ==> |script[i].data| <= BUFFER_SIZE)
    && (forall i :: 0 <= i < |script| - 1 ==> !Bad(script[i]))
  }

  /** The bytes a reader gets to see: those that come along with an error are dropped. */
  function Incoming(script: seq<Chunk>): seq<byte> {
    if script == [] || Bad(script[0]) then [] else script[0].data + Incoming(script[1..])
  }

  /** What comes along with an error is lost. */
  lemma {:induction false} DataWithErrorIsLost(script: seq<Chunk>, data: seq<byte>)
    requires forall i :: 0 <= i < |script| ==> !Bad(script[i])
    ensures Incoming(script + [Chunk(data, true)]) == Incoming(script)
  {
    if script != [] {
      assert (script + [Chunk(data, true)])[1..] == script[1..] + [Chunk(data, true)];
      DataWithErrorIsLost(script[1..], data);
    }
  }

  /** Everything before is seen, in order: the data of one chunk behind that of the others. */
  lemma {:induction false} GoodDataIsSeen(script: seq<Chunk>, c: Chunk)
    requires (forall i :: 0 <= i < |script| ==> !Bad(script[i])) && c.data != [] && !c.failed
    ensures Incoming(script + [c]) == Incoming(script) + c.data
  {
    if script != [] {
      assert (script + [c])[1..] == script[1..] + [c];
      GoodDataIsSeen(script[1..], c);
    } else {
      assert [c][1..] == [];
    }
  }

  class Stream {
    var script: seq<Chunk>

    constructor (script: seq<Chunk>)
      ensures this.script == script
    {
      this.script := script;
    }

    method Read() returns (c: Chunk)
      modifies this
      ensures old(script) == [] ==> c == Chunk([], true) && script == []
      ensures old(script) != [] ==> c == old(script)[0] && script == old(script)[1..]
    {
      if script == [] {
        c := Chunk([], true);
      } else {
        c := script[0];
        script := script[1..];
      }
    }
  }

  class Reader {
    const stream: Stream
    var nalBuffer: seq<byte>
    var countOfConsecutiveZeroBytes: nat
    var nalPrefixParsed: bool
    var readBuffer: seq<byte>

    function Rest(): seq<byte>
      reads this, stream
    {
      readBuffer + Incoming(stream.script)
    }

    function View(): State
      reads this, stream
    {
      State(nalPrefixParsed, nalBuffer, countOfConsecutiveZeroBytes, Rest())
    }

    predicate Valid()
      reads this, stream
    {
      Steady(stream.script) && Ready(View())
    }

    constructor (stream: Stream)
      requires Steady(stream.script)
      ensures this.stream == stream && Valid() && View() == Start(Incoming(stream.script))
    {
      this.stream := stream;
      nalBuffer := [];
      countOfConsecutiveZeroBytes := 0;
      nalPrefixParsed := false;
      readBuffer := [];
      new;
      assert [] + Incoming(stream.script) == Incoming(stream.script);
    }

    // read: as many bytes as asked for, or all there are
    method ReadBytes(numToRead: nat) returns (data: seq<byte>)
      requires Steady(stream.script)
      modifies this`readBuffer, stream
      ensures Steady(stream.script)
      ensures data == old(Rest())[..Min(numToRead, |old(Rest())|)]
      ensures Rest() == old(Rest())[Min(numToRead, |old(Rest())|)..]
    {
      while |readBuffer| < numToRead
        invariant Steady(stream.script) && Rest() == old(Rest())
        decreases |stream.script|
      {
        ghost var before := stream.script;
        var buf := stream.Read();
        if |buf.data| == 0 || buf.failed {
          assert Incoming(before) == Incoming(stream.script) == [];
          break;
        }
        assert forall i :: 0 <= i < |stream.script| ==> stream.script[i] == before[i + 1];
        readBuffer := readBuffer + buf.data;
      }
      assert |readBuffer| < numToRead ==> Rest() == readBuffer;
      var numShouldRead := if numToRead <= |readBuffer| then numToRead else |readBuffer|;
      data := readBuffer[..numShouldRead];
      readBuffer := readBuffer[numShouldRead..];
    }

    // bitStreamStartsWithH264Prefix
    method BitStreamStartsWithH264Prefix() returns (prefix: Prefix)
      requires Steady(stream.script) && !nalPrefixParsed && nalBuffer == []
      modifies this`readBuffer, this`nalBuffer, stream
      ensures Steady(stream.script)
      ensures prefix == ReadPrefix(old(Rest())[..Min(4, |old(Rest())|)])
      ensures View() == AfterPrefix(old(View())).(parsed := false)
    {
      var prefixBuffer := ReadBytes(4);
      var n := |prefixBuffer|;
      if n == 0 {
        return NoPrefix(Eof);
      }
      if n < 3 {
        return NoPrefix(NotH264);
      }
      var found3 := [0, 0, 1] == prefixBuffer[..3];
      if n == 3 {
        assert prefixBuffer[..3] == prefixBuffer;
        if found3 {
          return NoPrefix(Eof);
        }
        return NoPrefix(NotH264);
      }
      if found3 {
        nalBuffer := nalBuffer + [prefixBuffer[3]];
        return Found(3);
      }
      assert prefixBuffer[..4] == prefixBuffer;
      if [0, 0, 0, 1] == prefixBuffer {
        return Found(4);
      }
      return NoPrefix(NotH264);
    }

    // processByte: the truncation never cuts below zero
    method ProcessByte(readByte: byte) returns (nalFound: bool)
      requires EndsInZeros(nalBuffer, countOfConsecutiveZeroBytes)
      modifies this`nalBuffer, this`countOfConsecutiveZeroBytes
      ensures nalFound == (readByte == 1 && old(countOfConsecutiveZeroBytes) >= 2)
      ensures nalFound ==>
                countOfConsecutiveZeroBytes == 0
                && nalBuffer == old(nalBuffer)[..|old(nalBuffer)| - (if old(countOfConsecutiveZeroBytes) > 2 then 3 else 2)]
      ensures !nalFound ==>
                nalBuffer == old(nalBuffer)
                && countOfConsecutiveZeroBytes == if readByte == 0 then old(countOfConsecutiveZeroBytes) + 1 else 0
    {
      nalFound := false;
      if readByte == 0 {
        countOfConsecutiveZeroBytes := countOfConsecutiveZeroBytes + 1;
      } else if readByte == 1 {
        if countOfConsecutiveZeroBytes >= 2 {
          var zerosInPrefix := 2;
          if countOfConsecutiveZeroBytes > 2 {
            zerosInPrefix := 3;
          }
          countOfConsecutiveZeroBytes := 0;
          var nalUnitLength := |nalBuffer| - zerosInPrefix;
          nalBuffer := nalBuffer[..nalUnitLength];
          nalFound := true;
        } else {
          countOfConsecutiveZeroBytes := 0;
        }
      } else {
        countOfConsecutiveZeroBytes := 0;
      }
    }

    // The loop of NextNAL and what follows it
    method ReadNal() returns (outcome: Outcome)
      requires Valid() && nalPrefixParsed
      modifies this`nalBuffer, this`countOfConsecutiveZeroBytes, this`readBuffer, stream
      ensures Steady(stream.script) && (outcome, View()) == NextBody(old(View()))
    {
      hide NextBody, ParseHeader, EndsInZeros, Steady, Incoming, TypeOf, RefIdcOf;
      while true
        invariant Steady(stream.script) && nalPrefixParsed && Sound(View())
        invariant NextBody(old(View())) == NextBody(View())
        decreases |Rest()|
      {
        ghost var s := View();
        var buffer := ReadBytes(1);
        if |buffer| != 1 {
          StreamEnds(View());
          break;
        }
        var readByte := buffer[0];
        assert readByte == s.rest[0] && Rest() == s.rest[1..];
        var nalFound := ProcessByte(readByte);
        if nalFound {
          CodeEnds(s, nalBuffer);
          if nalBuffer == [] {
            return Panicked;
          }
          var nal := ParseHeader(nalBuffer);
          if nal.unitType == SEI {
            nalBuffer := [];
            continue;
          } else {
            nalBuffer := [];
            return Got(nal);
          }
        }
        nalBuffer := nalBuffer + [readByte];
        ByteJoins(s, countOfConsecutiveZeroBytes);
      }
      if |nalBuffer| == 0 {
        return Eof;
      }
      outcome := Got(ParseHeader(nalBuffer));
      nalBuffer := [];
    }

    /** NextNAL refines the byte-at-a-time specification. */
    method NextNAL() returns (outcome: Outcome)
      requires Valid()
      modifies this, stream
      ensures Valid() && (outcome, View()) == NextNal(old(View()))
    {
      if !nalPrefixParsed {
        var prefix := BitStreamStartsWithH264Prefix();
        if prefix.NoPrefix? {
          return prefix.error;
        }
        nalPrefixParsed := true;
      }
      outcome := ReadNal();
    }
  }
}
