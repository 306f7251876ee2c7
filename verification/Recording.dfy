/** From the bytes of a video file to the bytes recorded: reader, ingester and writer as objects, one
    after the other. */
module Recording {
  import opened Wrappers
  import opened AnnexB
  import opened NalReader
  import H264Reader
  import opened Ingester
  import opened H264Writer
  import opened Payloader
  import opened Loopback

  // What is written does not depend on how often the writer is asked in one go.
  lemma {:induction false} WriteOneMore(w: WriterState, samples: seq<Sample>, last: Sample, mtu: nat)
    ensures WriteAll(w, samples + [last], mtu) == WritePackets(WriteAll(w, samples, mtu), Payload(last.data, mtu))
    decreases |samples|
  {
    if samples == [] {
      assert samples + [last] == [last] && [last][1..] == [];
    } else {
      assert (samples + [last])[1..] == samples[1..] + [last];
      WriteOneMore(WritePackets(w, Payload(samples[0].data, mtu)), samples[1..], last, mtu);
    }
  }

  lemma {:induction false} OnePacketMore(w: WriterState, packets: seq<seq<byte>>, last: seq<byte>)
    ensures WritePackets(w, packets + [last]) == Write(WritePackets(w, packets), last).0
    decreases |packets|
  {
    if packets == [] {
      assert packets + [last] == [last] && [last][1..] == [];
    } else {
      assert (packets + [last])[1..] == packets[1..] + [last];
      OnePacketMore(Write(w, packets[0]).0, packets[1..], last);
    }
  }

  // The packets of one sample, written to disk
  method WriteTrackToDisk(writer: Writer, packets: seq<seq<byte>>)
    modifies writer
    ensures writer.View() == WritePackets(old(writer.View()), packets)
  {
    for i := 0 to |packets|
      invariant writer.View() == WritePackets(old(writer.View()), packets[..i])
    {
      assert packets[..i + 1] == packets[..i] + [packets[i]];
      OnePacketMore(old(writer.View()), packets[..i], packets[i]);
      var _ := writer.WriteRTP(packets[i]);
    }
    assert packets[..|packets|] == packets;
  }

  /** A file from reader to recording: its samples, in packets, written to disk one after the other. */
  method Record(h264: H264Reader.Reader, sampleDuration: nat, mtu: nat) returns (writer: Writer, result: End)
    requires h264.Valid()
    modifies h264, h264.stream
    ensures fresh(writer)
    ensures writer.View().written == Recorded(ReadAll(old(h264.View())).0, sampleDuration, mtu)
    ensures result == Ended(ReadAll(old(h264.View())).1)
  {
    var ctx := new Context(None);
    var track := new Track(None);
    FeedWhole(ReadAll(h264.View()).0, ReadAll(h264.View()).1, sampleDuration);
    result := Ingest(ctx, h264, track, sampleDuration);
    var samples := track.samples;
    writer := new Writer();
    ghost var begun := writer.View();
    for i := 0 to |samples|
      invariant fresh(writer) && writer.View() == WriteAll(begun, samples[..i], mtu)
    {
      assert samples[..i + 1] == samples[..i] + [samples[i]];
      WriteOneMore(begun, samples[..i], samples[i], mtu);
      WriteTrackToDisk(writer, Payload(samples[i].data, mtu));
    }
    assert samples[..|samples|] == samples;
  }

  /** The NAL units a file of valid units is read as. */
  function Delivered(units: seq<Unit>): seq<Nal>
    requires ValidUnits(units)
  {
    WithoutSei(units[..|units| - 1]) + [ParseHeader(units[|units| - 1].data)]
  }

  /** Loopback of a file: its recording reads like the file itself exactly when every batch of it is
      whole and no parameter set is left over. */
  lemma FileLoopbackExactly(units: seq<Unit>, duration: nat, mtu: nat)
    requires ValidUnits(units) && AllCarried(Delivered(units), mtu)
    ensures GoodBatches(Batches([], Delivered(units)), mtu)
    ensures ReadAll(Start(Recorded(Delivered(units), duration, mtu))) == ReadAll(Start(Serialize(units)))
       <==> AllWhole(false, Batches([], Delivered(units))) && LeftOver([], Delivered(units)) == []
  {
    ReaderRoundTrip(units);
    LoopbackExactly(Delivered(units), duration, mtu);
  }

  predicate NoSei(units: seq<Unit>)
    requires forall i :: 0 <= i < |units| ==> units[i].data != []
  {
    forall i :: 0 <= i < |units| ==> ParseHeader(units[i].data).unitType != SEI
  }

  lemma {:induction false} DeliveredInFull(units: seq<Unit>)
    requires (forall i :: 0 <= i < |units| ==> units[i].data != []) && NoSei(units)
    ensures |WithoutSei(units)| == |units|
    ensures forall i :: 0 <= i < |units| ==> WithoutSei(units)[i] == ParseHeader(units[i].data)
  {
    if units != [] {
      DeliveredInFull(units[1..]);
      forall i | 0 < i < |units|
        ensures WithoutSei(units)[i] == ParseHeader(units[i].data)
      {
        assert units[i] == units[1..][i - 1];
      }
    }
  }

  lemma LongCodedDelivered(units: seq<Unit>)
    requires ValidUnits(units) && NoSei(units) && forall i :: 0 <= i < |units| ==> units[i].long
    ensures LongCoded(Delivered(units)) == units
  {
    var n := |units| - 1;
    assert NoSei(units[..n]);
    DeliveredInFull(units[..n]);
  }

  // The units of a recording have long start codes, and none is SEI.
  lemma RecordedUnits(nals: seq<Nal>, units: seq<Unit>, mtu: nat)
    requires AllCarried(nals, mtu) && units == LongCoded(nals)
    ensures forall i :: 0 <= i < |units| ==> units[i].long && units[i].data != []
    ensures NoSei(units)
  {
    forall i | 0 <= i < |units|
      ensures units[i].data != [] && ParseHeader(units[i].data).unitType != SEI
    {
      assert Carried(nals[i], mtu);
    }
  }

  lemma KeptIsCarried(nals: seq<Nal>, mtu: nat)
    requires AllCarried(nals, mtu)
    ensures AllCarried(Kept(nals), mtu)
  {
    BatchesAreGood([], nals, mtu);
    KeepIsCarried(false, Batches([], nals), mtu);
  }

  lemma SameBytesSameUnits(a: seq<Unit>, b: seq<Unit>)
    requires ValidUnits(a) && ValidUnits(b) && Serialize(a) == Serialize(b)
    ensures a == b
  {
    ParseOfSerialize(a);
    ParseOfSerialize(b);
  }

  lemma SameBytesReadAlike(units: seq<Unit>, duration: nat, mtu: nat)
    requires ValidUnits(units) && AllCarried(Delivered(units), mtu)
    requires Recorded(Delivered(units), duration, mtu) == Serialize(units)
    ensures NoSei(units) && forall i :: 0 <= i < |units| ==> units[i].long
  {
    var kept := Kept(Delivered(units));
    RecordsWhatIsKept(Delivered(units), duration, mtu);
    KeptIsCarried(Delivered(units), mtu);
    ParseOfSerialize(units);
    assert Serialize(LongCoded([])) == [];
    assert kept != [];
    LongCodedIsValid(kept, mtu);
    SameBytesSameUnits(LongCoded(kept), units);
    RecordedUnits(kept, units, mtu);
  }

  /** The recording is the file, byte for byte, exactly when moreover the file has no SEI and only
      start codes of four bytes. */
  lemma RecordsSameBytesExactly(units: seq<Unit>, duration: nat, mtu: nat)
    requires ValidUnits(units) && AllCarried(Delivered(units), mtu)
    ensures GoodBatches(Batches([], Delivered(units)), mtu)
    ensures Recorded(Delivered(units), duration, mtu) == Serialize(units)
       <==> && AllWhole(false, Batches([], Delivered(units))) && LeftOver([], Delivered(units)) == []
            && NoSei(units) && forall i :: 0 <= i < |units| ==> units[i].long
  {
    var nals := Delivered(units);
    FileLoopbackExactly(units, duration, mtu);
    if Recorded(nals, duration, mtu) == Serialize(units) {
      SameBytesReadAlike(units, duration, mtu);
    }
    if AllWhole(false, Batches([], nals)) && LeftOver([], nals) == [] && NoSei(units) && forall i :: 0 <= i < |units| ==> units[i].long {
      LoopbackExactly(nals, duration, mtu);
      RecordingReadsBack(nals, duration, mtu);
      RecordsWhatIsKept(nals, duration, mtu);
      LongCodedDelivered(units);
    }
  }
}
