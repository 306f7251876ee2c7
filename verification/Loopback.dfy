/** The video path end to end: file, reader, ingester, track, writer, and the reader again on what
    was written. */
module Loopback {
  import opened Wrappers
  import opened AnnexB
  import opened NalReader
  import opened StapA
  import opened Ingester
  import opened H264Writer
  import opened AdjacentCodes
  import opened Payloader

  // The writer fed with packets; as in writeTrackToDisk errors are passed over.
  function WritePackets(w: WriterState, packets: seq<seq<byte>>): WriterState
    decreases |packets|
  {
    if packets == [] then w else WritePackets(Write(w, packets[0]).0, packets[1..])
  }

  /** The writer fed with the packets of the samples, one after the other. */
  function WriteAll(w: WriterState, samples: seq<Sample>, mtu: nat): WriterState
    decreases |samples|
  {
    if samples == [] then w else WriteAll(WritePackets(w, Payload(samples[0].data, mtu)), samples[1..], mtu)
  }

  function Recorded(nals: seq<Nal>, duration: nat, mtu: nat): seq<byte> {
    WriteAll(WriterState(false, []), Feed(None, None, nals, duration), mtu).written
  }

  /* ---------- which NAL units survive ---------- */

  /** Neither dropped by the payloader nor too short for the depacketizer. */
  predicate Passes(nal: Nal) {
    |nal.data| > 2 && nal.unitType != DELIMITER && nal.unitType != FILLER
  }

  // One batch: its parameter sets if it has both, its slice once a key frame was seen and if it passes.
  function KeepBatch(key: bool, batch: seq<Nal>): seq<Nal>
    requires batch != []
  {
    var params, slice := batch[..|batch| - 1], batch[|batch| - 1];
    var sps, pps := Latest(params, SPS), Latest(params, PPS);
    if sps.Some? && pps.Some? then [sps.value, pps.value] + (if Passes(slice) then [slice] else [])
    else if key && Passes(slice) then [slice] else []
  }

  function KeyAfter(key: bool, batch: seq<Nal>): bool
    requires batch != []
  {
    var params := batch[..|batch| - 1];
    key || (Latest(params, SPS).Some? && Latest(params, PPS).Some?)
  }

  function Keep(key: bool, batches: seq<seq<Nal>>): seq<Nal>
    requires forall i :: 0 <= i < |batches| ==> batches[i] != []
    decreases |batches|
  {
    if batches == [] then [] else KeepBatch(key, batches[0]) + Keep(KeyAfter(key, batches[0]), batches[1..])
  }

  function Kept(nals: seq<Nal>): seq<Nal> {
    BatchesNotEmpty([], nals);
    Keep(false, Batches([], nals))
  }

  /** NAL units a file can hold and the payloader can pass on (sections 5.4, 5.6 and 5.8 of RFC 6184),
      without SEI, as the reader parses them; two parameter sets fit one packet together. */
  predicate Carried(nal: Nal, mtu: nat) {
    && ValidNal(nal.data) && nal == ParseHeader(nal.data) && !nal.forbiddenZeroBit
    && 0 < nal.unitType < 24 && nal.unitType != SEI
    && (IsParam(nal) ==> |nal.data| <= 65535 && 2 * |nal.data| + 5 <= mtu)
  }

  predicate AllCarried(nals: seq<Nal>, mtu: nat) {
    mtu > 2 && forall i :: 0 <= i < |nals| ==> Carried(nals[i], mtu)
  }

  // NAL units as the writer writes them, each behind a four-byte start code.
  function LongCoded(nals: seq<Nal>): (units: seq<Unit>)
    ensures |units| == |nals| && forall i :: 0 <= i < |nals| ==> units[i] == Unit(true, nals[i].data)
  {
    seq(|nals|, i requires 0 <= i < |nals| => Unit(true, nals[i].data))
  }

  lemma {:induction false} SerializeConcat(a: seq<Unit>, b: seq<Unit>)
    ensures Serialize(a + b) == Serialize(a) + Serialize(b)
  {
    if a == [] {
      assert a + b == b;
    } else {
      assert (a + b)[1..] == a[1..] + b;
      SerializeConcat(a[1..], b);
      Assoc(StartCode(a[0].long) + a[0].data, Serialize(a[1..]), Serialize(b));
    }
  }

  lemma SerializeOne(u: Unit)
    ensures Serialize([u]) == StartCode(u.long) + u.data
  {
    assert Serialize([u]) == StartCode(u.long) + u.data + Serialize([]);
  }

  lemma {:induction false} LatestIsThere(nals: seq<Nal>, unitType: byte, mtu: nat)
    requires AllCarried(nals, mtu)
    ensures var l := Latest(nals, unitType);
            l.Some? ==> l.value.unitType == unitType && Carried(l.value, mtu)
  {
    if nals != [] && nals[|nals| - 1].unitType != unitType {
      LatestIsThere(nals[..|nals| - 1], unitType, mtu);
    }
  }

  lemma {:induction false} NothingWithoutKey(w: WriterState, nal: seq<byte>, mtu: nat, at: nat)
    requires !w.hasKeyFrame && mtu > 2 && 1 <= at <= |nal|
    ensures WritePackets(w, Fragments(nal, mtu, at)) == w
    decreases |nal| - at
  {
    if at < |nal| {
      var f := Fragment(nal, mtu, at);
      KeyFrameByTypes(f);
      assert Write(w, f).0 == w;
      NothingWithoutKey(w, nal, mtu, at + Min(mtu - 2, |nal| - at));
    }
  }

  // What the two header bytes of a fragment say.
  lemma FragmentHeaders(first: byte, flag: byte)
    requires first < 128 && (flag == 0 || flag == 64 || flag == 128)
    ensures var indicator, header := RefIdcOf(first) * 32 + FU_A, flag + TypeOf(first);
            && TypeOf(indicator) == FU_A && RefIdcOf(indicator) == RefIdcOf(first)
            && TypeOf(header) == TypeOf(first) && (header >= 128 <==> flag == 128)
    ensures RefIdcOf(first) * 32 + TypeOf(first) == first
  {
  }

  // One fragment: the first brings the start code and the header back.
  lemma UnmarshalFragment(nal: seq<byte>, mtu: nat, at: nat)
    requires mtu > 2 && 1 <= at < |nal| && nal[0] < 128
    ensures var size := Min(mtu - 2, |nal| - at);
            Unmarshal(Fragment(nal, mtu, at)) ==
              Ok((if at == 1 then StartCode(true) + [nal[0]] else []) + nal[at..at + size])
  {
    var f, size := Fragment(nal, mtu, at), Min(mtu - 2, |nal| - at);
    FragmentHeaders(nal[0], if at == 1 then 128 else if at + size == |nal| then 64 else 0);
    assert f[2..] == nal[at..at + size];
    assert [] + nal[at..at + size] == nal[at..at + size];
  }

  lemma WriteFragment(w: WriterState, nal: seq<byte>, mtu: nat, at: nat)
    requires w.hasKeyFrame && mtu > 2 && 1 <= at < |nal| && nal[0] < 128
    ensures var size := Min(mtu - 2, |nal| - at);
            Write(w, Fragment(nal, mtu, at)).0 ==
              w.(written := w.written + ((if at == 1 then StartCode(true) + [nal[0]] else []) + nal[at..at + size]))
  {
    UnmarshalFragment(nal, mtu, at);
  }

  lemma TwoParts(written: seq<byte>, nal: seq<byte>, at: nat, next: nat)
    requires at <= next <= |nal|
    ensures written + ([] + nal[at..next]) + nal[next..] == written + nal[at..]
  {
  }

  lemma {:induction false} WriteFragments(w: WriterState, nal: seq<byte>, mtu: nat, at: nat)
    requires w.hasKeyFrame && mtu > 2 && 1 < at <= |nal| && nal[0] < 128
    ensures WritePackets(w, Fragments(nal, mtu, at)) == w.(written := w.written + nal[at..])
    decreases |nal| - at
  {
    if at == |nal| {
      assert w.written + nal[at..] == w.written;
    } else {
      var next := at + Min(mtu - 2, |nal| - at);
      WriteFragment(w, nal, mtu, at);
      hide Write, Fragment;
      WriteFragments(Write(w, Fragment(nal, mtu, at)).0, nal, mtu, next);
      TwoParts(w.written, nal, at, next);
    }
  }

  // All fragments together are the NAL unit.
  lemma WriteFragmented(w: WriterState, nal: seq<byte>, mtu: nat)
    requires w.hasKeyFrame && mtu > 2 && 1 < |nal| && nal[0] < 128
    ensures WritePackets(w, Fragments(nal, mtu, 1)) == w.(written := w.written + (StartCode(true) + nal))
  {
    var next := 1 + Min(mtu - 2, |nal| - 1);
    var first := StartCode(true) + [nal[0]] + nal[1..next];
    WriteFragment(w, nal, mtu, 1);
    hide Write, Fragment;
    WriteFragments(Write(w, Fragment(nal, mtu, 1)).0, nal, mtu, next);
    assert first + nal[next..] == StartCode(true) + nal;
    Assoc(w.written, first, nal[next..]);
  }

  // A slice on its own, in whatever packets.
  lemma WriteSlice(w: WriterState, nal: Nal, mtu: nat)
    requires Carried(nal, mtu) && mtu > 2 && !IsParam(nal)
    ensures WritePackets(w, Payload(nal.data, mtu))
         == WriterState(w.hasKeyFrame,
                        w.written + Serialize(LongCoded(if w.hasKeyFrame && Passes(nal) then [nal] else [])))
  {
    ValidHasNoCode(nal.data);
    EmittedWhole(nal.data, mtu);
    SerializeOne(Unit(true, nal.data));
    assert LongCoded([nal]) == [Unit(true, nal.data)];
    assert w.written + [] == w.written;
    if nal.unitType == DELIMITER || nal.unitType == FILLER {
    } else if |nal.data| <= mtu {
      WriteWhole(w, nal);
    } else if w.hasKeyFrame {
      WriteFragmented(w, nal.data, mtu);
    } else {
      NothingWithoutKey(w, nal.data, mtu, 1);
    }
  }

  lemma WriteWhole(w: WriterState, nal: Nal)
    requires nal.data != [] && nal == ParseHeader(nal.data) && 0 < nal.unitType < 24 && !IsParam(nal)
    ensures WritePackets(w, [nal.data])
         == w.(written := w.written + if w.hasKeyFrame && |nal.data| > 2 then StartCode(true) + nal.data else [])
  {
    KeyFrameByTypes(nal.data);
    assert !IsKeyFrame(nal.data);
    assert w.written + [] == w.written;
    var packets := [nal.data];
    assert packets[1..] == [];
    assert WritePackets(w, [nal.data]) == Write(w, nal.data).0;
  }

  // The aggregation packet of two parameter sets.
  lemma WriteParams(w: WriterState, sps: Nal, pps: Nal, mtu: nat)
    requires Carried(sps, mtu) && Carried(pps, mtu) && sps.unitType == SPS && pps.unitType == PPS
    ensures WritePackets(w, Payload(Packaged([sps, pps]).data, mtu))
         == WriterState(true, w.written + Serialize(LongCoded([sps, pps])))
  {
    var nals: seq<Nal>, payload: seq<byte> := [sps, pps], Packaged([sps, pps]).data;
    HeaderParsesBack(nals);
    PacketHasNoCode(sps, pps);
    PacketBytes(sps, pps);
    EmittedWhole(payload, mtu);
    assert Packets(payload, mtu) == [payload];
    var packets := [payload];
    assert packets[1..] == [];
    WritePacket(w, sps, pps);
    assert WritePackets(w, [payload]) == Write(w, payload).0;
  }

  lemma WritePacket(w: WriterState, sps: Nal, pps: Nal)
    requires sps.data != [] && pps.data != [] && sps == ParseHeader(sps.data) && |sps.data| <= 65535 && |pps.data| <= 65535 && TypeOf(sps.data[0]) == SPS
    ensures Write(w, Packaged([sps, pps]).data).0
         == WriterState(true, w.written + Serialize(LongCoded([sps, pps])))
  {
    var nals, payload := [sps, pps], Packaged([sps, pps]).data;
    StapAIsKeyFrameExactly(nals);
    HeaderParsesBack(nals);
    assert Datas(nals) == [sps.data, pps.data];
    UnpackReturnsFramesExactly(Datas(nals));
    assert payload[1..] == Body(Datas(nals));
    assert StartCodes(Datas(nals)) == LongCoded(nals);
    KeyFrameByTypes(payload);
  }

  lemma WriteBatch(w: WriterState, batch: seq<Nal>, duration: nat, mtu: nat)
    requires batch != [] && AllCarried(batch, mtu) && !IsParam(batch[|batch| - 1])
    ensures WriteAll(w, EmitBatch(batch, duration), mtu)
         == WriterState(KeyAfter(w.hasKeyFrame, batch),
                        w.written + Serialize(LongCoded(KeepBatch(w.hasKeyFrame, batch))))
  {
    var params, slice := batch[..|batch| - 1], batch[|batch| - 1];
    var sps, pps := Latest(params, SPS), Latest(params, PPS);
    LatestIsThere(params, SPS, mtu);
    LatestIsThere(params, PPS, mtu);
    var last := [Sample(slice.data, duration)];
    if sps.Some? && pps.Some? {
      var packed := Sample(Packaged([sps.value, pps.value]).data, 0);
      var w1 := WritePackets(w, Payload(packed.data, mtu));
      assert ([packed] + last)[1..] == last && last[1..] == [];
      WriteParams(w, sps.value, pps.value, mtu);
      WriteSlice(w1, slice, mtu);
      var kept := if Passes(slice) then [slice] else [];
      assert LongCoded([sps.value, pps.value] + kept) == LongCoded([sps.value, pps.value]) + LongCoded(kept);
      SerializeConcat(LongCoded([sps.value, pps.value]), LongCoded(kept));
      Assoc(w.written, Serialize(LongCoded([sps.value, pps.value])), Serialize(LongCoded(kept)));
      assert WriteAll(w1, last, mtu) == WritePackets(w1, Payload(slice.data, mtu));
    } else {
      assert [] + last == last && last[1..] == [];
      WriteSlice(w, slice, mtu);
      assert WriteAll(w, last, mtu) == WritePackets(w, Payload(slice.data, mtu));
    }
  }

  lemma {:induction false} WriteAllConcat(w: WriterState, a: seq<Sample>, b: seq<Sample>, mtu: nat)
    ensures WriteAll(w, a + b, mtu) == WriteAll(WriteAll(w, a, mtu), b, mtu)
    decreases |a|
  {
    if a == [] {
      assert a + b == b;
    } else {
      assert (a + b)[1..] == a[1..] + b;
      WriteAllConcat(WritePackets(w, Payload(a[0].data, mtu)), a[1..], b, mtu);
    }
  }

  predicate GoodBatches(batches: seq<seq<Nal>>, mtu: nat) {
    forall i :: 0 <= i < |batches| ==>
      batches[i] != [] && AllCarried(batches[i], mtu) && !IsParam(batches[i][|batches[i]| - 1])
  }

  lemma {:induction false} BatchesAreGood(open: seq<Nal>, nals: seq<Nal>, mtu: nat)
    requires AllCarried(open, mtu) && AllCarried(nals, mtu)
    ensures GoodBatches(Batches(open, nals), mtu)
    decreases |nals|
  {
    if nals != [] {
      if IsParam(nals[0]) {
        BatchesAreGood(open + [nals[0]], nals[1..], mtu);
      } else {
        BatchesAreGood([], nals[1..], mtu);
      }
    }
  }

  lemma WrittenConcat(a: seq<Nal>, b: seq<Nal>)
    ensures Serialize(LongCoded(a + b)) == Serialize(LongCoded(a)) + Serialize(LongCoded(b))
  {
    assert LongCoded(a + b) == LongCoded(a) + LongCoded(b);
    SerializeConcat(LongCoded(a), LongCoded(b));
  }

  lemma {:induction false} WriteBatches(w: WriterState, batches: seq<seq<Nal>>, duration: nat, mtu: nat)
    requires GoodBatches(batches, mtu)
    ensures WriteAll(w, EmitAll(batches, duration), mtu).written
         == w.written + Serialize(LongCoded(Keep(w.hasKeyFrame, batches)))
    decreases |batches|
  {
    if batches == [] {
      assert w.written + [] == w.written;
    } else {
      var batch, rest := batches[0], batches[1..];
      var kept, more := KeepBatch(w.hasKeyFrame, batch), Keep(KeyAfter(w.hasKeyFrame, batch), rest);
      WriteBatch(w, batch, duration, mtu);
      WriteAllConcat(w, EmitBatch(batch, duration), EmitAll(rest, duration), mtu);
      WriteBatches(WriteAll(w, EmitBatch(batch, duration), mtu), rest, duration, mtu);
      WrittenConcat(kept, more);
      Assoc(w.written, Serialize(LongCoded(kept)), Serialize(LongCoded(more)));
    }
  }

  /** What is recorded is the byte stream of the NAL units kept, for every list of carried NAL units. */
  lemma RecordsWhatIsKept(nals: seq<Nal>, duration: nat, mtu: nat)
    requires AllCarried(nals, mtu)
    ensures Recorded(nals, duration, mtu) == Serialize(LongCoded(Kept(nals)))
  {
    BatchesAreGood([], nals, mtu);
    FeedEmitsBatches([], nals, duration);
    WriteBatches(WriterState(false, []), Batches([], nals), duration, mtu);
  }

  /* ---------- reading the recording back ---------- */

  lemma {:induction false} KeepIsCarried(key: bool, batches: seq<seq<Nal>>, mtu: nat)
    requires GoodBatches(batches, mtu) && mtu > 2
    ensures AllCarried(Keep(key, batches), mtu)
    decreases |batches|
  {
    if batches != [] {
      var params := batches[0][..|batches[0]| - 1];
      LatestIsThere(params, SPS, mtu);
      LatestIsThere(params, PPS, mtu);
      KeepIsCarried(KeyAfter(key, batches[0]), batches[1..], mtu);
    }
  }

  lemma {:induction false} NoSeiToSkip(nals: seq<Nal>, mtu: nat)
    requires AllCarried(nals, mtu)
    ensures WithoutSei(LongCoded(nals)) == nals
  {
    if nals != [] {
      NoSeiToSkip(nals[1..], mtu);
      assert LongCoded(nals)[1..] == LongCoded(nals[1..]);
      assert nals == [nals[0]] + nals[1..];
    }
  }

  lemma EmptyReadsBack()
    ensures ReadAll(Start([])) == ([], Eof)
  {
    var s := Start([]);
    assert s.rest[..0] == [];
    assert NextNal(s).0 == Eof;
  }

  lemma LongCodedIsValid(nals: seq<Nal>, mtu: nat)
    requires AllCarried(nals, mtu) && nals != []
    ensures ValidUnits(LongCoded(nals))
  {
    forall i | 0 <= i < |nals|
      ensures ValidNal(LongCoded(nals)[i].data)
    {
      assert Carried(nals[i], mtu);
    }
  }

  lemma ReadsBack(nals: seq<Nal>, mtu: nat)
    requires AllCarried(nals, mtu)
    ensures ReadAll(Start(Serialize(LongCoded(nals)))) == (nals, Eof)
  {
    if nals == [] {
      EmptyReadsBack();
      assert LongCoded(nals) == [];
    } else {
      var n := |nals| - 1;
      LongCodedIsValid(nals, mtu);
      assert Carried(nals[n], mtu);
      hide ReadAll, Serialize, WithoutSei, Carried, ValidNal;
      ReaderRoundTrip(LongCoded(nals));
      assert LongCoded(nals)[..n] == LongCoded(nals[..n]);
      NoSeiToSkip(nals[..n], mtu);
      assert nals == nals[..n] + [nals[n]];
    }
  }

  /** The recording of any list of carried NAL units reads back as the NAL units kept. */
  lemma RecordingReadsBack(nals: seq<Nal>, duration: nat, mtu: nat)
    requires AllCarried(nals, mtu)
    ensures ReadAll(Start(Recorded(nals, duration, mtu))) == (Kept(nals), Eof)
  {
    RecordsWhatIsKept(nals, duration, mtu);
    BatchesAreGood([], nals, mtu);
    KeepIsCarried(false, Batches([], nals), mtu);
    ReadsBack(Kept(nals), mtu);
  }

  /* ---------- when nothing is dropped ---------- */

  /** A batch that passes whole: SPS, PPS and slice in this order, or a slice after a key frame. */
  predicate Whole(key: bool, batch: seq<Nal>) {
    || (|batch| == 3 && batch[0].unitType == SPS && batch[1].unitType == PPS && Passes(batch[2]))
    || (|batch| == 1 && key && Passes(batch[0]))
  }

  predicate AllWhole(key: bool, batches: seq<seq<Nal>>)
    requires forall i :: 0 <= i < |batches| ==> batches[i] != []
    decreases |batches|
  {
    batches == [] || (Whole(key, batches[0]) && AllWhole(KeyAfter(key, batches[0]), batches[1..]))
  }

  lemma {:induction false} LatestCosts(nals: seq<Nal>)
    ensures Latest(nals, SPS).Some? || Latest(nals, PPS).Some? ==> |nals| >= 1
    ensures Latest(nals, SPS).Some? && Latest(nals, PPS).Some? ==> |nals| >= 2
  {
    if nals != [] {
      LatestCosts(nals[..|nals| - 1]);
    }
  }

  lemma KeepsWholeBatchesExactly(key: bool, batch: seq<Nal>, mtu: nat)
    requires batch != [] && AllCarried(batch, mtu) && !IsParam(batch[|batch| - 1])
    requires forall i :: 0 <= i < |batch| - 1 ==> IsParam(batch[i])
    ensures |KeepBatch(key, batch)| <= |batch|
    ensures KeepBatch(key, batch) == batch <==> Whole(key, batch)
  {
    var n := |batch| - 1;
    var params := batch[..n];
    LatestCosts(params);
    if n == 2 {
      assert params == [batch[0], batch[1]];
      assert params[..1] == [batch[0]] && params[..1][..0] == [];
      assert Latest(params[..1], SPS) == if batch[0].unitType == SPS then Some(batch[0]) else None;
      assert Latest(params[..1], PPS) == if batch[0].unitType == PPS then Some(batch[0]) else None;
      LatestIsThere(params, SPS, mtu);
      LatestIsThere(params, PPS, mtu);
    }
  }

  lemma SplitEqual(a: seq<Nal>, b: seq<Nal>, c: seq<Nal>, d: seq<Nal>)
    requires a + b == c + d && |a| == |c|
    ensures a == c && b == d
  {
    assert (a + b)[..|a|] == a && (c + d)[..|c|] == c;
    assert (a + b)[|a|..] == b && (c + d)[|c|..] == d;
  }

  predicate Closed(batches: seq<seq<Nal>>) {
    forall i :: 0 <= i < |batches| ==>
      batches[i] != [] && !IsParam(batches[i][|batches[i]| - 1])
      && forall j :: 0 <= j < |batches[i]| - 1 ==> IsParam(batches[i][j])
  }

  lemma {:induction false} BatchesAreClosed(open: seq<Nal>, nals: seq<Nal>)
    requires forall i :: 0 <= i < |open| ==> IsParam(open[i])
    ensures Closed(Batches(open, nals))
    decreases |nals|
  {
    if nals != [] {
      if IsParam(nals[0]) {
        BatchesAreClosed(open + [nals[0]], nals[1..]);
      } else {
        BatchesAreClosed([], nals[1..]);
      }
    }
  }

  lemma {:induction false} KeepsAllExactly(key: bool, batches: seq<seq<Nal>>, left: seq<Nal>, mtu: nat)
    requires GoodBatches(batches, mtu) && Closed(batches)
    ensures |Keep(key, batches)| <= |Flatten(batches)|
    ensures Keep(key, batches) == Flatten(batches) + left <==> AllWhole(key, batches) && left == []
    decreases |batches|
  {
    if batches != [] {
      var batch, rest := batches[0], batches[1..];
      var key' := KeyAfter(key, batch);
      KeepsWholeBatchesExactly(key, batch, mtu);
      KeepsAllExactly(key', rest, left, mtu);
      assert batch + Flatten(rest) + left == batch + (Flatten(rest) + left);
      hide KeepBatch, KeyAfter, Whole, GoodBatches, Closed;
      if Keep(key, batches) == Flatten(batches) + left {
        SplitEqual(KeepBatch(key, batch), Keep(key', rest), batch, Flatten(rest) + left);
      }
    } else {
      assert Flatten(batches) + left == left;
    }
  }

  /** Loopback: passing the NAL units of a file through ingester and writer and reading the recording
      gives the same NAL units exactly when every batch is an SPS, a PPS and a slice, or a slice
      after such a batch, every slice passes and no parameter set is left over.  Slices of any size
      come back whole: larger ones travel in fragments. */
  lemma LoopbackExactly(nals: seq<Nal>, duration: nat, mtu: nat)
    requires AllCarried(nals, mtu)
    ensures GoodBatches(Batches([], nals), mtu)
    ensures ReadAll(Start(Recorded(nals, duration, mtu))) == (nals, Eof)
       <==> AllWhole(false, Batches([], nals)) && LeftOver([], nals) == []
  {
    var batches, left := Batches([], nals), LeftOver([], nals);
    RecordingReadsBack(nals, duration, mtu);
    BatchesAreGood([], nals, mtu);
    BatchesAreClosed([], nals);
    BatchesPartition([], nals);
    assert [] + nals == nals;
    KeepsAllExactly(false, batches, left, mtu);
  }

  // A batch whose slice does not pass is not recorded whole.
  lemma UnitIsLost(data: seq<byte>, duration: nat, mtu: nat)
    requires mtu >= 7 && data != [] && Carried(ParseHeader(data), mtu)
    requires !IsParam(ParseHeader(data)) && !Passes(ParseHeader(data))
    ensures var nals := [ParseHeader([0x67]), ParseHeader([0x68]), ParseHeader(data)];
            AllCarried(nals, mtu) && ReadAll(Start(Recorded(nals, duration, mtu))) != (nals, Eof)
  {
    var sps, pps, nal := ParseHeader([0x67]), ParseHeader([0x68]), ParseHeader(data);
    var nals := [sps, pps, nal];
    assert sps.unitType == SPS && pps.unitType == PPS;
    OneBatch(sps, pps, nal);
    LoopbackExactly(nals, duration, mtu);
  }

  /** An access unit delimiter is lost, which the payloader drops. */
  lemma DelimiterIsLost(duration: nat, mtu: nat)
    requires mtu >= 7
    ensures var nals := [ParseHeader([0x67]), ParseHeader([0x68]), ParseHeader([0x09, 0xF0])];
            AllCarried(nals, mtu) && ReadAll(Start(Recorded(nals, duration, mtu))) != (nals, Eof)
  {
    UnitIsLost([0x09, 0xF0], duration, mtu);
  }

  /** So is filler. */
  lemma FillerIsLost(duration: nat, mtu: nat)
    requires mtu >= 7
    ensures var nals := [ParseHeader([0x67]), ParseHeader([0x68]), ParseHeader([0x0C, 0xFF, 0x80])];
            AllCarried(nals, mtu) && ReadAll(Start(Recorded(nals, duration, mtu))) != (nals, Eof)
  {
    UnitIsLost([0x0C, 0xFF, 0x80], duration, mtu);
  }

  /** A slice of two bytes is lost, which the depacketizer finds too short. */
  lemma ShortSliceIsLost(duration: nat, mtu: nat)
    requires mtu >= 7
    ensures var nals := [ParseHeader([0x67]), ParseHeader([0x68]), ParseHeader([0x41, 0x9A])];
            AllCarried(nals, mtu) && ReadAll(Start(Recorded(nals, duration, mtu))) != (nals, Eof)
  {
    UnitIsLost([0x41, 0x9A], duration, mtu);
  }

  lemma OneBatch(sps: Nal, pps: Nal, nal: Nal)
    requires sps.unitType == SPS && pps.unitType == PPS && !IsParam(nal)
    ensures Batches([], [sps, pps, nal]) == [[sps, pps, nal]]
  {
    assert [sps, pps] + [nal] == [sps, pps, nal] && [nal][1..] == [];
    assert Batches([sps, pps], [nal]) == [[sps, pps, nal]];
    assert [sps, pps, nal][1..] == [pps, nal] && [pps, nal][1..] == [nal];
    assert [] + [sps] == [sps] && [sps] + [pps] == [sps, pps];
    assert Batches([sps], [pps, nal]) == Batches([sps, pps], [nal]);
  }
}
