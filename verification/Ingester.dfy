/** videoIngester.Ingest of rtc/ingester.go: NAL units grouped into batches, one sample for each
    NAL unit that is not a parameter set and one for the parameter sets of its batch. */
module Ingester {
  import opened Wrappers
  import opened AnnexB
  import opened NalReader
  import opened StapA
  import H264Reader

  datatype Sample = Sample(data: seq<byte>, duration: nat)

  predicate IsParam(nal: Nal) {
    nal.unitType == SPS || nal.unitType == PPS
  }

  // The samples of a batch that ends in `nal`.
  function Emit(sps: Option<Nal>, pps: Option<Nal>, nal: Nal, duration: nat): seq<Sample> {
    (if sps.Some? && pps.Some? then [Sample(Packaged([sps.value, pps.value]).data, 0)] else [])
    + [Sample(nal.data, duration)]
  }

  /** The samples for the NAL units still to come, inside a batch that has `sps` and `pps`. */
  function Feed(sps: Option<Nal>, pps: Option<Nal>, nals: seq<Nal>, duration: nat): seq<Sample>
    decreases |nals|
  {
    if nals == [] then []
    else if nals[0].unitType == SPS then Feed(Some(nals[0]), pps, nals[1..], duration)
    else if nals[0].unitType == PPS then Feed(sps, Some(nals[0]), nals[1..], duration)
    else Emit(sps, pps, nals[0], duration) + Feed(None, None, nals[1..], duration)
  }

  /* ---------- with cancellation ---------- */

  /** How a run of Ingest ends. */
  datatype End = Ended(outcome: Outcome) | Cancelled | WriteFailed

  /** A context by the number of times that it will still be found alive, None for ever. */
  function Fewer(left: Option<nat>): Option<nat> {
    if left.Some? && left.value > 0 then Some(left.value - 1) else left
  }

  // The frames before the slice.
  function Packed(sps: Option<Nal>, pps: Option<Nal>): seq<Nal> {
    if sps.Some? && pps.Some? then [Packaged([sps.value, pps.value])] else []
  }

  function SamplesOf(frames: seq<Nal>, duration: nat): (samples: seq<Sample>)
    ensures |samples| == |frames|
  {
    seq(|frames|, k requires 0 <= k < |frames| => Sample(frames[k].data, if k == |frames| - 1 then duration else 0))
  }

  /** The outer loop: the samples written until the file ends or the context does. */
  function FeedUntil(left: Option<nat>, nals: seq<Nal>, end: Outcome, duration: nat): (seq<Sample>, End)
    decreases |nals|, 1
  {
    if left == Some(0) then ([], Cancelled)
    else BatchUntil(None, None, Fewer(left), nals, end, duration)
  }

  /** The inner loop.  Cut short it leaves the parameter sets it has read, and they are sent alone. */
  function BatchUntil(sps: Option<Nal>, pps: Option<Nal>, left: Option<nat>, nals: seq<Nal>, end: Outcome, duration: nat)
    : (seq<Sample>, End)
    decreases |nals|, 0
  {
    if left == Some(0) then (SamplesOf(Packed(sps, pps), duration), Cancelled)
    else if nals == [] then ([], Ended(end))
    else if nals[0].unitType == SPS then BatchUntil(Some(nals[0]), pps, Fewer(left), nals[1..], end, duration)
    else if nals[0].unitType == PPS then BatchUntil(sps, Some(nals[0]), Fewer(left), nals[1..], end, duration)
    else
      var (more, e) := FeedUntil(Fewer(left), nals[1..], end, duration);
      (Emit(sps, pps, nals[0], duration) + more, e)
  }

  class Context {
    var left: Option<nat>

    constructor (left: Option<nat>)
      ensures this.left == left
    {
      this.left := left;
    }

    // ctx.Err() == nil
    method Alive() returns (alive: bool)
      modifies this
      ensures alive == (old(left) != Some(0)) && left == Fewer(old(left))
    {
      alive := left != Some(0);
      if left.Some? && left.value > 0 {
        left := Some(left.value - 1);
      }
    }
  }

  /** The track: how many samples it will take before a write fails, None for all. */
  class Track {
    const room: Option<nat>
    var samples: seq<Sample>

    predicate Fits()
      reads this
    {
      room.Some? ==> |samples| <= room.value
    }

    constructor (room: Option<nat>)
      ensures this.room == room && samples == [] && Fits()
    {
      this.room, samples := room, [];
    }

    method WriteSample(sample: Sample) returns (ok: bool)
      requires Fits()
      modifies this
      ensures Fits() && ok == (room.None? || |old(samples)| < room.value)
      ensures samples == if ok then old(samples) + [sample] else old(samples)
    {
      ok := room.None? || |samples| < room.value;
      if ok {
        samples := samples + [sample];
      }
    }
  }

  function NotParams(frames: seq<Nal>): seq<Nal> {
    if frames == [] then []
    else NotParams(frames[..|frames| - 1]) + if IsParam(frames[|frames| - 1]) then [] else [frames[|frames| - 1]]
  }

  // The reader's state as the samples still to come.
  ghost function BatchAhead(sps: Option<Nal>, pps: Option<Nal>, left: Option<nat>, s: State, duration: nat): (seq<Sample>, End)
    requires Ready(s)
  {
    BatchUntil(sps, pps, left, ReadAll(s).0, ReadAll(s).1, duration)
  }

  ghost function FeedAhead(left: Option<nat>, s: State, duration: nat): (seq<Sample>, End)
    requires Ready(s)
  {
    FeedUntil(left, ReadAll(s).0, ReadAll(s).1, duration)
  }

  // The look at the context at the head of the outer loop.
  lemma OuterLook(left: Option<nat>, s: State, duration: nat)
    requires Ready(s)
    ensures FeedAhead(left, s, duration)
         == if left == Some(0) then ([], Cancelled) else BatchAhead(None, None, Fewer(left), s, duration)
  {
  }

  // One NAL unit of the inner loop.
  lemma OneUnit(sps: Option<Nal>, pps: Option<Nal>, left: Option<nat>, s: State, duration: nat)
    requires Ready(s) && left != Some(0)
    ensures var (outcome, s') := NextNal(s);
            && (!outcome.Got? ==> BatchAhead(sps, pps, left, s, duration) == ([], Ended(outcome)))
            && (outcome.Got? ==>
                  var n := outcome.nal;
                  BatchAhead(sps, pps, left, s, duration) ==
                    if n.unitType == SPS then BatchAhead(Some(n), pps, Fewer(left), s', duration)
                    else if n.unitType == PPS then BatchAhead(sps, Some(n), Fewer(left), s', duration)
                    else (Emit(sps, pps, n, duration) + FeedAhead(Fewer(left), s', duration).0,
                          FeedAhead(Fewer(left), s', duration).1))
  {
    var (outcome, s') := NextNal(s);
    if outcome.Got? {
      assert ReadAll(s).0[1..] == ReadAll(s').0;
    }
  }

  lemma OneMoreFrame(frames: seq<Nal>, frame: Nal)
    ensures NotParams(frames + [frame]) == NotParams(frames) + if IsParam(frame) then [] else [frame]
  {
    assert (frames + [frame])[..|frames|] == frames;
  }

  // The inner loop: NAL units up to the first that is no parameter set, to the end, or to the end of
  // the context
  method ReadBatch(ctx: Context, h264: H264Reader.Reader, ghost duration: nat)
    returns (sps: Option<Nal>, pps: Option<Nal>, oFrames: seq<Nal>, end: Option<Outcome>)
    requires h264.Valid()
    modifies ctx, h264, h264.stream
    ensures h264.Valid()
    ensures var before := BatchAhead(None, None, old(ctx.left), old(h264.View()), duration);
            if end.Some? then before == ([], Ended(end.value))
            else if NotParams(oFrames) == [] then
              ctx.left == Some(0) && before == (SamplesOf(Packed(sps, pps), duration), Cancelled)
            else
              && |NotParams(oFrames)| == 1
              && |h264.View().nal| + |h264.View().rest| < old(|h264.View().nal| + |h264.View().rest|)
              && before == (Emit(sps, pps, NotParams(oFrames)[0], duration) + FeedAhead(ctx.left, h264.View(), duration).0,
                            FeedAhead(ctx.left, h264.View(), duration).1)
  {
    ghost var before := BatchAhead(None, None, ctx.left, h264.View(), duration);
    sps, pps, oFrames := None, None, [];
    while true
      invariant h264.Valid() && NotParams(oFrames) == []
      invariant |h264.View().nal| + |h264.View().rest| <= old(|h264.View().nal| + |h264.View().rest|)
      invariant BatchAhead(sps, pps, ctx.left, h264.View(), duration) == before
      decreases |h264.View().nal| + |h264.View().rest|
    {
      ghost var left, s := ctx.left, h264.View();
      var alive := ctx.Alive();
      if !alive {
        return sps, pps, oFrames, None;
      }
      OneUnit(sps, pps, left, s, duration);
      var outcome := h264.NextNAL();
      if !outcome.Got? {
        return sps, pps, oFrames, Some(outcome);
      }
      var frame := outcome.nal;
      OneMoreFrame(oFrames, frame);
      oFrames := oFrames + [frame];
      if frame.unitType == SPS {
        sps := Some(frame);
      } else if frame.unitType == PPS {
        pps := Some(frame);
      } else {
        return sps, pps, oFrames, None;
      }
    }
  }

  lemma PrefixAndFrame(packed: seq<Nal>, frames: seq<Nal>, i: nat)
    requires i < |frames|
    ensures packed + NotParams(frames[..i + 1])
         == if IsParam(frames[i]) then packed + NotParams(frames[..i]) else packed + NotParams(frames[..i]) + [frames[i]]
  {
    assert frames[..i + 1] == frames[..i] + [frames[i]];
    OneMoreFrame(frames[..i], frames[i]);
  }

  // The frames of a batch: its aggregation packet and the NAL units that are no parameter sets
  method Group(sps: Option<Nal>, pps: Option<Nal>, oFrames: seq<Nal>) returns (frames: seq<Nal>)
    ensures frames == Packed(sps, pps) + NotParams(oFrames)
  {
    frames := [];
    if sps.Some? && pps.Some? {
      var stapA := PackageAsStapA([sps.value, pps.value]);
      frames := frames + [stapA];
    }
    ghost var packed := frames;
    assert packed == Packed(sps, pps);
    assert NotParams(oFrames[..0]) == [] && packed + [] == packed;
    hide NotParams, Packed, Packaged;
    for i := 0 to |oFrames|
      invariant frames == packed + NotParams(oFrames[..i])
    {
      PrefixAndFrame(packed, oFrames, i);
      if oFrames[i].unitType != SPS && oFrames[i].unitType != PPS {
        frames := frames + [oFrames[i]];
      }
    }
    assert oFrames[..|oFrames|] == oFrames;
  }

  // The samples of a batch: only its last frame carries time; a failing write ends it
  method WriteSamples(track: Track, frames: seq<Nal>, sampleDuration: nat) returns (ok: bool)
    requires track.Fits()
    modifies track
    ensures track.Fits()
    ensures ok == (track.room.None? || |old(track.samples)| + |frames| <= track.room.value)
    ensures ok ==> track.samples == old(track.samples) + SamplesOf(frames, sampleDuration)
    ensures !ok ==> |track.samples| == track.room.value
                    && track.samples <= old(track.samples) + SamplesOf(frames, sampleDuration)
  {
    ghost var samples := SamplesOf(frames, sampleDuration);
    for i := 0 to |frames|
      invariant track.Fits() && track.samples == old(track.samples) + samples[..i]
    {
      var sample := Sample(frames[i].data, sampleDuration);
      if i != |frames| - 1 {
        sample := sample.(duration := 0);
      }
      assert samples[..i + 1] == samples[..i] + [samples[i]];
      ok := track.WriteSample(sample);
      if !ok {
        assert old(track.samples) + samples[..i] <= old(track.samples) + samples;
        return;
      }
    }
    assert samples[..|frames|] == samples;
    return true;
  }

  lemma EmitIsSamples(sps: Option<Nal>, pps: Option<Nal>, nal: Nal, duration: nat)
    ensures Emit(sps, pps, nal, duration) == SamplesOf(Packed(sps, pps) + [nal], duration)
  {
  }

  lemma Sent(track: seq<Sample>, samples: seq<Sample>, left: seq<Sample>)
    ensures track + (samples + left) == (track + samples) + left
    ensures track + [] == track
  {
  }

  lemma Limited(track: seq<Sample>, samples: seq<Sample>, left: seq<Sample>, now: seq<Sample>)
    requires now <= track + samples
    ensures |now| <= |track + (samples + left)| && now == (track + (samples + left))[..|now|]
  {
    Sent(track, samples, left);
  }

  /** Ingest: what the track holds in the end, and how the run ended, for every context, every track
      and every file. */
  method Ingest(ctx: Context, h264: H264Reader.Reader, track: Track, sampleDuration: nat) returns (result: End)
    requires h264.Valid() && track.Fits() && track.samples == []
    modifies ctx, h264, h264.stream, track
    ensures var (samples, end) := FeedAhead(old(ctx.left), old(h264.View()), sampleDuration);
            if track.room.None? || |samples| <= track.room.value
            then track.samples == samples && result == end
            else track.samples == samples[..track.room.value] && result == WriteFailed
  {
    ghost var goal := FeedAhead(ctx.left, h264.View(), sampleDuration);
    ghost var left := goal.0;
    assert track.samples + left == goal.0;
    hide FeedAhead, BatchAhead, FeedUntil, BatchUntil, SamplesOf, Packed, Emit, NotParams, ReadAll, Ready;
    while true
      invariant h264.Valid() && track.Fits()
      invariant FeedAhead(ctx.left, h264.View(), sampleDuration) == (left, goal.1)
      invariant track.samples + left == goal.0
      decreases if ctx.left == Some(0) then 0 else 1, |h264.View().nal| + |h264.View().rest|
    {
      ghost var sent := track.samples;
      OuterLook(ctx.left, h264.View(), sampleDuration);
      var alive := ctx.Alive();
      if !alive {
        Sent(sent, [], []);
        return Cancelled;
      }
      var sps, pps, oFrames, end := ReadBatch(ctx, h264, sampleDuration);
      if end.Some? {
        Sent(sent, [], []);
        return Ended(end.value);
      }
      OuterLook(ctx.left, h264.View(), sampleDuration);
      left := FeedAhead(ctx.left, h264.View(), sampleDuration).0;
      var frames := Group(sps, pps, oFrames);
      ghost var samples := SamplesOf(frames, sampleDuration);
      BatchIsSamples(sps, pps, oFrames, sampleDuration);
      Sent(sent, samples, left);
      var ok := WriteSamples(track, frames, sampleDuration);
      if !ok {
        Limited(sent, samples, left, track.samples);
        return WriteFailed;
      }
    }
  }

  lemma BatchIsSamples(sps: Option<Nal>, pps: Option<Nal>, oFrames: seq<Nal>, duration: nat)
    requires |NotParams(oFrames)| <= 1
    ensures NotParams(oFrames) == [] ==> Packed(sps, pps) + NotParams(oFrames) == Packed(sps, pps)
    ensures |NotParams(oFrames)| == 1 ==>
              SamplesOf(Packed(sps, pps) + NotParams(oFrames), duration) == Emit(sps, pps, NotParams(oFrames)[0], duration)
  {
    if |NotParams(oFrames)| == 1 {
      EmitIsSamples(sps, pps, NotParams(oFrames)[0], duration);
      assert NotParams(oFrames) == [NotParams(oFrames)[0]];
    }
  }

  lemma {:induction false} BatchWhole(sps: Option<Nal>, pps: Option<Nal>, nals: seq<Nal>, end: Outcome, duration: nat)
    ensures BatchUntil(sps, pps, None, nals, end, duration) == (Feed(sps, pps, nals, duration), Ended(end))
    decreases |nals|
  {
    if nals != [] {
      var n, rest := nals[0], nals[1..];
      if n.unitType == SPS {
        BatchWhole(Some(n), pps, rest, end, duration);
      } else if n.unitType == PPS {
        BatchWhole(sps, Some(n), rest, end, duration);
      } else {
        BatchWhole(None, None, rest, end, duration);
      }
    }
  }

  /** Without cancellation everything is fed. */
  lemma FeedWhole(nals: seq<Nal>, end: Outcome, duration: nat)
    ensures FeedUntil(None, nals, end, duration) == (Feed(None, None, nals, duration), Ended(end))
  {
    BatchWhole(None, None, nals, end, duration);
  }

  lemma {:induction false} BatchEndsExactly(sps: Option<Nal>, pps: Option<Nal>, k: nat, nals: seq<Nal>, end: Outcome, duration: nat)
    ensures var (samples, e) := BatchUntil(sps, pps, Some(k), nals, end, duration);
            && e == (if k >= |nals| + |Slices(nals)| + 1 then Ended(end) else Cancelled)
            && (e == Ended(end) ==> samples == Feed(sps, pps, nals, duration))
    decreases |nals|
  {
    if k > 0 && nals != [] {
      var n, rest := nals[0], nals[1..];
      if n.unitType == SPS {
        BatchEndsExactly(Some(n), pps, k - 1, rest, end, duration);
      } else if n.unitType == PPS {
        BatchEndsExactly(sps, Some(n), k - 1, rest, end, duration);
      } else if k > 1 {
        BatchEndsExactly(None, None, k - 2, rest, end, duration);
      }
    }
  }

  /** A run reaches the end of the file exactly when its context outlives one look for every NAL unit,
      one for every batch, and two at the end; then everything is fed. */
  lemma RunEndsExactly(k: nat, nals: seq<Nal>, end: Outcome, duration: nat)
    ensures var (samples, e) := FeedUntil(Some(k), nals, end, duration);
            && e == (if k >= |nals| + |Slices(nals)| + 2 then Ended(end) else Cancelled)
            && (e == Ended(end) ==> samples == Feed(None, None, nals, duration))
  {
    if k > 0 {
      BatchEndsExactly(None, None, k - 1, nals, end, duration);
    }
  }

  // A sample of parameter sets without a slice behind it, although it carries time.
  ghost predicate ParamsAlone(sample: Sample, duration: nat) {
    exists sps: Nal, pps: Nal :: sps.unitType == SPS && pps.unitType == PPS
                                 && sample == Sample(Packaged([sps, pps]).data, duration)
  }

  ghost predicate CutFrom(samples: seq<Sample>, whole: seq<Sample>, duration: nat) {
    samples <= whole
    || (samples != [] && samples[..|samples| - 1] <= whole && ParamsAlone(samples[|samples| - 1], duration))
  }

  lemma CutBehind(first: seq<Sample>, samples: seq<Sample>, whole: seq<Sample>, duration: nat)
    requires CutFrom(samples, whole, duration)
    ensures CutFrom(first + samples, first + whole, duration)
  {
    if samples != [] {
      assert (first + samples)[..|first + samples| - 1] == first + samples[..|samples| - 1];
    }
  }

  lemma {:induction false} BatchIsCutFrom(sps: Option<Nal>, pps: Option<Nal>, left: Option<nat>, nals: seq<Nal>, end: Outcome, duration: nat)
    requires (sps.Some? ==> sps.value.unitType == SPS) && (pps.Some? ==> pps.value.unitType == PPS)
    ensures CutFrom(BatchUntil(sps, pps, left, nals, end, duration).0, Feed(sps, pps, nals, duration), duration)
    decreases |nals|, 0
  {
    if left == Some(0) {
      if sps.Some? && pps.Some? {
        assert ParamsAlone(Sample(Packaged([sps.value, pps.value]).data, duration), duration);
      }
    } else if nals != [] {
      var n, rest := nals[0], nals[1..];
      if n.unitType == SPS {
        BatchIsCutFrom(Some(n), pps, Fewer(left), rest, end, duration);
      } else if n.unitType == PPS {
        BatchIsCutFrom(sps, Some(n), Fewer(left), rest, end, duration);
      } else {
        FeedIsCutFrom(Fewer(left), rest, end, duration);
        CutBehind(Emit(sps, pps, n, duration), FeedUntil(Fewer(left), rest, end, duration).0, Feed(None, None, rest, duration), duration);
      }
    }
  }

  /** Whenever the context ends, what was sent is a beginning of what would have been sent, but for one
      packet of parameter sets that may follow it. */
  lemma {:induction false} FeedIsCutFrom(left: Option<nat>, nals: seq<Nal>, end: Outcome, duration: nat)
    ensures CutFrom(FeedUntil(left, nals, end, duration).0, Feed(None, None, nals, duration), duration)
    decreases |nals|, 1
  {
    if left != Some(0) {
      BatchIsCutFrom(None, None, Fewer(left), nals, end, duration);
    }
  }

  lemma SameHead(a: seq<Sample>, b: seq<Sample>)
    requires a != [] && b != []
    ensures a <= b ==> a[0] == b[0]
  {
  }

  /** Such a run: a context that ends between the parameter sets and their slice. */
  lemma CutBehindParams(sps: Nal, pps: Nal, nal: Nal, end: Outcome, duration: nat)
    requires sps.unitType == SPS && pps.unitType == PPS && !IsParam(nal) && duration > 0
    ensures FeedUntil(Some(3), [sps, pps, nal], end, duration)
         == ([Sample(Packaged([sps, pps]).data, duration)], Cancelled)
    ensures !([Sample(Packaged([sps, pps]).data, duration)] <= Feed(None, None, [sps, pps, nal], duration))
  {
    var nals, alone := [sps, pps, nal], [Sample(Packaged([sps, pps]).data, duration)];
    assert nals[1..] == [pps, nal] && [pps, nal][1..] == [nal];
    assert SamplesOf(Packed(Some(sps), Some(pps)), duration) == alone;
    assert BatchUntil(Some(sps), Some(pps), Some(0), [nal], end, duration) == (alone, Cancelled);
    assert BatchUntil(Some(sps), None, Some(1), [pps, nal], end, duration) == (alone, Cancelled);
    assert BatchUntil(None, None, Some(2), nals, end, duration) == (alone, Cancelled);
    var whole := Feed(None, None, nals, duration);
    assert whole == Feed(Some(sps), None, [pps, nal], duration) == Feed(Some(sps), Some(pps), [nal], duration);
    assert whole[0].duration == 0 && alone[0].duration == duration;
    SameHead(alone, whole);
  }

  /* ---------- nothing lost, nothing twice ---------- */

  /** A stream cut into batches, each parameter sets and the NAL unit that closes them; what is left
      at the end has no such NAL unit. */
  function Batches(open: seq<Nal>, nals: seq<Nal>): seq<seq<Nal>>
    decreases |nals|
  {
    if nals == [] then []
    else if IsParam(nals[0]) then Batches(open + [nals[0]], nals[1..])
    else [open + [nals[0]]] + Batches([], nals[1..])
  }

  function LeftOver(open: seq<Nal>, nals: seq<Nal>): seq<Nal>
    decreases |nals|
  {
    if nals == [] then open
    else if IsParam(nals[0]) then LeftOver(open + [nals[0]], nals[1..])
    else LeftOver([], nals[1..])
  }

  function Flatten(batches: seq<seq<Nal>>): seq<Nal> {
    if batches == [] then [] else batches[0] + Flatten(batches[1..])
  }

  lemma {:induction false} BatchesPartition(open: seq<Nal>, nals: seq<Nal>)
    ensures Flatten(Batches(open, nals)) + LeftOver(open, nals) == open + nals
    decreases |nals|
  {
    if nals != [] {
      var head, tail := [nals[0]], nals[1..];
      assert nals == head + tail && open + (head + tail) == open + head + tail;
      if IsParam(nals[0]) {
        BatchesPartition(open + head, tail);
      } else {
        BatchesPartition([], tail);
        var more, left := Batches([], tail), LeftOver([], tail);
        assert Flatten([open + head] + more) == open + head + Flatten(more) by {
          assert ([open + head] + more)[1..] == more;
        }
        assert open + head + Flatten(more) + left == open + head + (Flatten(more) + left);
      }
    }
  }

  function Latest(nals: seq<Nal>, unitType: byte): Option<Nal> {
    if nals == [] then None
    else if nals[|nals| - 1].unitType == unitType then Some(nals[|nals| - 1])
    else Latest(nals[..|nals| - 1], unitType)
  }

  /** The samples of a whole batch: its latest parameter sets first if it has both kinds, then the
      NAL unit that closes it. */
  function EmitBatch(batch: seq<Nal>, duration: nat): seq<Sample>
    requires batch != []
  {
    var params := batch[..|batch| - 1];
    Emit(Latest(params, SPS), Latest(params, PPS), batch[|batch| - 1], duration)
  }

  function EmitAll(batches: seq<seq<Nal>>, duration: nat): seq<Sample>
    requires forall i :: 0 <= i < |batches| ==> batches[i] != []
  {
    if batches == [] then [] else EmitBatch(batches[0], duration) + EmitAll(batches[1..], duration)
  }

  lemma {:induction false} BatchesNotEmpty(open: seq<Nal>, nals: seq<Nal>)
    ensures forall i :: 0 <= i < |Batches(open, nals)| ==>
              Batches(open, nals)[i] != [] && !IsParam(Batches(open, nals)[i][|Batches(open, nals)[i]| - 1])
    decreases |nals|
  {
    if nals != [] {
      if IsParam(nals[0]) {
        BatchesNotEmpty(open + [nals[0]], nals[1..]);
      } else {
        BatchesNotEmpty([], nals[1..]);
      }
    }
  }

  /** Ingest emits the batches in order: every NAL unit that is no parameter set exactly once, behind
      the latest SPS and PPS of its own batch exactly when that batch has both. */
  lemma {:induction false} FeedEmitsBatches(open: seq<Nal>, nals: seq<Nal>, duration: nat)
    ensures forall i :: 0 <= i < |Batches(open, nals)| ==> Batches(open, nals)[i] != []
    ensures Feed(Latest(open, SPS), Latest(open, PPS), nals, duration) == EmitAll(Batches(open, nals), duration)
    decreases |nals|
  {
    BatchesNotEmpty(open, nals);
    if nals != [] {
      var n := nals[0];
      if IsParam(n) {
        assert (open + [n])[..|open|] == open;
        FeedEmitsBatches(open + [n], nals[1..], duration);
      } else {
        assert (open + [n])[..|open|] == open;
        FeedEmitsBatches([], nals[1..], duration);
        assert Batches(open, nals)[1..] == Batches([], nals[1..]);
      }
    }
  }

  function TotalDuration(samples: seq<Sample>): nat {
    if samples == [] then 0 else samples[0].duration + TotalDuration(samples[1..])
  }

  function Slices(nals: seq<Nal>): seq<seq<byte>> {
    if nals == [] then [] else (if IsParam(nals[0]) then [] else [nals[0].data]) + Slices(nals[1..])
  }

  function Timed(samples: seq<Sample>): seq<seq<byte>> {
    if samples == [] then [] else (if samples[0].duration > 0 then [samples[0].data] else []) + Timed(samples[1..])
  }

  lemma {:induction false} TimedConcat(a: seq<Sample>, b: seq<Sample>)
    ensures Timed(a + b) == Timed(a) + Timed(b)
    ensures TotalDuration(a + b) == TotalDuration(a) + TotalDuration(b)
  {
    if a == [] {
      assert a + b == b;
    } else {
      assert (a + b)[1..] == a[1..] + b;
      TimedConcat(a[1..], b);
    }
  }

  lemma EmitIsTimed(sps: Option<Nal>, pps: Option<Nal>, nal: Nal, duration: nat)
    requires duration > 0
    ensures Timed(Emit(sps, pps, nal, duration)) == [nal.data]
    ensures TotalDuration(Emit(sps, pps, nal, duration)) == duration
  {
    var slice := [Sample(nal.data, duration)];
    assert Timed(slice) == [nal.data] + Timed([]) && TotalDuration(slice) == duration + TotalDuration([]);
    if sps.Some? && pps.Some? {
      var packed := [Sample(Packaged([sps.value, pps.value]).data, 0)];
      assert Timed(packed) == [] + Timed([]) && TotalDuration(packed) == 0 + TotalDuration([]);
      TimedConcat(packed, slice);
    }
  }

  /** The samples that carry time are the NAL units that are no parameter sets, in order. */
  lemma {:induction false} TimedSamplesAreSlices(sps: Option<Nal>, pps: Option<Nal>, nals: seq<Nal>, duration: nat)
    requires duration > 0
    ensures Timed(Feed(sps, pps, nals, duration)) == Slices(nals)
    decreases |nals|
  {
    if nals != [] {
      var n, tail := nals[0], nals[1..];
      if n.unitType == SPS {
        TimedSamplesAreSlices(Some(n), pps, tail, duration);
      } else if n.unitType == PPS {
        TimedSamplesAreSlices(sps, Some(n), tail, duration);
      } else {
        TimedSamplesAreSlices(None, None, tail, duration);
        EmitIsTimed(sps, pps, n, duration);
        TimedConcat(Emit(sps, pps, n, duration), Feed(None, None, tail, duration));
      }
    }
  }

  lemma OneMore(n: nat, duration: nat)
    ensures (1 + n) * duration == duration + n * duration
  {
  }

  /** All samples together last one sample duration for each such NAL unit. */
  lemma {:induction false} TimeIsConserved(sps: Option<Nal>, pps: Option<Nal>, nals: seq<Nal>, duration: nat)
    requires duration > 0
    ensures TotalDuration(Feed(sps, pps, nals, duration)) == |Slices(nals)| * duration
    decreases |nals|
  {
    if nals == [] {
    } else if nals[0].unitType == SPS {
      TimeIsConserved(Some(nals[0]), pps, nals[1..], duration);
    } else if nals[0].unitType == PPS {
      TimeIsConserved(sps, Some(nals[0]), nals[1..], duration);
    } else {
      var rest := Feed(None, None, nals[1..], duration);
      TimeIsConserved(None, None, nals[1..], duration);
      EmitIsTimed(sps, pps, nals[0], duration);
      TimedConcat(Emit(sps, pps, nals[0], duration), rest);
      assert TotalDuration(Feed(sps, pps, nals, duration)) == duration + TotalDuration(rest);
      assert |Slices(nals)| == 1 + |Slices(nals[1..])|;
      OneMore(|Slices(nals[1..])|, duration);
    }
  }
}
