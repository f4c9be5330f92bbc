/**
 Finding the marker transients: the per-frame peaks of the search window, collected through any
 chunks and partial reads, and one candidate for every maximal run of frames above the threshold.
 */
module MarkerDetection {
  import opened AlignedReader
  import opened Arithmetic
  import opened FrameStreams
  import opened MarkerEvaluation
  import opened MarkerMatching
  import opened MarkerSelection
  import opened Wrappers

  // ---------------------------------------------------------------- levels

  /** The largest magnitude of `k` samples from `base` on; what lies outside the samples is skipped. */
  function PeakFrom(samples: seq<real>, base: int, k: nat): (r: real)
    ensures r >= 0.0
  {
    if k == 0 then 0.0
    else MaxReal(PeakFrom(samples, base, k - 1), AbsReal(SampleOrZero(samples, base + k - 1)))
  }

  /** frame_peak: the peak over the channels of one frame. */
  function FramePeak(samples: seq<real>, channels: nat, frame: int): (r: real)
    ensures r >= 0.0
  {
    PeakFrom(samples, SampleOffset(frame, channels), channels)
  }

  ghost predicate SameSamples(a: seq<real>, aBase: int, b: seq<real>, bBase: int, k: nat) {
    forall i {:trigger SampleOrZero(a, i)} :: aBase <= i < aBase + k ==>
      SampleOrZero(a, i) == SampleOrZero(b, i - aBase + bBase)
  }

  /** The peak depends only on the samples it looks at. */
  lemma {:induction false} SamePeak(a: seq<real>, aBase: int, b: seq<real>, bBase: int, k: nat)
    requires SameSamples(a, aBase, b, bBase, k)
    ensures PeakFrom(a, aBase, k) == PeakFrom(b, bBase, k)
  {
    if k > 0 {
      SamePeak(a, aBase, b, bBase, k - 1);
    }
  }

  lemma MonoPeak(levels: seq<real>, frame: nat)
    requires frame < |levels| && levels[frame] >= 0.0
    ensures FramePeak(levels, 1, frame) == levels[frame]
  {
    SamplesIsProduct(frame, 1);
    assert PeakFrom(levels, frame, 1) == MaxReal(PeakFrom(levels, frame, 0), AbsReal(levels[frame]));
  }

  /** peak_in_frame_range. */
  function RangePeak(samples: seq<real>, channels: nat, lower: int, upper: int): (r: real)
    ensures r >= 0.0
    decreases upper - lower
  {
    if lower >= upper then 0.0
    else MaxReal(RangePeak(samples, channels, lower, upper - 1), FramePeak(samples, channels, upper - 1))
  }

  /** It is the least bound of the frame peaks. */
  lemma {:induction false} RangePeakIsMaximum(samples: seq<real>, channels: nat, lower: int, upper: int)
    requires lower <= upper
    ensures forall f :: lower <= f < upper ==>
      FramePeak(samples, channels, f) <= RangePeak(samples, channels, lower, upper)
    ensures lower < upper ==>
      exists f :: lower <= f < upper && FramePeak(samples, channels, f) == RangePeak(samples, channels, lower, upper)
    decreases upper - lower
  {
    if lower < upper {
      RangePeakIsMaximum(samples, channels, lower, upper - 1);
      if lower == upper - 1 {
        assert FramePeak(samples, channels, lower) == RangePeak(samples, channels, lower, upper);
      }
    }
  }

  function Threshold(peak: real): real {
    MaxReal(peak * 0.5, 0.005)
  }

  // ---------------------------------------------------------------- maximal runs

  predicate Loud(samples: seq<real>, channels: nat, threshold: real, f: int) {
    FramePeak(samples, channels, f) > threshold
  }

  /** [a, b) is a run of loud frames of the window that cannot be extended. */
  ghost predicate IsMaximalRun(samples: seq<real>, channels: nat, lower: int, upper: int, threshold: real,
                               a: int, b: int)
  {
    && lower <= a < b <= upper
    && (forall f :: a <= f < b ==> Loud(samples, channels, threshold, f))
    && (a == lower || !Loud(samples, channels, threshold, a - 1))
    && (b == upper || !Loud(samples, channels, threshold, b))
  }

  /** The candidate stands for a maximal run: its first frame and its largest frame peak. */
  ghost predicate IsRunCandidate(samples: seq<real>, channels: nat, lower: int, upper: int, threshold: real,
                                 c: Candidate)
  {
    exists b {:trigger IsMaximalRun(samples, channels, lower, upper, threshold, c.frame, b)} ::
      && IsMaximalRun(samples, channels, lower, upper, threshold, c.frame, b)
      && c.peak == RangePeak(samples, channels, c.frame, b)
  }

  ghost predicate HasCandidate(found: seq<Candidate>, frame: int) {
    exists i :: 0 <= i < |found| && found[i].frame == frame
  }

  /** One candidate for every maximal run, in the order of their onsets, and nothing else. */
  ghost predicate IsDetection(samples: seq<real>, channels: nat, lower: int, upper: int, threshold: real,
                              found: seq<Candidate>)
  {
    && (forall i :: 0 <= i < |found| ==> IsRunCandidate(samples, channels, lower, upper, threshold, found[i]))
    && (forall i, j :: 0 <= i < j < |found| ==> found[i].frame < found[j].frame)
    && (forall a, b {:trigger IsMaximalRun(samples, channels, lower, upper, threshold, a, b)} ::
          IsMaximalRun(samples, channels, lower, upper, threshold, a, b) ==> HasCandidate(found, a))
  }

  /** The inner loop: the end of the run that starts at `onset`, and its peak. */
  method FollowRun(samples: seq<real>, channels: nat, lower: int, upper: int, threshold: real, onset: int)
    returns (end: int, peak: real)
    requires lower <= onset < upper && Loud(samples, channels, threshold, onset)
    requires onset == lower || !Loud(samples, channels, threshold, onset - 1)
    ensures IsMaximalRun(samples, channels, lower, upper, threshold, onset, end)
    ensures peak == RangePeak(samples, channels, onset, end)
  {
    hide FramePeak;
    peak := FramePeak(samples, channels, onset);
    end := onset + 1;
    while end < upper
      invariant onset < end <= upper
      invariant forall f :: onset <= f < end ==> Loud(samples, channels, threshold, f)
      invariant peak == RangePeak(samples, channels, onset, end)
    {
      var next := FramePeak(samples, channels, end);
      if next <= threshold {
        break;
      }
      peak := MaxReal(peak, next);
      end := end + 1;
    }
  }

  lemma RunIsCandidate(samples: seq<real>, channels: nat, lower: int, upper: int, threshold: real, c: Candidate,
                       end: int)
    requires IsMaximalRun(samples, channels, lower, upper, threshold, c.frame, end)
    requires c.peak == RangePeak(samples, channels, c.frame, end)
    ensures IsRunCandidate(samples, channels, lower, upper, threshold, c)
  {
  }

  lemma RunsAreInside(samples: seq<real>, channels: nat, lower: int, upper: int, threshold: real)
    ensures forall a, b {:trigger IsMaximalRun(samples, channels, lower, upper, threshold, a, b)} ::
              IsMaximalRun(samples, channels, lower, upper, threshold, a, b) ==> lower <= a < upper
  {
  }

  lemma RunEndsInside(samples: seq<real>, channels: nat, lower: int, upper: int, threshold: real, a: int, b: int)
    requires IsMaximalRun(samples, channels, lower, upper, threshold, a, b)
    ensures lower <= a < b <= upper && (b < upper ==> !Loud(samples, channels, threshold, b))
  {
  }

  lemma QuietIsNoOnset(samples: seq<real>, channels: nat, lower: int, upper: int, threshold: real, frame: int)
    requires FramePeak(samples, channels, frame) <= threshold
    ensures !Loud(samples, channels, threshold, frame)
    ensures forall b {:trigger IsMaximalRun(samples, channels, lower, upper, threshold, frame, b)} ::
              !IsMaximalRun(samples, channels, lower, upper, threshold, frame, b)
  {
    hide FramePeak;
    assert !Loud(samples, channels, threshold, frame);
  }

  /** Inside a run no other run starts, so its candidate covers all onsets before its end. */
  lemma NoOnsetInside(samples: seq<real>, channels: nat, lower: int, upper: int, threshold: real,
                      was: seq<Candidate>, found: seq<Candidate>, onset: int, end: int)
    requires IsMaximalRun(samples, channels, lower, upper, threshold, onset, end)
    requires |found| == |was| + 1 && found[..|was|] == was && found[|was|].frame == onset
    requires forall a, b {:trigger IsMaximalRun(samples, channels, lower, upper, threshold, a, b)} ::
               IsMaximalRun(samples, channels, lower, upper, threshold, a, b) && a < onset ==> HasCandidate(was, a)
    ensures forall a, b {:trigger IsMaximalRun(samples, channels, lower, upper, threshold, a, b)} ::
              IsMaximalRun(samples, channels, lower, upper, threshold, a, b) && a < end ==> HasCandidate(found, a)
  {
    hide Loud;
    forall a, b | IsMaximalRun(samples, channels, lower, upper, threshold, a, b) && a < end
      ensures HasCandidate(found, a)
    {
      if a < onset {
        var i :| 0 <= i < |was| && was[i].frame == a;
        assert found[i] == was[i];
      }
    }
  }

  /** detect_marker_impulse_candidates. */
  method Detect(samples: seq<real>, channels: nat, lower: int, upper: int) returns (found: seq<Candidate>)
    ensures lower >= upper ==> found == []
    ensures lower < upper ==>
      IsDetection(samples, channels, lower, upper, Threshold(RangePeak(samples, channels, lower, upper)), found)
  {
    hide FramePeak, IsRunCandidate, IsMaximalRun;
    found := [];
    if lower >= upper {
      return;
    }
    var threshold := Threshold(RangePeak(samples, channels, lower, upper));
    var frame := lower;
    RunsAreInside(samples, channels, lower, upper, threshold);
    while frame < upper
      invariant lower <= frame <= upper
      invariant frame < upper && Loud(samples, channels, threshold, frame) ==>
                  frame == lower || !Loud(samples, channels, threshold, frame - 1)
      invariant forall i :: 0 <= i < |found| ==>
                  found[i].frame < frame && IsRunCandidate(samples, channels, lower, upper, threshold, found[i])
      invariant forall i, j :: 0 <= i < j < |found| ==> found[i].frame < found[j].frame
      invariant forall a, b {:trigger IsMaximalRun(samples, channels, lower, upper, threshold, a, b)} ::
                  IsMaximalRun(samples, channels, lower, upper, threshold, a, b) && a < frame ==> HasCandidate(found, a)
    {
      if FramePeak(samples, channels, frame) <= threshold {
        QuietIsNoOnset(samples, channels, lower, upper, threshold, frame);
        frame := frame + 1;
        continue;
      }
      var end, peak := FollowRun(samples, channels, lower, upper, threshold, frame);
      var was := found;
      found := found + [Candidate(frame, peak)];
      RunIsCandidate(samples, channels, lower, upper, threshold, Candidate(frame, peak), end);
      RunEndsInside(samples, channels, lower, upper, threshold, frame, end);
      NoOnsetInside(samples, channels, lower, upper, threshold, was, found, frame, end);
      frame := end;
    }
  }

  lemma RunEndIsUnique(samples: seq<real>, channels: nat, lower: int, upper: int, threshold: real, a: int, b: int,
                       b': int)
    requires IsMaximalRun(samples, channels, lower, upper, threshold, a, b)
    requires IsMaximalRun(samples, channels, lower, upper, threshold, a, b')
    ensures b == b'
  {
    hide Loud;
  }

  /** The candidate of one detection occurs in the other. */
  lemma OtherHasIt(samples: seq<real>, channels: nat, lower: int, upper: int, threshold: real,
                   found: seq<Candidate>, other: seq<Candidate>, i: nat) returns (j: nat)
    requires IsDetection(samples, channels, lower, upper, threshold, found) && i < |found|
    requires IsDetection(samples, channels, lower, upper, threshold, other)
    ensures j < |other| && other[j] == found[i]
  {
    hide Loud, IsMaximalRun;
    var a := found[i].frame;
    var b :| IsMaximalRun(samples, channels, lower, upper, threshold, a, b)
             && found[i].peak == RangePeak(samples, channels, a, b);
    assert HasCandidate(other, a);
    j :| 0 <= j < |other| && other[j].frame == a;
    assert IsRunCandidate(samples, channels, lower, upper, threshold, other[j]);
    var b' :| IsMaximalRun(samples, channels, lower, upper, threshold, a, b')
              && other[j].peak == RangePeak(samples, channels, a, b');
    RunEndIsUnique(samples, channels, lower, upper, threshold, a, b, b');
  }

  lemma {:induction false} SameCandidateAt(samples: seq<real>, channels: nat, lower: int, upper: int, threshold: real,
                                           found: seq<Candidate>, other: seq<Candidate>, i: nat)
    requires IsDetection(samples, channels, lower, upper, threshold, found) && i < |found|
    requires IsDetection(samples, channels, lower, upper, threshold, other)
    ensures i < |other| && found[i] == other[i]
  {
    hide IsRunCandidate, IsMaximalRun, HasCandidate;
    var j := OtherHasIt(samples, channels, lower, upper, threshold, found, other, i);
    if j < i {
      SameCandidateAt(samples, channels, lower, upper, threshold, found, other, j);
    }
    var k := OtherHasIt(samples, channels, lower, upper, threshold, other, found, i);
    if k < i {
      SameCandidateAt(samples, channels, lower, upper, threshold, found, other, k);
    }
  }

  /** The levels determine the detection: there is exactly one. */
  lemma DetectionIsUnique(samples: seq<real>, channels: nat, lower: int, upper: int, threshold: real,
                          found: seq<Candidate>, other: seq<Candidate>)
    requires IsDetection(samples, channels, lower, upper, threshold, found)
    requires IsDetection(samples, channels, lower, upper, threshold, other)
    ensures found == other
  {
    hide IsDetection;
    if |found| < |other| {
      SameCandidateAt(samples, channels, lower, upper, threshold, other, found, |found|);
    } else if |other| < |found| {
      SameCandidateAt(samples, channels, lower, upper, threshold, found, other, |other|);
    }
    forall i: nat | i < |found| ensures i < |other| && found[i] == other[i] {
      SameCandidateAt(samples, channels, lower, upper, threshold, found, other, i);
    }
  }

  // ---------------------------------------------------------------- the search window

  /** marker_search_frame_range: [lower, upper), or an empty range. */
  function SearchRange(expected: seq<int>, sourceStart: int, totalFrames: int, sampleRate: real): (r: (int, int)) {
    if totalFrames <= 0 || expected == [] then (0, 0)
    else
      var radius := Max(64, LlRound(sampleRate * 0.60));
      var tail := Max(8, LlRound(sampleRate * 0.08));
      var last := expected[|expected| - 1];
      var lower := Max(0, expected[0] - radius);
      var markerUpper := last + radius + tail;
      var capped := if sourceStart > last then Min(markerUpper, sourceStart) else markerUpper;
      var upper := Min(totalFrames, Max(lower, capped));
      if upper <= lower then (0, 0) else (lower, upper)
  }

  /** Frame k of the window at the recording gain. */
  function WindowPeak(samples: seq<real>, channels: nat, lower: nat, gain: real, k: nat): real {
    Gained(FramePeak(samples, channels, lower + k), AbsReal(gain))
  }

  /** The inner read loop of align_payload: a chunk is filled completely. */
  method FillChunk(recording: FrameReader, chunk: array<real>, requested: nat) returns (ok: bool)
    requires recording.Valid() && Samples(requested, recording.channels) <= chunk.Length
    modifies recording, chunk
    ensures recording.Valid()
    ensures ok ==>
      && recording.position == old(recording.position) + requested
      && Holds(chunk[..], 0, recording.samples, Samples(old(recording.position), recording.channels),
               Samples(requested, recording.channels))
    ensures recording.legal ==> (ok <==> old(recording.position) + requested <= recording.totalFrames)
  {
    var filled := 0;
    ghost var base := Samples(recording.position, recording.channels);
    while filled < requested
      invariant recording.Valid() && filled <= requested && recording.position == old(recording.position) + filled
      invariant Samples(recording.position, recording.channels) == base + Samples(filled, recording.channels)
      invariant Holds(chunk[..], 0, recording.samples, base, Samples(filled, recording.channels))
    {
      var read := FillOnce(recording, chunk, 0, filled, requested, base);
      if read <= 0 || read > requested - filled {
        return false;
      }
      filled := filled + read;
    }
    return true;
  }

  /** The channel loop over one frame of the chunk. */
  method ChunkPeak(chunk: array<real>, base: nat, channels: nat) returns (peak: real)
    requires base + channels <= chunk.Length
    ensures peak == PeakFrom(chunk[..], base, channels)
  {
    peak := 0.0;
    for c := 0 to channels
      invariant peak == PeakFrom(chunk[..], base, c)
    {
      peak := MaxReal(peak, AbsReal(chunk[base + c]));
    }
  }

  /** A frame of the chunk has the peak of the recorded frame it was read from. */
  lemma ChunkFramePeak(chunk: seq<real>, samples: seq<real>, from: nat, count: nat, k: nat, channels: pos)
    requires k < count && Holds(chunk, 0, samples, Samples(from, channels), Samples(count, channels))
    ensures Samples(k, channels) + channels <= Samples(count, channels)
    ensures PeakFrom(chunk, Samples(k, channels), channels) == FramePeak(samples, channels, from + k)
  {
    SamplesAdd(k, 1, channels);
    OneFrame(channels);
    SamplesMonotone(k + 1, count, channels);
    SamplesAdd(from, k, channels);
    SamePeak(chunk, Samples(k, channels), samples, Samples(from + k, channels), channels);
  }

  /** The recorded asset: what its readers hand out. */
  datatype Asset = Asset(samples: seq<real>, channels: pos, totalFrames: nat) {
    predicate Valid() {
      |samples| == Samples(totalFrames, channels)
    }
  }

  ghost predicate AreWindowPeaks(asset: Asset, lower: nat, gain: real, peaks: seq<real>) {
    forall k :: 0 <= k < |peaks| ==> peaks[k] == WindowPeak(asset.samples, asset.channels, lower, gain, k)
  }

  /** The window loop of align_payload: one peak per frame, whatever the chunks and the partial reads. */
  method CollectPeaks(asset: Asset, lower: nat, upper: nat, gain: real, chunkFrames: pos, grants: seq<Grant>)
    returns (r: Result<seq<real>>)
    requires asset.Valid() && lower <= upper && lower <= asset.totalFrames
    ensures r.Ok? ==> |r.value| == upper - lower && AreWindowPeaks(asset, lower, gain, r.value)
    ensures r.Err? ==> r.error == BackendFailure
    ensures AllLegal(grants) ==> (r.Ok? <==> upper <= asset.totalFrames)
  {
    hide FramePeak, PeakFrom;
    var reader := new FrameReader(asset.samples, asset.channels, asset.totalFrames, lower, grants);
    var chunk := new real[Samples(chunkFrames, asset.channels)];
    var peaks: seq<real> := [];
    while |peaks| < upper - lower
      invariant |peaks| <= upper - lower && fresh(reader) && reader.Valid()
      invariant reader.position == lower + |peaks| && AreWindowPeaks(asset, lower, gain, peaks)
    {
      var requested := Min(upper - lower - |peaks|, chunkFrames);
      SamplesMonotone(requested, chunkFrames, asset.channels);
      ghost var from := reader.position;
      var ok := FillChunk(reader, chunk, requested);
      if !ok {
        return Err(BackendFailure);
      }
      for k := 0 to requested
        invariant |peaks| == from - lower + k && AreWindowPeaks(asset, lower, gain, peaks)
        modifies {}
      {
        ChunkFramePeak(chunk[..], asset.samples, from, requested, k, asset.channels);
        var level := ChunkPeak(chunk, Samples(k, asset.channels), asset.channels);
        peaks := peaks + [Gained(level, AbsReal(gain))];
      }
    }
    r := Ok(peaks);
  }
}
