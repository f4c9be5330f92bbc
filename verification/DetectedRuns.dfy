/**
 What detection finds, over the samples of the recording: the frames that are searched, their
 levels, and the runs of levels above half the loudest one.
 */
module DetectedRuns {
  import opened AlignedReader
  import opened Arithmetic
  import opened MarkerDetection
  import opened MarkerMatching

  // ---------------------------------------------------------------- the frames that are searched

  /** How far before the first and behind the last expected marker is searched: 600 ms, at least 64 frames. */
  ghost predicate IsRadius(sampleRate: real, radius: int) {
    IsRounded(sampleRate * 0.60, 64, radius)
  }

  /** How much further behind the last one: 80 ms, at least 8 frames. */
  ghost predicate IsTail(sampleRate: real, tail: int) {
    IsRounded(sampleRate * 0.08, 8, tail)
  }

  /** The frame is recorded, in reach of the markers, and not after the start of the source. */
  ghost predicate InReach(expected: seq<int>, sourceStart: int, totalFrames: int, radius: int, tail: int, frame: int)
    requires expected != []
  {
    var last := expected[|expected| - 1];
    && 0 <= frame < totalFrames
    && expected[0] - radius <= frame < last + radius + tail
    && (sourceStart > last ==> frame < sourceStart)
  }

  /** The window holds exactly the frames in reach. */
  ghost predicate IsWindow(expected: seq<int>, sourceStart: int, totalFrames: int, sampleRate: real, window: (int, int))
  {
    && 0 <= window.0 <= window.1
    && if expected == [] then window.0 == window.1
       else exists radius, tail :: IsRadius(sampleRate, radius) && IsTail(sampleRate, tail)
              && forall frame :: window.0 <= frame < window.1 <==>
                   InReach(expected, sourceStart, totalFrames, radius, tail, frame)
  }

  lemma SearchRangeIsWindow(expected: seq<int>, sourceStart: int, totalFrames: int, sampleRate: real)
    ensures IsWindow(expected, sourceStart, totalFrames, sampleRate,
                     SearchRange(expected, sourceStart, totalFrames, sampleRate))
  {
    hide LlRound, IsRounded;
    var radius, tail := Max(64, LlRound(sampleRate * 0.60)), Max(8, LlRound(sampleRate * 0.08));
    LlRoundIsRounded(sampleRate * 0.60, 64);
    LlRoundIsRounded(sampleRate * 0.08, 8);
    assert IsRadius(sampleRate, radius) && IsTail(sampleRate, tail);
  }

  // ---------------------------------------------------------------- their levels

  /** Channel c of a frame, at the gain, without its sign. */
  ghost function Magnitude(asset: Asset, gain: real, frame: nat, c: nat): real {
    Gained(AbsReal(SampleOrZero(asset.samples, Samples(frame, asset.channels) + c)), AbsReal(gain))
  }

  /** The level of a frame is the magnitude of its loudest channel. */
  ghost predicate IsLevel(asset: Asset, gain: real, frame: nat, level: real) {
    && (forall c: nat :: c < asset.channels ==> Magnitude(asset, gain, frame, c) <= level)
    && (exists c: nat :: c < asset.channels && Magnitude(asset, gain, frame, c) == level)
  }

  ghost predicate AreLevels(asset: Asset, gain: real, lower: nat, levels: seq<real>) {
    forall k :: 0 <= k < |levels| ==> IsLevel(asset, gain, lower + k, levels[k])
  }

  lemma {:induction false} PeakFromIsLargest(samples: seq<real>, base: int, k: nat)
    requires k > 0
    ensures forall i {:trigger SampleOrZero(samples, i)} ::
              base <= i < base + k ==> AbsReal(SampleOrZero(samples, i)) <= PeakFrom(samples, base, k)
    ensures exists i {:trigger SampleOrZero(samples, i)} ::
              base <= i < base + k && AbsReal(SampleOrZero(samples, i)) == PeakFrom(samples, base, k)
  {
    var last := AbsReal(SampleOrZero(samples, base + k - 1));
    if k == 1 {
      assert PeakFrom(samples, base, 1) == last;
    } else {
      PeakFromIsLargest(samples, base, k - 1);
      var i :| base <= i < base + (k - 1) && AbsReal(SampleOrZero(samples, i)) == PeakFrom(samples, base, k - 1);
    }
  }

  lemma GainedIsMonotone(x: real, y: real, gain: real)
    requires x <= y && gain >= 0.0
    ensures Gained(x, gain) <= Gained(y, gain)
  {
    assert (y - x) * gain >= 0.0;
  }

  lemma WindowPeakIsLevel(asset: Asset, gain: real, lower: nat, k: nat)
    ensures IsLevel(asset, gain, lower + k, WindowPeak(asset.samples, asset.channels, lower, gain, k))
  {
    hide Gained, PeakFrom;
    var frame := lower + k;
    var base := Samples(frame, asset.channels);
    var peak := PeakFrom(asset.samples, base, asset.channels);
    PeakFromIsLargest(asset.samples, base, asset.channels);
    forall c: nat | c < asset.channels
      ensures Magnitude(asset, gain, frame, c) <= Gained(peak, AbsReal(gain))
    {
      GainedIsMonotone(AbsReal(SampleOrZero(asset.samples, base + c)), peak, AbsReal(gain));
    }
    var i :| base <= i < base + asset.channels && AbsReal(SampleOrZero(asset.samples, i)) == peak;
    assert Magnitude(asset, gain, frame, i - base) == Gained(peak, AbsReal(gain));
  }

  lemma WindowPeaksAreLevels(asset: Asset, gain: real, lower: nat, peaks: seq<real>)
    requires AreWindowPeaks(asset, lower, gain, peaks)
    ensures AreLevels(asset, gain, lower, peaks)
  {
    hide WindowPeak, IsLevel;
    forall k | 0 <= k < |peaks| ensures IsLevel(asset, gain, lower + k, peaks[k]) {
      WindowPeakIsLevel(asset, gain, lower, k);
    }
  }

  // ---------------------------------------------------------------- the runs

  /** Half the loudest level, and at least 0.005. */
  ghost predicate IsThreshold(levels: seq<real>, threshold: real) {
    && threshold >= 0.005
    && (forall k :: 0 <= k < |levels| ==> levels[k] <= 2.0 * threshold)
    && (threshold == 0.005 || exists k :: 0 <= k < |levels| && levels[k] == 2.0 * threshold)
  }

  /** Levels a to b - 1 are above the threshold, and the run cannot be extended. */
  ghost predicate IsRunOf(levels: seq<real>, threshold: real, a: int, b: int) {
    && 0 <= a < b <= |levels|
    && (forall k :: a <= k < b ==> levels[k] > threshold)
    && (a == 0 || levels[a - 1] <= threshold)
    && (b == |levels| || levels[b] <= threshold)
  }

  ghost predicate IsLoudest(levels: seq<real>, a: int, b: int, peak: real)
    requires 0 <= a <= b <= |levels|
  {
    && (forall k :: a <= k < b ==> levels[k] <= peak)
    && (exists k :: a <= k < b && levels[k] == peak)
  }

  /** A run starts at the onset, and the peak is its loudest level. */
  ghost predicate StandsForRun(levels: seq<real>, threshold: real, onset: int, peak: real) {
    exists b :: IsRunOf(levels, threshold, onset, b) && IsLoudest(levels, onset, b, peak)
  }

  /** One candidate for each run above the threshold, in order, and no other candidates. */
  ghost predicate AreRuns(levels: seq<real>, threshold: real, lower: int, found: seq<Candidate>) {
    && (forall i :: 0 <= i < |found| ==>
          StandsForRun(levels, threshold, found[i].frame - lower, found[i].peak))
    && (forall i, j :: 0 <= i < j < |found| ==> found[i].frame < found[j].frame)
    && (forall a, b :: IsRunOf(levels, threshold, a, b) ==> HasCandidate(found, lower + a))
  }

  lemma RangePeakIsLoudest(levels: seq<real>, a: nat, b: nat)
    requires a < b <= |levels| && forall k :: 0 <= k < |levels| ==> levels[k] >= 0.0
    ensures IsLoudest(levels, a, b, RangePeak(levels, 1, a, b))
  {
    hide FramePeak;
    RangePeakIsMaximum(levels, 1, a, b);
    forall k | a <= k < b ensures levels[k] <= RangePeak(levels, 1, a, b) {
      MonoPeak(levels, k);
    }
    var k :| a <= k < b && FramePeak(levels, 1, k) == RangePeak(levels, 1, a, b);
    MonoPeak(levels, k);
  }

  lemma ThresholdIsThreshold(levels: seq<real>)
    requires levels != [] && forall k :: 0 <= k < |levels| ==> levels[k] >= 0.0
    ensures IsThreshold(levels, Threshold(RangePeak(levels, 1, 0, |levels|)))
  {
    hide RangePeak;
    RangePeakIsLoudest(levels, 0, |levels|);
  }

  lemma RunIsRun(levels: seq<real>, threshold: real, a: int, b: int)
    requires forall k :: 0 <= k < |levels| ==> levels[k] >= 0.0
    ensures IsMaximalRun(levels, 1, 0, |levels|, threshold, a, b) <==> IsRunOf(levels, threshold, a, b)
  {
    hide FramePeak;
    forall k | 0 <= k < |levels| ensures Loud(levels, 1, threshold, k) <==> levels[k] > threshold {
      MonoPeak(levels, k);
    }
    if IsMaximalRun(levels, 1, 0, |levels|, threshold, a, b) {
      forall k | a <= k < b ensures levels[k] > threshold {
        assert Loud(levels, 1, threshold, k);
      }
    }
  }

  /** What is detected in a list of levels are its runs. */
  lemma DetectionIsRuns(levels: seq<real>, threshold: real, lower: int, found: seq<Candidate>, shifted: seq<Candidate>)
    requires forall k :: 0 <= k < |levels| ==> levels[k] >= 0.0
    requires IsDetection(levels, 1, 0, |levels|, threshold, found)
    requires |shifted| == |found|
    requires forall i :: 0 <= i < |found| ==> shifted[i] == Candidate(found[i].frame + lower, found[i].peak)
    ensures AreRuns(levels, threshold, lower, shifted)
  {
    hide IsMaximalRun, IsRunOf, Loud, RangePeak, IsLoudest;
    forall i | 0 <= i < |found|
      ensures StandsForRun(levels, threshold, shifted[i].frame - lower, shifted[i].peak)
    {
      var a := found[i].frame;
      assert IsRunCandidate(levels, 1, 0, |levels|, threshold, found[i]);
      var b :| IsMaximalRun(levels, 1, 0, |levels|, threshold, a, b) && found[i].peak == RangePeak(levels, 1, a, b);
      RunIsRun(levels, threshold, a, b);
      RunIsInside(levels, threshold, a, b);
      RangePeakIsLoudest(levels, a, b);
      assert shifted[i].frame - lower == a;
    }
    forall a, b | IsRunOf(levels, threshold, a, b) ensures HasCandidate(shifted, lower + a) {
      RunIsRun(levels, threshold, a, b);
      assert HasCandidate(found, a);
      var i :| 0 <= i < |found| && found[i].frame == a;
      assert shifted[i].frame == lower + a;
    }
  }

  lemma RunIsInside(levels: seq<real>, threshold: real, a: int, b: int)
    requires IsRunOf(levels, threshold, a, b)
    ensures 0 <= a < b <= |levels|
  {
  }

  /** A run at or below half the loudest level gives no candidate: all candidates are louder than that. */
  lemma CandidatesAreLoud(levels: seq<real>, threshold: real, lower: int, found: seq<Candidate>, i: nat, k: nat)
    requires IsThreshold(levels, threshold) && AreRuns(levels, threshold, lower, found)
    requires i < |found| && k < |levels|
    ensures found[i].peak > 0.005 && 2.0 * found[i].peak > levels[k]
  {
    assert StandsForRun(levels, threshold, found[i].frame - lower, found[i].peak);
  }
}
