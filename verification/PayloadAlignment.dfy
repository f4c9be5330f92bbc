/** align_payload: from a recording to the stretch of it that answers the source. */
module PayloadAlignment {
  import opened AlignedReader
  import opened Arithmetic
  import opened DetectedRuns
  import opened FrameStreams
  import opened MarkerCandidates
  import opened MarkerDetection
  import opened MarkerEvaluation
  import opened MarkerMatching
  import opened MarkerScores
  import opened MarkerSelection
  import opened Wrappers

  /** AlignmentReference, in frames of the recording. */
  datatype Reference = Reference(expected: seq<int>, sourceStart: int, sourceFrames: int)

  /** The descriptor of the aligned payload and the marker latency it rests on. */
  datatype Alignment = Alignment(start: nat, frames: nat, gain: real, latency: int)

  lemma SearchRangeIsInside(expected: seq<int>, sourceStart: int, totalFrames: nat, sampleRate: real)
    ensures var (lower, upper) := SearchRange(expected, sourceStart, totalFrames, sampleRate);
      0 <= lower <= upper <= totalFrames
  {
  }

  function Shifted(found: seq<Candidate>, lower: int): (r: seq<Candidate>)
    ensures |r| == |found|
    ensures forall i :: 0 <= i < |r| ==> r[i] == Candidate(found[i].frame + lower, found[i].peak)
  {
    seq(|found|, i requires 0 <= i < |found| => Candidate(found[i].frame + lower, found[i].peak))
  }

  /** The candidates of the search window: its frames are collapsed to their peaks and searched for runs. */
  ghost predicate AreCandidates(asset: Asset, gain: real, reference: Reference, sampleRate: real,
                                found: seq<Candidate>)
  {
    exists peaks: seq<real>, inWindow: seq<Candidate> ::
      IsSearched(asset, gain, SearchRange(reference.expected, reference.sourceStart, asset.totalFrames, sampleRate),
                 peaks, inWindow, found)
  }

  ghost predicate IsSearched(asset: Asset, gain: real, window: (int, int), peaks: seq<real>,
                             inWindow: seq<Candidate>, found: seq<Candidate>)
  {
    && 0 <= window.0 <= window.1 && |peaks| == window.1 - window.0
    && AreWindowPeaks(asset, window.0, gain, peaks)
    && (if peaks == [] then inWindow == []
        else IsDetection(peaks, 1, 0, |peaks|, Threshold(RangePeak(peaks, 1, 0, |peaks|)), inWindow))
    && found == Shifted(inWindow, window.0)
  }

  /** The candidates over the samples of the recording: the runs of loud frames in reach of the markers. */
  ghost predicate AreLoudRuns(asset: Asset, gain: real, reference: Reference, sampleRate: real, found: seq<Candidate>)
  {
    exists window: (int, int), levels: seq<real>, threshold: real ::
      && IsWindow(reference.expected, reference.sourceStart, asset.totalFrames, sampleRate, window)
      && |levels| == window.1 - window.0 && AreLevels(asset, gain, window.0, levels)
      && IsThreshold(levels, threshold) && AreRuns(levels, threshold, window.0, found)
  }

  lemma LevelsAreNotNegative(asset: Asset, lower: nat, gain: real, peaks: seq<real>)
    requires AreWindowPeaks(asset, lower, gain, peaks)
    ensures forall k :: 0 <= k < |peaks| ==> peaks[k] >= 0.0
  {
    hide FramePeak;
    forall k | 0 <= k < |peaks| ensures peaks[k] >= 0.0 {
      GainedIsMonotone(0.0, FramePeak(asset.samples, asset.channels, lower + k), AbsReal(gain));
    }
  }

  lemma CandidatesAreLoudRuns(asset: Asset, gain: real, reference: Reference, sampleRate: real,
                              found: seq<Candidate>)
    requires AreCandidates(asset, gain, reference, sampleRate, found)
    ensures AreLoudRuns(asset, gain, reference, sampleRate, found)
  {
    hide SearchRange, IsWindow, AreWindowPeaks, AreLevels, IsDetection, IsThreshold, AreRuns, Threshold;
    var window := SearchRange(reference.expected, reference.sourceStart, asset.totalFrames, sampleRate);
    var peaks, inWindow :| IsSearched(asset, gain, window, peaks, inWindow, found);
    SearchRangeIsWindow(reference.expected, reference.sourceStart, asset.totalFrames, sampleRate);
    WindowPeaksAreLevels(asset, gain, window.0, peaks);
    LevelsAreNotNegative(asset, window.0, gain, peaks);
    if peaks == [] {
      NoLevelsNoRuns(window.0);
      assert IsThreshold(peaks, 0.005) && AreRuns(peaks, 0.005, window.0, found);
    } else {
      var threshold := Threshold(RangePeak(peaks, 1, 0, |peaks|));
      ThresholdIsThreshold(peaks);
      DetectionIsRuns(peaks, threshold, window.0, inWindow, found);
      assert IsThreshold(peaks, threshold) && AreRuns(peaks, threshold, window.0, found);
    }
  }

  lemma NoLevelsNoRuns(lower: int)
    ensures IsThreshold([], 0.005) && AreRuns([], 0.005, lower, [])
  {
  }

  /** Every candidate of the sequence is mapped to an expected marker at a representable distance. */
  ghost predicate IsMapped(sequence: MarkerSequence, expected: seq<int>) {
    && |sequence.candidates| == |sequence.expectedIndices|
    && forall i :: 0 <= i < |sequence.candidates| ==>
         && sequence.expectedIndices[i] < |expected|
         && FrameDifference(sequence.candidates[i].frame, expected[sequence.expectedIndices[i]]).Some?
  }

  ghost function MappedLatencies(sequence: MarkerSequence, expected: seq<int>): seq<int>
    requires IsMapped(sequence, expected)
  {
    seq(|sequence.candidates|, i requires 0 <= i < |sequence.candidates| =>
      sequence.candidates[i].frame - expected[sequence.expectedIndices[i]])
  }

  /** marker_latencies: all of them, or none if the mapping is broken. */
  method MarkerLatencies(sequence: MarkerSequence, expected: seq<int>) returns (latencies: seq<int>)
    requires |sequence.candidates| == |sequence.expectedIndices|
    ensures if IsMapped(sequence, expected) then latencies == MappedLatencies(sequence, expected) else latencies == []
  {
    latencies := [];
    for i := 0 to |sequence.candidates|
      invariant |latencies| == i
      invariant forall j :: 0 <= j < i ==>
                  && sequence.expectedIndices[j] < |expected|
                  && FrameDifference(sequence.candidates[j].frame, expected[sequence.expectedIndices[j]])
                       == Some(latencies[j])
    {
      if sequence.expectedIndices[i] >= |expected| {
        return [];
      }
      var latency := FrameDifference(sequence.candidates[i].frame, expected[sequence.expectedIndices[i]]);
      if latency == None {
        return [];
      }
      latencies := latencies + [latency.value];
    }
  }

  /** Enough of the train was found: two markers and 45 percent of it. */
  predicate HasEvidence(selected: Option<MarkerSequence>, expected: seq<int>) {
    && selected.Some? && |selected.value.candidates| >= 2
    && |selected.value.candidates| as real >= 0.45 * (|expected| as real)
  }

  /** What the selected sequence decides: the payload starts its middle latency after the source did. */
  ghost predicate IsAlignment(reference: Reference, gain: real, selected: MarkerSequence, a: Alignment) {
    && (exists latencies ::
          AreTrainLatencies(selected, reference.expected, latencies) && IsMiddle(latencies, a.latency))
    && a.start == (if reference.sourceStart + a.latency < 0 then 0 else reference.sourceStart + a.latency)
    && a.frames == reference.sourceFrames && a.gain == gain
  }

  /** The median of the mapped latencies is their middle. */
  lemma MedianIsAlignment(selected: MarkerSequence, expected: seq<int>, latencies: seq<int>)
    requires IsMapped(selected, expected) && latencies == MappedLatencies(selected, expected) && latencies != []
    ensures AreTrainLatencies(selected, expected, latencies) && IsMiddle(latencies, Median(latencies))
  {
    MedianIsMiddle(latencies);
  }

  /** At least 45 of 100 markers. */
  lemma EvidenceIsCount(matched: nat, markers: nat)
    ensures matched as real >= 0.45 * (markers as real) <==> 100 * matched >= 45 * markers
  {
  }

  lemma EvaluationIsMapped(p: Problem, m: seq<Pair>, sampleRate: real, sqrt: real -> real)
    requires IsMatching(p, m) && EvaluationOf(p, m, sampleRate, sqrt).Some?
    ensures IsMapped(EvaluationOf(p, m, sampleRate, sqrt).value.sequence, p.expected)
    ensures |EvaluationOf(p, m, sampleRate, sqrt).value.sequence.candidates| == |m|
  {
    hide Median, StandardDeviation, Mean, MissingMarkerPenaltyFrames;
    forall k | 0 <= k < |m|
      ensures FrameDifference(p.candidates[m[k].c].frame, p.expected[m[k].e]).Some?
    {
      assert Admissible(p, m[k].e, m[k].c);
    }
  }

  lemma {:induction false} MatchingIsNotLonger(p: Problem, m: seq<Pair>, k: nat)
    requires IsMatching(p, m) && k < |m|
    ensures k <= m[k].c < |p.candidates|
  {
    if k > 0 {
      MatchingIsNotLonger(p, m, k - 1);
    }
  }

  /** Every train that is selected maps its candidates consistently, each to its own. */
  lemma SelectionIsMapped(run: Run, tried: Trials, r: Option<MarkerSequence>)
    requires IsComplete(run, tried) && IsSelection(run, tried, r) && r.Some?
    ensures IsMapped(r.value, run.expected) && |r.value.candidates| <= |run.candidates|
  {
    hide EvaluationOf, IsMapped, IsHypothesis, InEarliestBand, Drift, AllHypotheses, IsNoWorse;
    SelectionIsReturned(run, tried, r);
    var latency :| Returns(tried, latency, r);
    var trial := tried[latency];
    assert IsMatcherAnswer(run, latency, trial);
    EvaluationIsMapped(run.At(latency), trial.pairing, run.sampleRate, run.sqrt);
    if trial.pairing != [] {
      MatchingIsNotLonger(run.At(latency), trial.pairing, |trial.pairing| - 1);
    }
  }

  lemma SelectionIsReturned(run: Run, tried: Trials, r: Option<MarkerSequence>)
    requires IsSelection(run, tried, r) && r.Some?
    ensures exists latency :: Returns(tried, latency, r)
  {
    hide Strong, InEarliestBand, Returns, IsNoWorse, Drift, AllHypotheses;
  }

  /** The selection that the alignment rests on, given the candidates that were found. */
  ghost predicate IsSelected(reference: Reference, sampleRate: real, sqrt: real -> real, found: seq<Candidate>,
                             tried: Trials, selected: Option<MarkerSequence>)
  {
    if IsAccepted(found, reference.expected, sampleRate) then
      var run := RunFor(found, reference.expected, sampleRate, sqrt);
      IsComplete(run, tried) && IsSelection(run, tried, selected)
    else selected == None
  }

  lemma SelectedIsMapped(reference: Reference, sampleRate: real, sqrt: real -> real, found: seq<Candidate>,
                         tried: Trials, selected: Option<MarkerSequence>)
    requires IsSelected(reference, sampleRate, sqrt, found, tried, selected) && selected.Some?
    ensures IsMapped(selected.value, reference.expected) && |selected.value.candidates| <= |found|
  {
    hide IsComplete, IsSelection, IsMapped, NormalizedCandidates;
    SelectionIsMapped(RunFor(found, reference.expected, sampleRate, sqrt), tried, selected);
    NormalizedIsNotLonger(found);
  }

  /** align_payload fails on a bad reference, on a broken reader and without enough evidence, and only then. */
  method AlignPayload(asset: Asset, gain: real, reference: Reference, sampleRate: real, sqrt: real -> real,
                      chunkFrames: pos, grants: seq<Grant>)
    returns (r: Result<Alignment>, ghost found: seq<Candidate>, ghost tried: Trials,
             ghost selected: Option<MarkerSequence>)
    requires asset.Valid()
    ensures r == Err(ValidationFailed) <==> reference.sourceFrames < 0 || reference.sourceStart < 0
    ensures r.Err? ==> r.error == ValidationFailed || r.error == BackendFailure || r.error == AlignmentFailed
    ensures r == Err(BackendFailure) ==> !AllLegal(grants)
    ensures r.Ok? || r == Err(AlignmentFailed) ==>
      && AreCandidates(asset, gain, reference, sampleRate, found)
      && AreLoudRuns(asset, gain, reference, sampleRate, found)
      && IsSelected(reference, sampleRate, sqrt, found, tried, selected)
      && (r.Ok? <==> HasEvidence(selected, reference.expected))
      && (r.Ok? <==> selected.Some? && |selected.value.candidates| >= 2
                     && 100 * |selected.value.candidates| >= 45 * |reference.expected|)
    ensures r.Ok? ==> selected.Some? && IsAlignment(reference, gain, selected.value, r.value)
  {
    hide IsDetection, AreWindowPeaks, IsComplete, IsSelection, IsAccepted, SearchRange, IsMapped, NormalizedCandidates,
         AreLoudRuns, IsMiddle, AreTrainLatencies, IsSearched;
    found, tried, selected := [], map[], None;
    if reference.sourceFrames < 0 || reference.sourceStart < 0 {
      return Err(ValidationFailed), found, tried, selected;
    }
    var window := SearchRange(reference.expected, reference.sourceStart, asset.totalFrames, sampleRate);
    SearchRangeIsInside(reference.expected, reference.sourceStart, asset.totalFrames, sampleRate);
    var peaks := CollectPeaks(asset, window.0, window.1, gain, chunkFrames, grants);
    if peaks.Err? {
      return Err(BackendFailure), found, tried, selected;
    }
    var inWindow := Detect(peaks.value, 1, 0, |peaks.value|);
    var candidates := Shifted(inWindow, window.0);
    found := candidates;
    WindowIsSearched(asset, gain, window, peaks.value, inWindow, found);
    CandidatesAreLoudRuns(asset, gain, reference, sampleRate, found);
    var chosen, trials := SelectMarkerSequence(candidates, reference.expected, sampleRate, sqrt);
    tried, selected := trials, chosen;
    EvidenceIsCount(if chosen.Some? then |chosen.value.candidates| else 0, |reference.expected|);
    if !HasEvidence(chosen, reference.expected) {
      return Err(AlignmentFailed), found, tried, selected;
    }
    // The source checks the mapping once more: it is consistent for every train that is selected.
    SelectedIsMapped(reference, sampleRate, sqrt, found, tried, selected);
    IndicesMatch(chosen.value, reference.expected);
    var latencies := MarkerLatencies(chosen.value, reference.expected);
    assert |latencies| == |chosen.value.candidates|;
    MedianIsAlignment(chosen.value, reference.expected, latencies);
    var latency := Median(latencies);
    r := Ok(Alignment(Max(0, reference.sourceStart + latency), reference.sourceFrames, gain, latency));
  }

  lemma WindowIsSearched(asset: Asset, gain: real, window: (int, int), peaks: seq<real>, inWindow: seq<Candidate>,
                         found: seq<Candidate>)
    requires 0 <= window.0 <= window.1 && |peaks| == window.1 - window.0
    requires AreWindowPeaks(asset, window.0, gain, peaks) && found == Shifted(inWindow, window.0)
    requires peaks == [] ==> inWindow == []
    requires peaks != [] ==>
      IsDetection(peaks, 1, 0, |peaks|, Threshold(RangePeak(peaks, 1, 0, |peaks|)), inWindow)
    ensures IsSearched(asset, gain, window, peaks, inWindow, found)
  {
  }

  lemma IndicesMatch(sequence: MarkerSequence, expected: seq<int>)
    requires IsMapped(sequence, expected)
    ensures |sequence.candidates| == |sequence.expectedIndices|
  {
  }
}
