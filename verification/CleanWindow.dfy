/** What the search window of a looped-back marker train looks like, and what is detected in it. */
module CleanWindow {
  import opened AlignedReader
  import opened Arithmetic
  import opened FakeLoopback
  import opened FrameStreams
  import opened MarkerDetection
  import opened MarkerEvaluation
  import opened MarkerMatching
  import opened MarkerSelection
  import opened PlaybackPlan

  // ---------------------------------------------------------------- isolated peaks

  /** Level a at the given frames, which lie apart from each other, and silence at all others. */
  ghost predicate IsPulseTrain(peaks: seq<real>, at: seq<int>, a: real) {
    && |at| > 0
    && (forall i :: 0 <= i < |at| ==> 0 <= at[i] < |peaks|)
    && (forall i, j :: 0 <= i < j < |at| ==> at[i] + 1 < at[j])
    && (forall f :: 0 <= f < |peaks| ==> peaks[f] == if f in at then a else 0.0)
  }

  function Pulses(at: seq<int>, a: real): (r: seq<Candidate>)
    ensures |r| == |at|
    ensures forall i :: 0 <= i < |r| ==> r[i] == Candidate(at[i], a)
  {
    seq(|at|, i requires 0 <= i < |at| => Candidate(at[i], a))
  }

  lemma PulsePeak(peaks: seq<real>, at: seq<int>, a: real, f: int)
    requires IsPulseTrain(peaks, at, a) && a > 0.0 && 0 <= f < |peaks|
    ensures FramePeak(peaks, 1, f) == if f in at then a else 0.0
  {
    MonoPeak(peaks, f);
  }

  /** The loudest frame of a pulse train is a pulse. */
  lemma PulseRangePeak(peaks: seq<real>, at: seq<int>, a: real)
    requires IsPulseTrain(peaks, at, a) && a > 0.0
    ensures RangePeak(peaks, 1, 0, |peaks|) == a
  {
    hide FramePeak;
    RangePeakIsMaximum(peaks, 1, 0, |peaks|);
    PulsePeak(peaks, at, a, at[0]);
    assert at[0] in at;
    var f :| 0 <= f < |peaks| && FramePeak(peaks, 1, f) == RangePeak(peaks, 1, 0, |peaks|);
    PulsePeak(peaks, at, a, f);
  }

  lemma PulseIsLoud(peaks: seq<real>, at: seq<int>, a: real, t: real, f: int)
    requires IsPulseTrain(peaks, at, a) && 0.0 < t < a && 0 <= f < |peaks|
    ensures Loud(peaks, 1, t, f) <==> f in at
  {
    hide FramePeak;
    PulsePeak(peaks, at, a, f);
  }

  /** Every pulse is a maximal run of its own. */
  lemma PulseIsRun(peaks: seq<real>, at: seq<int>, a: real, t: real, i: nat)
    requires IsPulseTrain(peaks, at, a) && 0.0 < t < a && i < |at|
    ensures IsRunCandidate(peaks, 1, 0, |peaks|, t, Candidate(at[i], a))
  {
    hide FramePeak, Loud;
    var f := at[i];
    assert f - 1 !in at && f + 1 !in at by {
      forall j | 0 <= j < |at| ensures at[j] != f - 1 && at[j] != f + 1 {
      }
    }
    PulseIsLoud(peaks, at, a, t, f);
    if f > 0 {
      PulseIsLoud(peaks, at, a, t, f - 1);
    }
    if f + 1 < |peaks| {
      PulseIsLoud(peaks, at, a, t, f + 1);
    }
    PulsePeak(peaks, at, a, f);
    assert RangePeak(peaks, 1, f, f + 1) == MaxReal(RangePeak(peaks, 1, f, f), a);
    assert IsMaximalRun(peaks, 1, 0, |peaks|, t, f, f + 1);
  }

  /** The pulses are what is detected. */
  lemma PulsesAreDetected(peaks: seq<real>, at: seq<int>, a: real, found: seq<Candidate>)
    requires IsPulseTrain(peaks, at, a) && a > 0.005
    requires IsDetection(peaks, 1, 0, |peaks|, Threshold(RangePeak(peaks, 1, 0, |peaks|)), found)
    ensures found == Pulses(at, a)
  {
    var t := Threshold(a);
    PulseRangePeak(peaks, at, a);
    PulsesAreDetection(peaks, at, a, t);
    DetectionIsUnique(peaks, 1, 0, |peaks|, t, found, Pulses(at, a));
  }

  lemma PulsesAreDetection(peaks: seq<real>, at: seq<int>, a: real, t: real)
    requires IsPulseTrain(peaks, at, a) && 0.0 < t < a
    ensures IsDetection(peaks, 1, 0, |peaks|, t, Pulses(at, a))
  {
    hide FramePeak, Loud, IsRunCandidate;
    var pulses := Pulses(at, a);
    forall i: nat | i < |pulses| ensures IsRunCandidate(peaks, 1, 0, |peaks|, t, pulses[i]) {
      PulseIsRun(peaks, at, a, t, i);
    }
    forall f, b | IsMaximalRun(peaks, 1, 0, |peaks|, t, f, b) ensures HasCandidate(pulses, f) {
      assert Loud(peaks, 1, t, f);
      PulseIsLoud(peaks, at, a, t, f);
      var i :| 0 <= i < |at| && at[i] == f;
      assert pulses[i].frame == f;
    }
  }

  lemma ThresholdIsPositive(peak: real)
    ensures Threshold(peak) >= 0.005
  {
  }

  /** Where no frame is louder than the fixed threshold nothing is detected. */
  lemma QuietIsEmpty(peaks: seq<real>, found: seq<Candidate>)
    requires peaks != [] && forall f :: 0 <= f < |peaks| ==> 0.0 <= peaks[f] <= 0.005
    requires IsDetection(peaks, 1, 0, |peaks|, Threshold(RangePeak(peaks, 1, 0, |peaks|)), found)
    ensures found == []
  {
    hide FramePeak, RangePeak, Threshold;
    var t := Threshold(RangePeak(peaks, 1, 0, |peaks|));
    ThresholdIsPositive(RangePeak(peaks, 1, 0, |peaks|));
    if found != [] {
      var f := found[0].frame;
      assert IsRunCandidate(peaks, 1, 0, |peaks|, t, found[0]);
      assert Loud(peaks, 1, t, f);
      MonoPeak(peaks, f);
    }
  }

  // ---------------------------------------------------------------- the looped-back preamble

  /** The level at which a marker is recorded. */
  function MarkerLevel(s: Setup): real {
    AbsReal(Gained(s.plan.Amplitude(), s.gain))
  }

  lemma {:induction false} MappedPeak(samples: seq<real>, base: int, k: nat, mapped: nat, x: real)
    requires forall c {:trigger SampleOrZero(samples, c)} :: base <= c < base + k ==>
               SampleOrZero(samples, c) == if c - base < mapped then x else 0.0
    ensures PeakFrom(samples, base, k) == if k > 0 && mapped > 0 then AbsReal(x) else 0.0
  {
    if k > 0 {
      MappedPeak(samples, base, k - 1, mapped, x);
    }
  }

  /** One recorded sample of a frame before the source arrives. */
  lemma PreambleSampleRecorded(s: Setup, source: seq<real>, f: nat, c: nat)
    requires s.Valid() && f < s.TotalFrames() && c < s.recordChannels && s.PlaybackFrame(f) < s.plan.sourceStart
    ensures SampleOrZero(DelayedFrames(s, Played(s, source), 0, s.TotalFrames()), Samples(f, s.recordChannels) + c)
         == if s.PlaybackFrame(f) in s.plan.markers && c < s.mapped then Gained(s.plan.Amplitude(), s.gain) else 0.0
  {
    hide Played, Playback;
    var frame := s.PlaybackFrame(f);
    DelayedFramesAt(s, Played(s, source), s.TotalFrames(), f, c);
    if 0 <= frame && c < s.mapped {
      PlayedAt(s, source, Samples(frame, s.plan.channels) + c);
      PreambleFrame(s.plan, source, frame, c);
    }
  }

  /** Before the source arrives, a recorded frame is a marker or silent. */
  lemma PreamblePeak(s: Setup, source: seq<real>, f: nat)
    requires s.Valid() && f < s.TotalFrames() && s.PlaybackFrame(f) < s.plan.sourceStart
    ensures FramePeak(DelayedFrames(s, Played(s, source), 0, s.TotalFrames()), s.recordChannels, f)
         == if s.PlaybackFrame(f) in s.plan.markers && s.mapped > 0 then MarkerLevel(s) else 0.0
  {
    hide Played, Delayed, DelayedFrame, PeakFrom;
    var rec, base := DelayedFrames(s, Played(s, source), 0, s.TotalFrames()), Samples(f, s.recordChannels);
    var x := if s.PlaybackFrame(f) in s.plan.markers then Gained(s.plan.Amplitude(), s.gain) else 0.0;
    forall c | base <= c < base + s.recordChannels
      ensures SampleOrZero(rec, c) == if c - base < s.mapped then x else 0.0
    {
      PreambleSampleRecorded(s, source, f, c - base);
    }
    MappedPeak(rec, base, s.recordChannels, s.mapped, x);
  }
}
