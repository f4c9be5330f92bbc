/**
 The whole path of a capture over the loopback device: plan, playback, recording, detection,
 selection, trimming.  For every latency below one marker interval the written payload is the
 source itself at the product of the gains.
 */
module EndToEnd {
  import opened AlignedReader
  import opened Arithmetic
  import opened CleanDelay
  import opened CleanWindow
  import opened FakeLoopback
  import opened FrameStreams
  import opened MarkerCandidates
  import opened MarkerDetection
  import opened MarkerEvaluation
  import opened MarkerMatching
  import opened MarkerScores
  import opened MarkerSelection
  import opened PayloadAlignment
  import opened PlaybackPlan
  import opened Wrappers

  const MINIMUM_RATE := 1000.0
  const MAXIMUM_RATE := 768000.0

  // ---------------------------------------------------------------- the plan

  function MarkerInterval(rate: real): int {
    Max(1, LlRound(rate * 0.1))
  }

  function MarkerSilence(rate: real): int {
    Max(1, LlRound(rate * 2.0))
  }

  function MarkerFrames(interval: int, first: int, count: nat): (r: seq<int>)
    ensures |r| == count && forall i :: 0 <= i < count ==> r[i] == first + i * interval
  {
    seq(count, i => first + i * interval)
  }

  /** make_alignment_playback_plan. */
  function AlignmentPlan(source: Asset, rate: real, gain: real, markerLevel: real): Result<Plan> {
    if source.totalFrames <= 0 then Err(ValidationFailed)
    else
      var interval := MarkerInterval(rate);
      var start := (IMPULSE_COUNT - 1) * interval + MarkerSilence(rate);
      if start > MAX_FRAME - source.totalFrames then Err(ValidationFailed)
      else
        Ok(Plan(source.channels, source.totalFrames, start + source.totalFrames,
                MarkerFrames(interval, 0, IMPULSE_COUNT), start, gain, markerLevel))
  }

  /** Every plan that is made is one the backends accept. */
  lemma AlignmentPlanIsPlan(source: Asset, rate: real, gain: real, markerLevel: real)
    requires AlignmentPlan(source, rate, gain, markerLevel).Ok?
    ensures IsPlan(AlignmentPlan(source, rate, gain, markerLevel).value)
  {
    var p, interval := AlignmentPlan(source, rate, gain, markerLevel).value, MarkerInterval(rate);
    forall q, r | 0 <= q < r < |p.markers| ensures p.markers[q] < p.markers[r] {
      MulDistributes(r, q, interval);
      MulMonotone(1, r - q, interval);
    }
    forall q | 0 <= q < |p.markers| ensures 0 <= p.markers[q] < p.sourceStart {
      MulMonotone(q, IMPULSE_COUNT - 1, interval);
      MulMonotone(0, q, interval);
    }
  }

  /** Markers are 100 ms apart. */
  ghost predicate IsInterval(rate: real, interval: int) {
    IsRounded(rate * 0.1, 1, interval)
  }

  /** Two seconds of silence follow on the last one. */
  ghost predicate IsSilence(rate: real, silence: int) {
    IsRounded(rate * 2.0, 1, silence)
  }

  /** Half a second is recorded before and after the playback. */
  ghost predicate IsPadding(rate: real, padding: int) {
    IsRounded(rate * 0.5, 0, padding)
  }

  lemma PlanIsRounded(rate: real)
    requires rate >= 0.0
    ensures IsInterval(rate, MarkerInterval(rate)) && IsSilence(rate, MarkerSilence(rate))
    ensures LlRound(rate * 0.5) >= 0 && IsPadding(rate, LlRound(rate * 0.5))
  {
    hide LlRound;
    LlRoundIsRounded(rate * 0.1, 1);
    LlRoundIsRounded(rate * 2.0, 1);
    LlRoundIsRounded(rate * 0.5, 0);
    LlRoundIsNear(rate * 0.5);
  }

  /** Five markers from frame 0 on, an interval apart, the silence, and the source up to the end. */
  ghost predicate IsLaidOut(source: Asset, interval: int, silence: int, p: Plan) {
    && |p.markers| == 5 && (forall i :: 0 <= i < 5 ==> p.markers[i] == i * interval)
    && p.sourceStart == 4 * interval + silence
    && p.totalFrames == source.totalFrames && p.playbackFrames == p.sourceStart + source.totalFrames
    && p.channels == source.channels
  }

  /** There is a plan for every source that has frames and whose playback has a 64-bit length. */
  lemma AlignmentPlanIsLaidOut(source: Asset, rate: real, gain: real, markerLevel: real, interval: int, silence: int)
    requires IsInterval(rate, interval) && IsSilence(rate, silence)
    ensures
      var r := AlignmentPlan(source, rate, gain, markerLevel);
      && (r.Ok? <==> source.totalFrames > 0
                     && 4 * interval + silence + source.totalFrames <= 0x7fff_ffff_ffff_ffff)
      && (r.Ok? ==> IsLaidOut(source, interval, silence, r.value) && r.value.gain == gain
                    && r.value.markerLevel == markerLevel)
      && (r.Err? ==> r.error == ValidationFailed)
  {
    hide LlRound;
    LlRoundIsRounded(rate * 0.1, 1);
    LlRoundIsRounded(rate * 2.0, 1);
    RoundedIsUnique(rate * 0.1, 1, interval, MarkerInterval(rate));
    RoundedIsUnique(rate * 2.0, 1, silence, MarkerSilence(rate));
  }

  // ---------------------------------------------------------------- rounding

  /** At every supported rate a marker interval is longer than the tolerance and shorter than the padding. */
  lemma RateBounds(rate: real)
    requires MINIMUM_RATE <= rate <= MAXIMUM_RATE
    ensures 2 <= MarkerInterval(rate) <= 100000
    ensures SequenceMatchToleranceFrames(rate) < MarkerInterval(rate)
    ensures MarkerInterval(rate) <= LlRound(rate * 0.5) <= 1000000
    ensures MarkerInterval(rate) <= LlRound(rate * 0.60)
    ensures MarkerInterval(rate) <= MarkerSilence(rate) <= 2000000
  {
    LlRoundIsNear(rate * 0.1);
    LlRoundIsNear(rate * 0.035);
    LlRoundIsNear(rate * 0.5);
    LlRoundIsNear(rate * 0.60);
    LlRoundIsNear(rate * 2.0);
  }

  // ---------------------------------------------------------------- the setting

  /** A capture of a source over the loopback device, and the reference it is aligned against. */
  datatype Session = Session(
    source: Asset, rate: real, gain: real, markerLevel: real, setup: Setup, recordingGain: real)
  {
    ghost predicate Valid() {
      && source.Valid() && setup.Valid() && MINIMUM_RATE <= rate <= MAXIMUM_RATE
      && AlignmentPlan(source, rate, gain, markerLevel) == Ok(setup.plan)
      && setup.padding == LlRound(rate * 0.5)
      && setup.plan.playbackFrames + 2 * setup.padding <= MAX_FRAME
    }

    /** The recording that the loopback device makes. */
    ghost function Recorded(): Asset
      requires setup.Valid()
    {
      Asset(DelayedFrames(setup, Played(setup, source.samples), 0, setup.TotalFrames()),
            setup.recordChannels, setup.TotalFrames())
    }

    function AlignedTo(): Reference {
      Reference(MarkerFrames(MarkerInterval(rate), setup.padding, IMPULSE_COUNT),
                setup.padding + setup.plan.sourceStart, setup.plan.totalFrames)
    }

    function Level(): real {
      Gained(MarkerLevel(setup), AbsReal(recordingGain))
    }

    function Window(): (int, int) {
      SearchRange(AlignedTo().expected, AlignedTo().sourceStart, setup.TotalFrames(), rate)
    }

    /** The markers come back above the fixed threshold. */
    predicate IsLoud() {
      setup.mapped > 0 && Level() > 0.005
    }

    /** How many markers arrive before the search window ends. */
    function Arrived(): nat {
      ArrivalsBefore(setup.padding + setup.latency, MarkerInterval(rate), Window().1, IMPULSE_COUNT)
    }

    /** The markers come back above the fixed threshold, less than one interval late. */
    ghost predicate IsClean() {
      Valid() && IsLoud() && setup.latency < MarkerInterval(rate)
    }
  }

  /** How many of the `count` frames first, first + interval, ... lie before `end`. */
  function ArrivalsBefore(first: int, interval: int, end: int, count: nat): (n: nat)
    ensures n <= count
    ensures n > 0 ==> first + (n - 1) * interval < end
    ensures n < count ==> end <= first + n * interval
  {
    if count == 0 then 0
    else if first + (count - 1) * interval < end then count
    else ArrivalsBefore(first, interval, end, count - 1)
  }

  // ---------------------------------------------------------------- detection

  /** The window starts before the markers and ends before the source could arrive. */
  lemma WindowIsInside(s: Session)
    requires s.Valid()
    ensures
      && 0 <= s.Window().0 <= s.setup.padding && s.Window().1 <= s.setup.padding + s.setup.plan.sourceStart
      && s.Window().1 <= s.setup.TotalFrames() && s.Window().1 <= 10000000
  {
    RateBounds(s.rate);
    LlRoundIsNear(s.rate * 0.60);
    LlRoundIsNear(s.rate * 0.08);
    var e := s.AlignedTo().expected;
    assert e[0] == s.setup.padding + 0 * MarkerInterval(s.rate);
    assert e[|e| - 1] == s.setup.padding + 4 * MarkerInterval(s.rate);
  }

  /** It ends one interval or more behind the last expected marker. */
  lemma WindowReaches(s: Session)
    requires s.Valid()
    ensures s.Window().1 >= s.setup.padding + 5 * MarkerInterval(s.rate)
  {
    RateBounds(s.rate);
    var e := s.AlignedTo().expected;
    assert e[0] == s.setup.padding + 0 * MarkerInterval(s.rate);
    assert e[|e| - 1] == s.setup.padding + 4 * MarkerInterval(s.rate);
  }

  /** So the whole delayed train is in it for a latency below the interval, and more is lost the longer it is. */
  lemma WindowHoldsTrain(s: Session)
    requires s.Valid()
    ensures s.setup.latency < MarkerInterval(s.rate) ==> s.Arrived() == IMPULSE_COUNT
    ensures (IMPULSE_COUNT - s.Arrived()) * MarkerInterval(s.rate) <= s.setup.latency
    ensures s.Arrived() > 0 ==> s.setup.padding + s.setup.latency < s.Window().1
  {
    hide SearchRange, LlRound, ArrivalsBefore, IsPlan;
    RateBounds(s.rate);
    WindowReaches(s);
    var interval, n := MarkerInterval(s.rate), s.Arrived();
    MulDistributes(IMPULSE_COUNT, n, interval);
    if n > 0 {
      MulMonotone(0, n - 1, interval);
    }
    if n < IMPULSE_COUNT {
      MulMonotone(n, IMPULSE_COUNT - 1, interval);
    }
  }

  /** The frames of the window at which markers arrive. */
  function Arrivals(s: Session, lower: int): seq<int> {
    MarkerFrames(MarkerInterval(s.rate), s.setup.padding + s.setup.latency - lower, s.Arrived())
  }

  lemma ArrivalsAreInside(s: Session, i: nat)
    requires s.Valid() && i < s.Arrived()
    ensures s.setup.padding + s.setup.latency + i * MarkerInterval(s.rate) < s.Window().1
    ensures s.setup.padding <= s.setup.padding + s.setup.latency + i * MarkerInterval(s.rate)
  {
    hide SearchRange, LlRound, ArrivalsBefore, IsPlan;
    RateBounds(s.rate);
    MulMonotone(i, s.Arrived() - 1, MarkerInterval(s.rate));
    MulMonotone(0, i, MarkerInterval(s.rate));
  }

  lemma ArrivalsAreApart(s: Session, lower: int)
    requires MarkerInterval(s.rate) >= 2
    ensures var at := Arrivals(s, lower); forall i, j :: 0 <= i < j < |at| ==> at[i] + 1 < at[j]
  {
    var at, interval := Arrivals(s, lower), MarkerInterval(s.rate);
    forall i, j | 0 <= i < j < |at| ensures at[i] + 1 < at[j] {
      MulDistributes(j, i, interval);
      MulMonotone(1, j - i, interval);
    }
  }

  /** A frame of the window is an arrival exactly if it plays back a marker. */
  lemma ArrivalPlaysMarker(s: Session, lower: int, k: int)
    requires s.Valid() && lower + k < s.Window().1
    ensures k in Arrivals(s, lower) <==> s.setup.PlaybackFrame(lower + k) in s.setup.plan.markers
  {
    hide SearchRange, LlRound, ArrivalsBefore, IsPlan;
    var at, markers := Arrivals(s, lower), s.setup.plan.markers;
    if k in at {
      var i :| 0 <= i < |at| && at[i] == k;
      assert markers[i] == s.setup.PlaybackFrame(lower + k);
    }
    if s.setup.PlaybackFrame(lower + k) in markers {
      var i :| 0 <= i < |markers| && markers[i] == s.setup.PlaybackFrame(lower + k);
      if i >= s.Arrived() {
        LateMarkerIsOutside(s, i);
      }
      assert at[i] == k;
    }
  }

  lemma LateMarkerIsOutside(s: Session, i: nat)
    requires s.Valid() && s.Arrived() <= i < IMPULSE_COUNT
    ensures s.Window().1 <= s.setup.padding + s.setup.latency + i * MarkerInterval(s.rate)
  {
    hide SearchRange, LlRound, ArrivalsBefore, IsPlan;
    RateBounds(s.rate);
    MulMonotone(s.Arrived(), i, MarkerInterval(s.rate));
  }

  /** A peak of the search window is the marker level at an arrival and silent elsewhere. */
  lemma WindowPeakIs(s: Session, lower: nat, upper: nat, peaks: seq<real>, k: nat)
    requires s.Valid() && s.Window() == (lower, upper) && lower <= upper && |peaks| == upper - lower
    requires AreWindowPeaks(s.Recorded(), lower, s.recordingGain, peaks) && k < |peaks|
    ensures peaks[k] == if k in Arrivals(s, lower) && s.setup.mapped > 0 then s.Level() else 0.0
  {
    hide FramePeak, MarkerLevel, Played, DelayedFrames, IsPlan, SearchRange, LlRound, Arrivals;
    WindowIsInside(s);
    ArrivalPlaysMarker(s, lower, k);
    PreamblePeak(s.setup, s.source.samples, lower + k);
    assert peaks[k] == WindowPeak(s.Recorded().samples, s.Recorded().channels, lower, s.recordingGain, k);
  }

  /** The peaks of the search window are a pulse train at the arrivals. */
  lemma WindowIsPulseTrain(s: Session, lower: nat, upper: nat, peaks: seq<real>)
    requires s.Valid() && s.IsLoud() && s.Arrived() > 0
    requires s.Window() == (lower, upper) && lower <= upper && |peaks| == upper - lower
    requires AreWindowPeaks(s.Recorded(), lower, s.recordingGain, peaks)
    ensures IsPulseTrain(peaks, Arrivals(s, lower), s.Level())
  {
    hide AreWindowPeaks, MarkerLevel, IsPlan, SearchRange, LlRound, ArrivalsBefore;
    RateBounds(s.rate);
    WindowIsInside(s);
    ArrivalsAreApart(s, lower);
    var at := Arrivals(s, lower);
    forall i | 0 <= i < |at| ensures 0 <= at[i] < |peaks| {
      ArrivalsAreInside(s, i);
    }
    forall k | 0 <= k < |peaks| ensures peaks[k] == if k in at then s.Level() else 0.0 {
      WindowPeakIs(s, lower, upper, peaks, k);
    }
  }

  /** The candidates are the markers that arrived, each `latency` frames late. */
  lemma CandidatesAreArrivals(s: Session, found: seq<Candidate>)
    requires s.Valid() && s.IsLoud() && s.Arrived() > 0
    requires AreCandidates(s.Recorded(), s.recordingGain, s.AlignedTo(), s.rate, found)
    ensures |found| == s.Arrived()
    ensures IsCleanDelay(found, s.AlignedTo().expected, MarkerInterval(s.rate), s.setup.latency)
  {
    hide IsDetection, AreWindowPeaks, IsPulseTrain, MarkerLevel, Played, DelayedFrames, IsPlan, LlRound, SearchRange,
         ArrivalsBefore;
    RateBounds(s.rate);
    var window := s.Window();
    WindowIsInside(s);
    WindowHoldsTrain(s);
    var peaks, inWindow :| IsSearched(s.Recorded(), s.recordingGain, window, peaks, inWindow, found);
    WindowIsPulseTrain(s, window.0, window.1, peaks);
    PulsesAreInside(peaks, Arrivals(s, window.0), s.Level());
    PulsesAreDetected(peaks, Arrivals(s, window.0), s.Level(), inWindow);
    var e, interval := s.AlignedTo().expected, MarkerInterval(s.rate);
    assert e[0] == s.setup.padding + 0 * interval;
  }

  lemma PulsesAreInside(peaks: seq<real>, at: seq<int>, a: real)
    requires IsPulseTrain(peaks, at, a)
    ensures peaks != []
  {
    assert 0 <= at[0] < |peaks|;
  }

  /** Without a marker that is loud enough and arrives in time there is no candidate. */
  lemma SilenceHasNoCandidates(s: Session, found: seq<Candidate>)
    requires s.Valid() && (!s.IsLoud() || s.Arrived() == 0)
    requires AreCandidates(s.Recorded(), s.recordingGain, s.AlignedTo(), s.rate, found)
    ensures found == []
  {
    hide IsDetection, AreWindowPeaks, MarkerLevel, Played, DelayedFrames, IsPlan, LlRound, SearchRange,
         ArrivalsBefore;
    var window := s.Window();
    WindowIsInside(s);
    var peaks, inWindow :| IsSearched(s.Recorded(), s.recordingGain, window, peaks, inWindow, found);
    LevelIsNotNegative(s);
    forall k | 0 <= k < |peaks| ensures 0.0 <= peaks[k] <= 0.005 {
      WindowPeakIs(s, window.0, window.1, peaks, k);
    }
    if peaks != [] {
      QuietIsEmpty(peaks, inWindow);
    }
  }

  lemma LevelIsNotNegative(s: Session)
    ensures s.Level() >= 0.0
  {
  }

  // ---------------------------------------------------------------- selection

  /** The selection holds enough markers, and `latency` is in the middle of their latencies. */
  ghost predicate SelectsLatency(s: Session, selected: Option<MarkerSequence>, latency: int) {
    && HasEvidence(selected, s.AlignedTo().expected)
    && exists latencies ::
         AreTrainLatencies(selected.value, s.AlignedTo().expected, latencies) && IsMiddle(latencies, latency)
  }

  lemma LatenciesAreUnique(train: MarkerSequence, expected: seq<int>, a: seq<int>, b: seq<int>)
    requires AreTrainLatencies(train, expected, a) && AreTrainLatencies(train, expected, b)
    ensures a == b
  {
  }

  /** A selection has one latency only. */
  lemma OneLatencyIsSelected(s: Session, selected: Option<MarkerSequence>, x: int, y: int)
    requires SelectsLatency(s, selected, x) && SelectsLatency(s, selected, y)
    ensures x == y
  {
    hide IsMiddle, AreTrainLatencies, LlRound;
    var expected := s.AlignedTo().expected;
    var a :| AreTrainLatencies(selected.value, expected, a) && IsMiddle(a, x);
    var b :| AreTrainLatencies(selected.value, expected, b) && IsMiddle(b, y);
    LatenciesAreUnique(selected.value, expected, a, b);
    MiddleIsUnique(a, x, y);
  }

  lemma TrainSelectsLatency(s: Session, run: Run, selected: Option<MarkerSequence>, k: int)
    requires IsFrame(s.setup.latency + k * MarkerInterval(s.rate)) && run.expected == s.AlignedTo().expected
    requires IsTrainShiftedBy(run, MarkerInterval(s.rate), s.setup.latency, k, selected)
    requires HasEvidence(selected, run.expected)
    ensures SelectsLatency(s, selected, s.setup.latency + k * MarkerInterval(s.rate))
  {
    hide LlRound, IsMiddle;
    var latencies := MappedLatencies(selected.value, run.expected);
    MiddleOfConstant(latencies, s.setup.latency + k * MarkerInterval(s.rate));
    assert AreTrainLatencies(selected.value, run.expected, latencies);
  }

  /** At every supported rate a missing marker costs more than an interval of lateness. */
  lemma RateIsSteady(rate: real)
    requires MINIMUM_RATE <= rate <= MAXIMUM_RATE
    ensures MarkerInterval(rate) as real * LATE_ECHO_TIE_BREAKER_WEIGHT + 0.001 <= MissingMarkerPenaltyFrames(rate)
  {
    hide LlRound;
    LlRoundIsNear(rate * 0.1);
  }

  /** The inputs of the selection are those of a clean run. */
  lemma SessionIsCleanRun(s: Session, sqrt: real -> real, found: seq<Candidate>)
    requires s.Valid() && s.IsLoud() && s.Arrived() > 0 && IsSquareRoot(sqrt)
    requires AreCandidates(s.Recorded(), s.recordingGain, s.AlignedTo(), s.rate, found)
    ensures
      var run := RunFor(found, s.AlignedTo().expected, s.rate, sqrt);
      && IsAccepted(found, s.AlignedTo().expected, s.rate)
      && IsCleanRun(run, MarkerInterval(s.rate), s.setup.latency) && IsSteady(run, MarkerInterval(s.rate))
      && |run.candidates| == s.Arrived() && |run.expected| == IMPULSE_COUNT
  {
    hide AreCandidates, IsAccepted, MarkerLevel, IsPlan, LlRound, SearchRange, ArrivalsBefore, IsCleanRun, IsCleanDelay,
         MissingMarkerPenaltyFrames, MarkerInterval, SequenceMatchToleranceFrames;
    RateBounds(s.rate);
    RateIsSteady(s.rate);
    CandidatesAreArrivals(s, found);
    CleanDelayIsCleanRun(found, s.AlignedTo().expected, s.rate, sqrt, MarkerInterval(s.rate), s.setup.latency);
  }

  /** By how many intervals the alignment is off, if enough markers arrive. */
  function FoundShift(s: Session): int {
    if s.Arrived() == 3 then -2 else if s.setup.latency < MarkerInterval(s.rate) then 0 else -1
  }

  lemma FoundShiftIsSelected(s: Session, run: Run)
    requires s.Valid() && 3 <= s.Arrived() && |run.candidates| == s.Arrived() && |run.expected| == IMPULSE_COUNT
    ensures
      if s.Arrived() == 3 then Lost(run) == 2 && 2 * MarkerInterval(s.rate) <= s.setup.latency
      else
        && IsNearlyComplete(run)
        && FoundShift(s) == SelectedShift(IMPULSE_COUNT, s.setup.latency, MarkerInterval(s.rate))
  {
    hide LlRound, SearchRange, ArrivalsBefore, IsPlan;
    WindowHoldsTrain(s);
  }

  lemma TrainHasEvidence(run: Run, interval: int, delay: int, k: int, r: Option<MarkerSequence>, expected: seq<int>)
    requires IsTrainShiftedBy(run, interval, delay, k, r) && -2 <= k
    requires |run.candidates| >= 3 && |run.expected| == |expected| == IMPULSE_COUNT
    ensures HasEvidence(r, expected)
  {
  }

  /** With three markers or more the alignment rests on a latency that is right or some intervals too short. */
  lemma EnoughMarkersSelect(s: Session, sqrt: real -> real, found: seq<Candidate>, tried: Trials,
                            selected: Option<MarkerSequence>)
    requires s.Valid() && s.IsLoud() && s.Arrived() >= 3 && IsSquareRoot(sqrt)
    requires AreCandidates(s.Recorded(), s.recordingGain, s.AlignedTo(), s.rate, found)
    requires IsSelected(s.AlignedTo(), s.rate, sqrt, found, tried, selected)
    ensures SelectsLatency(s, selected, s.setup.latency + FoundShift(s) * MarkerInterval(s.rate))
  {
    hide AreCandidates, IsComplete, IsSelection, IsAccepted, MarkerLevel, IsPlan, LlRound, IsTrainShiftedBy,
         HasEvidence, SelectsLatency, SearchRange, ArrivalsBefore, IsCleanRun, IsSteady, IsNearlyComplete,
         MarkerInterval;
    var run := RunFor(found, s.AlignedTo().expected, s.rate, sqrt);
    var interval, latency := MarkerInterval(s.rate), s.setup.latency;
    SessionIsCleanRun(s, sqrt, found);
    FoundShiftIsSelected(s, run);
    if s.Arrived() == 3 {
      LossyDelaySelection(run, interval, latency, tried, selected);
    } else {
      CleanDelaySelection(run, interval, latency, tried, selected);
    }
    TrainHasEvidence(run, interval, latency, FoundShift(s), selected, s.AlignedTo().expected);
    FoundIsFrame(s);
    TrainSelectsLatency(s, run, selected, FoundShift(s));
  }

  lemma FoundIsFrame(s: Session)
    requires s.Valid() && s.Arrived() > 0
    ensures IsFrame(s.setup.latency + FoundShift(s) * MarkerInterval(s.rate))
  {
    hide LlRound, SearchRange, ArrivalsBefore, IsPlan;
    RateBounds(s.rate);
    WindowIsInside(s);
    WindowHoldsTrain(s);
  }

  /** With two markers or fewer there is not enough evidence. */
  lemma FewMarkersFail(s: Session, sqrt: real -> real, found: seq<Candidate>, tried: Trials,
                       selected: Option<MarkerSequence>)
    requires s.Valid() && (!s.IsLoud() || s.Arrived() <= 2)
    requires AreCandidates(s.Recorded(), s.recordingGain, s.AlignedTo(), s.rate, found)
    requires IsSelected(s.AlignedTo(), s.rate, sqrt, found, tried, selected)
    ensures !HasEvidence(selected, s.AlignedTo().expected)
  {
    hide AreCandidates, IsComplete, IsSelection, IsAccepted, MarkerLevel, IsPlan, LlRound, SearchRange, ArrivalsBefore,
         IsMapped, IsCleanDelay, IsSelected;
    if s.IsLoud() && s.Arrived() > 0 {
      CandidatesAreArrivals(s, found);
    } else {
      SilenceHasNoCandidates(s, found);
    }
    if selected.Some? {
      SelectedIsMapped(s.AlignedTo(), s.rate, sqrt, found, tried, selected);
    }
  }

  /** How many markers are found. */
  function Heard(s: Session): nat {
    if s.IsLoud() then s.Arrived() else 0
  }

  /** The latency that is found. */
  function FoundLatency(s: Session): int {
    var latency, interval := s.setup.latency, MarkerInterval(s.rate);
    if Heard(s) == 3 then latency - 2 * interval
    else if latency < interval then latency else latency - interval
  }

  /**
   What the alignment rests on, for every session: the true latency if it is below the marker
   interval; one interval less if four or five markers are found, because then the train that
   misses its first marker is earlier; two less if three are found; and with fewer it fails.
   */
  lemma SelectedLatency(s: Session, sqrt: real -> real, found: seq<Candidate>, tried: Trials,
                        selected: Option<MarkerSequence>)
    requires s.Valid() && IsSquareRoot(sqrt)
    requires AreCandidates(s.Recorded(), s.recordingGain, s.AlignedTo(), s.rate, found)
    requires IsSelected(s.AlignedTo(), s.rate, sqrt, found, tried, selected)
    ensures if Heard(s) >= 3 then SelectsLatency(s, selected, FoundLatency(s))
            else !HasEvidence(selected, s.AlignedTo().expected)
  {
    hide AreCandidates, IsSelected, MarkerLevel, IsPlan, LlRound, SearchRange, ArrivalsBefore, SelectsLatency,
         HasEvidence, MarkerInterval;
    if Heard(s) >= 3 {
      EnoughMarkersSelect(s, sqrt, found, tried, selected);
    } else {
      FewMarkersFail(s, sqrt, found, tried, selected);
    }
  }

  /** Of all sessions exactly those are aligned whose markers are loud enough and less than one interval late. */
  lemma AlignedIffShortLatency(s: Session, sqrt: real -> real, found: seq<Candidate>, tried: Trials,
                               selected: Option<MarkerSequence>)
    requires s.Valid() && IsSquareRoot(sqrt)
    requires AreCandidates(s.Recorded(), s.recordingGain, s.AlignedTo(), s.rate, found)
    requires IsSelected(s.AlignedTo(), s.rate, sqrt, found, tried, selected)
    ensures SelectsLatency(s, selected, s.setup.latency) <==> s.IsClean()
  {
    hide AreCandidates, IsSelected, MarkerLevel, IsPlan, LlRound, SearchRange, ArrivalsBefore, HasEvidence,
         SelectsLatency;
    RateBounds(s.rate);
    WindowHoldsTrain(s);
    SelectedLatency(s, sqrt, found, tried, selected);
    SelectionHasEvidence(s, selected);
    if SelectsLatency(s, selected, FoundLatency(s)) && SelectsLatency(s, selected, s.setup.latency) {
      OneLatencyIsSelected(s, selected, FoundLatency(s), s.setup.latency);
    }
  }

  lemma SelectionHasEvidence(s: Session, selected: Option<MarkerSequence>)
    ensures forall latency :: SelectsLatency(s, selected, latency) ==> HasEvidence(selected, s.AlignedTo().expected)
  {
    hide HasEvidence, LlRound;
  }

  // ---------------------------------------------------------------- the payload

  /** Channel c of frame i of the source at all gains, or silence on a channel that is not looped back. */
  function SourceSample(s: Session, i: nat, c: nat): real {
    if c < s.setup.mapped then
      Gained(Gained(Gained(SampleOrZero(s.source.samples, Samples(i, s.source.channels) + c), s.gain),
                    s.setup.gain), s.recordingGain)
    else 0.0
  }

  /** The frames of the source, and nothing else. */
  ghost predicate IsGainedSource(s: Session, payload: seq<real>) {
    && |payload| == Samples(s.source.totalFrames, s.setup.recordChannels)
    && forall i: nat, c: nat {:trigger SourceSample(s, i, c)} ::
         i < s.source.totalFrames && c < s.setup.recordChannels ==> HasSource(s, payload, i, c)
  }

  ghost predicate HasSource(s: Session, payload: seq<real>, i: nat, c: nat) {
    && Samples(i, s.setup.recordChannels) + c < |payload|
    && payload[Samples(i, s.setup.recordChannels) + c] == SourceSample(s, i, c)
  }

  /** What is recorded `latency` frames after the source started is the source. */
  lemma DelayedSource(s: Session, i: nat, c: nat)
    requires s.Valid() && i < s.source.totalFrames && c < s.setup.recordChannels
    ensures
      var f := s.AlignedTo().sourceStart + s.setup.latency + i;
      Gained(Delayed(s.setup, Played(s.setup, s.source.samples), f, c), s.recordingGain) == SourceSample(s, i, c)
  {
    hide Played, Playback, LlRound;
    if c < s.setup.mapped {
      var frame := s.setup.plan.sourceStart + i;
      SamplesAdd(i, 1, s.source.channels);
      OneFrame(s.source.channels);
      SamplesMonotone(i + 1, s.source.totalFrames, s.source.channels);
      PlayedAt(s.setup, s.source.samples, Samples(frame, s.source.channels) + c);
      SourceFrame(s.setup.plan, s.source.samples, frame, c);
    }
  }

  /** The recording, `latency` frames after the source started, is the source. */
  lemma RecordedSource(s: Session, i: nat, c: nat)
    requires s.Valid() && s.setup.latency <= s.setup.padding
    requires i < s.source.totalFrames && c < s.setup.recordChannels
    ensures
      var start := s.AlignedTo().sourceStart + s.setup.latency;
      Gained(StretchSample(s.Recorded().samples, start, s.setup.recordChannels,
                           Samples(i, s.setup.recordChannels) + c), s.recordingGain)
        == SourceSample(s, i, c)
  {
    hide Played, Delayed, DelayedFrames, SourceSample, LlRound, Gained;
    var f := s.AlignedTo().sourceStart + s.setup.latency + i;
    SamplesAdd(f - i, i, s.setup.recordChannels);
    DelayedFramesAt(s.setup, Played(s.setup, s.source.samples), s.setup.TotalFrames(), f, c);
    DelayedSource(s, i, c);
  }

  /** So the aligned payload is the source at the product of the gains. */
  lemma PayloadIsSource(s: Session, payload: seq<real>)
    requires s.Valid() && s.setup.latency <= s.setup.padding
    requires payload == Payload(s.Recorded().samples, s.AlignedTo().sourceStart + s.setup.latency,
                                s.source.totalFrames, s.setup.recordChannels, s.recordingGain)
    ensures IsGainedSource(s, payload)
  {
    hide Played, DelayedFrames, IsPlan, LlRound, StretchSample;
    var n, channels, start := s.source.totalFrames, s.setup.recordChannels, s.AlignedTo().sourceStart + s.setup.latency;
    var extract := Extracted(s.Recorded().samples, start, n, channels, n);
    assert |payload| == |extract| == Samples(n, channels);
    forall i: nat, c: nat | i < n && c < channels
      ensures HasSource(s, payload, i, c)
    {
      SamplesAdd(i, 1, channels);
      OneFrame(channels);
      SamplesMonotone(i + 1, n, channels);
      ScaledAt(extract, s.recordingGain, Samples(i, channels) + c);
      RecordedSource(s, i, c);
    }
  }

  // ---------------------------------------------------------------- the whole path

  function SessionFor(source: Asset, rate: real, gain: real, markerLevel: real, plan: Plan, routeChannels: nat,
                      recordChannels: pos, latency: nat, loopbackGain: real, recordingGain: real): Session
    requires rate >= 0.0
  {
    Session(source, rate, gain, markerLevel,
            SetupFor(plan, routeChannels, recordChannels, LlRound(rate * 0.5), latency, loopbackGain), recordingGain)
  }

  /**
   The captures whose payload is the source: it has frames and a playback and recording of 64-bit length, at least
   one channel is routed, its markers come back above 0.005 and less than one interval late.
   */
  ghost predicate IsCleanCapture(source: Asset, rate: real, gain: real, markerLevel: real, routeChannels: nat,
                                 latency: nat, loopbackGain: real, recordingGain: real)
  {
    && source.totalFrames > 0 && routeChannels > 0
    && Gained(AbsReal(Gained(Gained(markerLevel, gain), loopbackGain)), AbsReal(recordingGain)) > 0.005
    && exists interval, silence, padding ::
         && IsInterval(rate, interval) && IsSilence(rate, silence) && IsPadding(rate, padding)
         && latency < interval
         && 4 * interval + silence + source.totalFrames + 2 * padding <= 0x7fff_ffff_ffff_ffff
  }

  lemma RoundedPlanIsUnique(rate: real, interval: int, silence: int, padding: int)
    requires rate >= 0.0 && IsInterval(rate, interval) && IsSilence(rate, silence) && IsPadding(rate, padding)
    ensures interval == MarkerInterval(rate) && silence == MarkerSilence(rate) && padding == LlRound(rate * 0.5)
  {
    hide LlRound;
    PlanIsRounded(rate);
    RoundedIsUnique(rate * 0.1, 1, interval, MarkerInterval(rate));
    RoundedIsUnique(rate * 2.0, 1, silence, MarkerSilence(rate));
    RoundedIsUnique(rate * 0.5, 0, padding, LlRound(rate * 0.5));
  }

  /** Exactly these captures are the clean sessions. */
  lemma CleanCaptureIsClean(source: Asset, rate: real, gain: real, markerLevel: real, routeChannels: nat,
                            recordChannels: pos, latency: nat, loopbackGain: real, recordingGain: real)
    requires source.Valid() && MINIMUM_RATE <= rate <= MAXIMUM_RATE
    ensures
      var plan := AlignmentPlan(source, rate, gain, markerLevel);
      IsCleanCapture(source, rate, gain, markerLevel, routeChannels, latency, loopbackGain, recordingGain)
      <==> plan.Ok? && SessionFor(source, rate, gain, markerLevel, plan.value, routeChannels, recordChannels, latency,
                                  loopbackGain, recordingGain).IsClean()
  {
    hide LlRound, IsPlan, IsInterval, IsSilence, IsPadding, SearchRange;
    var plan := AlignmentPlan(source, rate, gain, markerLevel);
    var interval, silence, padding := MarkerInterval(rate), MarkerSilence(rate), LlRound(rate * 0.5);
    PlanIsRounded(rate);
    AlignmentPlanIsLaidOut(source, rate, gain, markerLevel, interval, silence);
    if plan.Ok? {
      AlignmentPlanIsPlan(source, rate, gain, markerLevel);
      MappedChannels(plan.value, routeChannels, recordChannels, padding, latency, loopbackGain, 0);
    }
    forall a, b, c | IsInterval(rate, a) && IsSilence(rate, b) && IsPadding(rate, c)
      ensures a == interval && b == silence && c == padding
    {
      RoundedPlanIsUnique(rate, a, b, c);
    }
  }

  /** Channel c of frame i of the source at all gains, if it is routed; silence on all other channels. */
  ghost function ReturnedSource(source: Asset, routeChannels: nat, gain: real, loopbackGain: real,
                                recordingGain: real, i: nat, c: nat): real
  {
    if c < source.channels && c < routeChannels then
      Gained(Gained(Gained(SampleOrZero(source.samples, Samples(i, source.channels) + c), gain), loopbackGain),
             recordingGain)
    else 0.0
  }

  /** The frames of the source at all gains, on the recorded channels, and nothing else. */
  ghost predicate IsReturnedSource(source: Asset, routeChannels: nat, recordChannels: pos, gain: real,
                                   loopbackGain: real, recordingGain: real, payload: seq<real>)
  {
    && |payload| == Samples(source.totalFrames, recordChannels)
    && forall i: nat, c: nat
         {:trigger ReturnedSource(source, routeChannels, gain, loopbackGain, recordingGain, i, c)} ::
         i < source.totalFrames && c < recordChannels ==>
           HoldsAt(payload, Samples(i, recordChannels) + c,
                   ReturnedSource(source, routeChannels, gain, loopbackGain, recordingGain, i, c))
  }

  lemma SourceSampleIsReturned(source: Asset, rate: real, gain: real, markerLevel: real, plan: Plan,
                               routeChannels: nat, recordChannels: pos, latency: nat, loopbackGain: real,
                               recordingGain: real, i: nat, c: nat)
    requires rate >= 0.0 && AlignmentPlan(source, rate, gain, markerLevel) == Ok(plan) && c < recordChannels
    ensures
      var s := SessionFor(source, rate, gain, markerLevel, plan, routeChannels, recordChannels, latency, loopbackGain,
                          recordingGain);
      SourceSample(s, i, c) == ReturnedSource(source, routeChannels, gain, loopbackGain, recordingGain, i, c)
  {
    hide LlRound, Gained, SampleOrZero;
    LlRoundIsNear(rate * 0.5);
    MappedChannels(plan, routeChannels, recordChannels, LlRound(rate * 0.5), latency, loopbackGain, c);
  }

  lemma GainedSourceIsReturned(source: Asset, rate: real, gain: real, markerLevel: real, plan: Plan,
                               routeChannels: nat, recordChannels: pos, latency: nat, loopbackGain: real,
                               recordingGain: real, payload: seq<real>)
    requires rate >= 0.0 && AlignmentPlan(source, rate, gain, markerLevel) == Ok(plan)
    requires
      var s := SessionFor(source, rate, gain, markerLevel, plan, routeChannels, recordChannels, latency, loopbackGain,
                          recordingGain);
      IsGainedSource(s, payload)
    ensures IsReturnedSource(source, routeChannels, recordChannels, gain, loopbackGain, recordingGain, payload)
  {
    hide LlRound, SourceSample, ReturnedSource;
    var s := SessionFor(source, rate, gain, markerLevel, plan, routeChannels, recordChannels, latency, loopbackGain,
                        recordingGain);
    forall i: nat, c: nat {:trigger ReturnedSource(source, routeChannels, gain, loopbackGain, recordingGain, i, c)}
      | i < source.totalFrames && c < recordChannels
      ensures HoldsAt(payload, Samples(i, recordChannels) + c,
                      ReturnedSource(source, routeChannels, gain, loopbackGain, recordingGain, i, c))
    {
      SourceSampleIsReturned(source, rate, gain, markerLevel, plan, routeChannels, recordChannels, latency,
                             loopbackGain, recordingGain, i, c);
      var x := SourceSample(s, i, c);
      assert HasSource(s, payload, i, c);
    }
  }

  /** Aligning a session with three markers or more succeeds, and the payload starts at the latency found. */
  lemma HeardSessionAligns(s: Session, sqrt: real -> real, found: seq<Candidate>, tried: Trials,
                           selected: Option<MarkerSequence>, r: Result<Alignment>)
    requires s.Valid() && Heard(s) >= 3 && IsSquareRoot(sqrt)
    requires AreCandidates(s.Recorded(), s.recordingGain, s.AlignedTo(), s.rate, found)
    requires IsSelected(s.AlignedTo(), s.rate, sqrt, found, tried, selected)
    requires r.Ok? ==> selected.Some? && IsAlignment(s.AlignedTo(), s.recordingGain, selected.value, r.value)
    requires r.Ok? <==> HasEvidence(selected, s.AlignedTo().expected)
    ensures r.Ok? && r.value.start == s.AlignedTo().sourceStart + FoundLatency(s)
    ensures r.value.frames == s.source.totalFrames && r.value.gain == s.recordingGain
  {
    hide AreCandidates, IsSelected, MarkerLevel, LlRound, IsMiddle, AreTrainLatencies, SearchRange, ArrivalsBefore,
         HasEvidence, IsPlan;
    WindowHoldsTrain(s);
    SelectedLatency(s, sqrt, found, tried, selected);
    SelectionHasEvidence(s, selected);
    OneLatencyIsSelected(s, selected, r.value.latency, FoundLatency(s));
    FoundIsNotNegative(s);
  }

  lemma FoundIsNotNegative(s: Session)
    requires s.Valid() && Heard(s) >= 3
    ensures FoundLatency(s) >= 0 && s.AlignedTo().sourceStart >= 0
  {
    hide MarkerLevel, LlRound, SearchRange, ArrivalsBefore, IsPlan;
    RateBounds(s.rate);
    WindowHoldsTrain(s);
    PlanHasFrames(s.setup.plan);
  }

  /** The recording of a session, and the stretch of it that starts at the latency found. */
  ghost predicate IsAlignedSession(s: Session, recorded: Asset, a: Alignment)
    requires s.setup.Valid()
  {
    && recorded == s.Recorded() && a.start == s.AlignedTo().sourceStart + FoundLatency(s) <= recorded.totalFrames
    && a.frames == s.source.totalFrames && a.gain == s.recordingGain
  }

  /**
   The result of every session: too long a recording is refused; with two markers or fewer the alignment fails; and
   otherwise the payload starts at the latency found, if that is a frame of the recording.
   */
  ghost predicate DecidesSession(s: Session, r: Result<(Asset, Alignment)>) {
    if !s.Valid() then r == Err(ValidationFailed)
    else if Heard(s) <= 2 then r == Err(AlignmentFailed)
    else if FoundLatency(s) > s.setup.padding + s.source.totalFrames then r == Err(ValidationFailed)
    else r.Ok? && IsAlignedSession(s, r.value.0, r.value.1)
  }

  /** The sessions that are refused, and why. */
  lemma RefusedIsDecided(s: Session, r: Result<(Asset, Alignment)>)
    requires DecidesSession(s, r)
    ensures !s.Valid() ==> r == Err(ValidationFailed)
    ensures s.Valid() && Heard(s) <= 2 ==> r == Err(AlignmentFailed)
  {
    hide IsPlan, LlRound, ArrivalsBefore, SearchRange;
  }

  /** A clean session is aligned where the source came back. */
  lemma CleanIsDecided(s: Session, r: Result<(Asset, Alignment)>)
    requires s.IsClean() && DecidesSession(s, r)
    ensures r.Ok? && r.value.0 == s.Recorded() && s.setup.latency <= s.setup.padding
    ensures r.value.1 == r.value.1.(start := s.AlignedTo().sourceStart + s.setup.latency,
                                    frames := s.source.totalFrames, gain := s.recordingGain)
  {
    hide MarkerLevel, LlRound, SearchRange, ArrivalsBefore, IsPlan;
    RateBounds(s.rate);
    WindowHoldsTrain(s);
    PlanHasFrames(s.setup.plan);
  }

  lemma AlignmentDecides(s: Session, sqrt: real -> real, found: seq<Candidate>, tried: Trials,
                         selected: Option<MarkerSequence>, r: Result<Alignment>)
    requires s.Valid() && IsSquareRoot(sqrt)
    requires AreCandidates(s.Recorded(), s.recordingGain, s.AlignedTo(), s.rate, found)
    requires IsSelected(s.AlignedTo(), s.rate, sqrt, found, tried, selected)
    requires r.Ok? ==> selected.Some? && IsAlignment(s.AlignedTo(), s.recordingGain, selected.value, r.value)
    requires r.Ok? <==> HasEvidence(selected, s.AlignedTo().expected)
    ensures r.Ok? <==> Heard(s) >= 3
    ensures r.Ok? ==> (r.value.start <= s.setup.TotalFrames() <==>
                         FoundLatency(s) <= s.setup.padding + s.source.totalFrames)
    ensures r.Ok? && r.value.start <= s.setup.TotalFrames() ==> IsAlignedSession(s, s.Recorded(), r.value)
  {
    hide AreCandidates, IsSelected, MarkerLevel, LlRound, IsMapped, DelayedFrames, Played, ArrivalsBefore, HasEvidence,
         SearchRange, IsPlan, IsAlignment;
    if Heard(s) >= 3 {
      HeardSessionAligns(s, sqrt, found, tried, selected, r);
      SessionFrames(s);
    }
    SelectedLatency(s, sqrt, found, tried, selected);
  }

  lemma SessionFrames(s: Session)
    requires s.Valid()
    ensures s.setup.TotalFrames() == s.AlignedTo().sourceStart + s.setup.padding + s.source.totalFrames
  {
    hide LlRound;
  }

  /** Capture over the loopback device and align the recording. */
  method CaptureAndAlign(
      source: Asset, rate: real, gain: real, markerLevel: real, routeChannels: nat, recordChannels: pos,
      latency: nat, loopbackGain: real, recordingGain: real, sqrt: real -> real,
      blockFrames: pos, chunkFrames: pos, played: seq<Grant>, searched: seq<Grant>)
    returns (r: Result<(Asset, Alignment)>)
    requires source.Valid() && MINIMUM_RATE <= rate <= MAXIMUM_RATE && IsSquareRoot(sqrt)
    requires AllLegal(played) && AllLegal(searched)
    ensures r.Ok? ==>
      var (recorded, alignment) := r.value;
      && recorded.Valid() && recorded.channels == recordChannels
      && alignment.start <= recorded.totalFrames && alignment.frames == source.totalFrames
    ensures
      var plan := AlignmentPlan(source, rate, gain, markerLevel);
      if plan.Err? then r == Err(ValidationFailed)
      else
        DecidesSession(SessionFor(source, rate, gain, markerLevel, plan.value, routeChannels, recordChannels, latency,
                                  loopbackGain, recordingGain), r)
  {
    hide AreCandidates, IsSelected, MarkerLevel, LlRound, IsMapped, DelayedFrames, Played, ArrivalsBefore, HasEvidence,
         IsPlan, IsPlayable, SearchRange, IsRecording, AreLoudRuns, IsAlignment, IsAlignedSession;
    var plan := AlignmentPlan(source, rate, gain, markerLevel);
    if plan.Err? {
      return Err(plan.error);
    }
    AlignmentPlanIsPlan(source, rate, gain, markerLevel);
    RateBounds(rate);
    var s := SessionFor(source, rate, gain, markerLevel, plan.value, routeChannels, recordChannels, latency,
                        loopbackGain, recordingGain);
    var reader := new FrameReader(source.samples, source.channels, source.totalFrames, 0, played);
    var captured := Capture(plan.value, reader, routeChannels, recordChannels, s.setup.padding, latency, loopbackGain,
                            blockFrames, chunkFrames);
    LongSessionIsInvalid(s);
    if captured.Err? {
      return Err(captured.error);
    }
    var recorded := Asset(captured.value, recordChannels, s.setup.TotalFrames());
    var alignment, found, tried, selected :=
      AlignPayload(recorded, recordingGain, s.AlignedTo(), rate, sqrt, chunkFrames, searched);
    AlignmentDecides(s, sqrt, found, tried, selected, alignment);
    if alignment.Err? {
      return Err(alignment.error);
    }
    AlignedFrames(s.AlignedTo(), recordingGain, selected.value, alignment.value);
    if alignment.value.start > recorded.totalFrames {
      return Err(ValidationFailed);
    }
    r := Ok((recorded, alignment.value));
  }

  lemma AlignedFrames(reference: Reference, gain: real, selected: MarkerSequence, a: Alignment)
    requires IsAlignment(reference, gain, selected, a)
    ensures a.frames == reference.sourceFrames
  {
  }

  /** A planned session is valid unless its recording would be too long. */
  lemma LongSessionIsInvalid(s: Session)
    requires s.source.Valid() && s.setup.Valid() && MINIMUM_RATE <= s.rate <= MAXIMUM_RATE
    requires AlignmentPlan(s.source, s.rate, s.gain, s.markerLevel) == Ok(s.setup.plan)
    requires s.setup.padding == LlRound(s.rate * 0.5)
    ensures s.Valid() <==> !IsTooLong(s.setup.plan, s.setup.padding)
    ensures s.AlignedTo().sourceFrames >= 0 && s.AlignedTo().sourceStart >= 0
    ensures s.setup.plan.totalFrames == s.source.totalFrames
  {
    hide IsPlan, LlRound;
    PlanHasFrames(s.setup.plan);
  }

  /**
   Capture over the loopback device, align and materialise the payload: with legal readers, any
   chunk and block sizes and any latency below one marker interval, the result is the source at
   the product of the gains.
   */
  method CaptureThroughLoopback(
      source: Asset, rate: real, gain: real, markerLevel: real, routeChannels: nat, recordChannels: pos,
      latency: nat, loopbackGain: real, recordingGain: real, sqrt: real -> real,
      blockFrames: pos, chunkFrames: pos, played: seq<Grant>, searched: seq<Grant>, written: seq<Grant>)
    returns (r: Result<seq<real>>)
    requires source.Valid() && MINIMUM_RATE <= rate <= MAXIMUM_RATE && IsSquareRoot(sqrt)
    requires AllLegal(played) && AllLegal(searched) && AllLegal(written)
    ensures r.Ok? ==> |r.value| == Samples(source.totalFrames, recordChannels)
    ensures IsCleanCapture(source, rate, gain, markerLevel, routeChannels, latency, loopbackGain, recordingGain) ==>
      r.Ok? && IsReturnedSource(source, routeChannels, recordChannels, gain, loopbackGain, recordingGain, r.value)
    ensures
      var plan := AlignmentPlan(source, rate, gain, markerLevel);
      plan.Ok? ==>
        var s := SessionFor(source, rate, gain, markerLevel, plan.value, routeChannels, recordChannels, latency,
                            loopbackGain, recordingGain);
        && (s.IsClean() ==> r.Ok? && IsGainedSource(s, r.value))
        && (!s.Valid() ==> r == Err(ValidationFailed))
        && (s.Valid() && Heard(s) <= 2 ==> r == Err(AlignmentFailed))
  {
    hide MarkerLevel, LlRound, IsGainedSource, DelayedFrames, Played, ArrivalsBefore, IsPlan, SearchRange,
         IsCleanCapture, IsReturnedSource, DecidesSession, Session.Valid;
    CleanCaptureIsClean(source, rate, gain, markerLevel, routeChannels, recordChannels, latency, loopbackGain,
                        recordingGain);
    var aligned := CaptureAndAlign(source, rate, gain, markerLevel, routeChannels, recordChannels, latency,
                                   loopbackGain, recordingGain, sqrt, blockFrames, chunkFrames, played, searched);
    ghost var plan := AlignmentPlan(source, rate, gain, markerLevel);
    if plan.Ok? {
      ghost var s := SessionFor(source, rate, gain, markerLevel, plan.value, routeChannels, recordChannels, latency,
                                loopbackGain, recordingGain);
      RefusedIsDecided(s, aligned);
      if s.IsClean() {
        CleanIsDecided(s, aligned);
      }
    }
    if aligned.Err? {
      return Err(aligned.error);
    }
    var (recorded, alignment) := aligned.value;
    var reader := new FrameReader(recorded.samples, recordChannels, recorded.totalFrames, alignment.start, written);
    r := AlignedReader.Materialize(reader, alignment.frames, alignment.gain, chunkFrames);
    if plan.Ok? {
      ghost var s := SessionFor(source, rate, gain, markerLevel, plan.value, routeChannels, recordChannels, latency,
                                loopbackGain, recordingGain);
      if s.IsClean() {
        PayloadIsSource(s, r.value);
        GainedSourceIsReturned(source, rate, gain, markerLevel, plan.value, routeChannels, recordChannels, latency,
                               loopbackGain, recordingGain, r.value);
      }
    }
  }
}
