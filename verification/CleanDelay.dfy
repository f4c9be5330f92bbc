/**
 Recovery of a clean delay: the recording holds the first markers exactly once each, all delayed
 by the same latency.  The full train is selected exactly when the latency is below the marker
 interval or the train is too short for a shifted match to count as strong evidence; otherwise
 the train that misses its first markers is selected, because it is earlier.
 */
module CleanDelay {
  import opened Arithmetic
  import opened MarkerCandidates
  import opened MarkerEvaluation
  import opened MarkerMatching
  import opened MarkerSelection
  import opened Wrappers

  /** Equally spaced markers, and the first of them, louder or softer, `delay` frames later. */
  ghost predicate IsCleanDelay(candidates: seq<Candidate>, expected: seq<int>, interval: int, delay: int) {
    && 2 <= |expected| <= IMPULSE_COUNT && 1 <= |candidates| <= |expected|
    && 0 <= expected[0] && 0 < interval && 0 <= delay
    && (forall i | 0 <= i < |expected| :: expected[i] == expected[0] + i * interval)
    && (forall i | 0 <= i < |candidates| :: candidates[i].frame == expected[i] + delay)
    && IsFrame(expected[0] + |expected| * interval + delay)
  }

  /** A clean run whose tolerance is below the marker interval. */
  ghost predicate IsCleanRun(run: Run, interval: int, delay: int) {
    && IsCleanDelay(run.candidates, run.expected, interval, delay)
    && 0 <= run.tolerance < interval
    && IsSquareRoot(run.sqrt)
  }

  lemma CleanIntervalIsPositive(run: Run, interval: int, delay: int)
    requires IsCleanRun(run, interval, delay)
    ensures interval >= 1 && delay >= 0 && 1 <= |run.candidates| <= |run.expected| <= IMPULSE_COUNT
  {
  }

  lemma MultipleBounds(x: int, n: int, interval: int)
    requires 0 <= x <= n && 0 < interval
    ensures 0 <= x * interval <= n * interval
  {
  }

  lemma LargeMultiple(d: int, interval: int)
    requires d != 0 && 0 < interval
    ensures d * interval >= interval || d * interval <= -interval
    ensures d > 0 <==> d * interval > 0
  {
  }

  lemma CleanDifference(run: Run, interval: int, delay: int, e: nat, c: nat)
    requires IsCleanRun(run, interval, delay) && e < |run.expected| && c < |run.candidates|
    ensures run.candidates[c].frame - run.expected[e] == delay + (c - e) * interval
    ensures FrameDifference(run.candidates[c].frame, run.expected[e]).Some?
  {
    var n := |run.expected|;
    var x, y := c * interval, e * interval;
    MulDistributes(c, e, interval);
    MultipleBounds(c, n, interval);
    MultipleBounds(e, n, interval);
    assert run.candidates[c].frame == run.expected[0] + x + delay;
    assert run.expected[e] == run.expected[0] + y;
  }

  /** Under the hypothesis delay + k * interval, marker e matches exactly candidate e + k. */
  lemma CleanAdmissible(run: Run, interval: int, delay: int, k: int, e: nat, c: nat)
    requires IsCleanRun(run, interval, delay) && e < |run.expected| && c < |run.candidates|
    ensures Admissible(run.At(delay + k * interval), e, c) <==> c - e == k
  {
    CleanDifference(run, interval, delay, e, c);
    MulDistributes(c - e, k, interval);
    if c - e != k {
      LargeMultiple(c - e - k, interval);
    }
  }

  // ---------------------------------------------------------------- the shifted trains

  /** How many of n markers have a candidate among v when every marker e is matched with candidate e + k. */
  function Matches(n: nat, v: nat, k: int): nat
    requires -k < n && k < v <= n
  {
    if k < 0 then Min(v, n + k) else v - k
  }

  /** The pairing of every marker e with candidate e + k. */
  ghost predicate IsShifted(m: seq<Pair>, n: nat, v: nat, k: int)
    requires -k < n && k < v <= n
  {
    && |m| == Matches(n, v, k)
    && forall j | 0 <= j < |m| ::
         m[j].e == (if k < 0 then j - k else j) && m[j].c == (if k < 0 then j else j + k)
  }

  ghost function ShiftedMatching(n: nat, v: nat, k: int): (m: seq<Pair>)
    requires -k < n && k < v <= n
    ensures IsShifted(m, n, v, k)
  {
    seq(Matches(n, v, k), j requires 0 <= j < Matches(n, v, k) =>
      if k < 0 then Pair(j - k, j) else Pair(j, j + k))
  }

  /** A shift under which some marker meets some candidate. */
  ghost predicate IsShift(run: Run, k: int) {
    -k < |run.expected| && k < |run.candidates| <= |run.expected|
  }

  ghost function MatchesAt(run: Run, k: int): nat
    requires IsShift(run, k)
  {
    Matches(|run.expected|, |run.candidates|, k)
  }

  lemma ShiftedIsMatching(run: Run, interval: int, delay: int, k: int)
    requires IsCleanRun(run, interval, delay) && IsShift(run, k)
    ensures IsMatching(run.At(delay + k * interval), ShiftedMatching(|run.expected|, |run.candidates|, k))
  {
    var p, m := run.At(delay + k * interval), ShiftedMatching(|run.expected|, |run.candidates|, k);
    forall j | 0 <= j < |m| ensures Admissible(p, m[j].e, m[j].c) {
      CleanAdmissible(run, interval, delay, k, m[j].e, m[j].c);
    }
  }

  /** n increasing naturals below lo + n, starting at or above lo, are lo, lo + 1, ... */
  lemma {:induction false} IncreasingFillsRange(m: seq<Pair>, lo: nat, j: nat)
    requires j < |m| && lo <= m[0].e
    requires forall a, b | 0 <= a < b < |m| :: m[a].e < m[b].e
    ensures m[j].e >= lo + j
  {
    if j > 0 {
      IncreasingFillsRange(m, lo, j - 1);
    }
  }

  lemma {:induction false} IncreasingIsTight(m: seq<Pair>, hi: int, j: nat)
    requires j < |m| && m[|m| - 1].e < hi
    requires forall a, b | 0 <= a < b < |m| :: m[a].e < m[b].e
    ensures m[j].e < hi - (|m| - 1 - j)
    decreases |m| - j
  {
    if j < |m| - 1 {
      IncreasingIsTight(m, hi, j + 1);
    }
  }

  /** An optimum is at least as long as the shifted train, and it pairs as that train does. */
  lemma OptimumPairsShifted(run: Run, interval: int, delay: int, k: int, m: seq<Pair>)
    requires IsCleanRun(run, interval, delay) && IsShift(run, k)
    requires IsOptimalMatching(run.At(delay + k * interval), m)
    ensures |m| >= MatchesAt(run, k) && forall j | 0 <= j < |m| :: m[j].c - m[j].e == k
  {
    hide MatchingScore;
    var p, best := run.At(delay + k * interval), ShiftedMatching(|run.expected|, |run.candidates|, k);
    ShiftedIsMatching(run, interval, delay, k);
    MatchingScoreCounts(p, m);
    MatchingScoreCounts(p, best);
    assert !LexLess(MatchingScore(p, m), MatchingScore(p, best));
    forall j | 0 <= j < |m| ensures m[j].c - m[j].e == k {
      assert Admissible(p, m[j].e, m[j].c);
      CleanAdmissible(run, interval, delay, k, m[j].e, m[j].c);
    }
  }

  /** The matcher's optimum under delay + k * interval is the train shifted by k. */
  lemma OptimumIsShifted(run: Run, interval: int, delay: int, k: int, m: seq<Pair>)
    requires IsCleanRun(run, interval, delay) && IsShift(run, k)
    requires IsOptimalMatching(run.At(delay + k * interval), m)
    ensures IsShifted(m, |run.expected|, |run.candidates|, k)
  {
    hide IsOptimalMatching, IsCleanRun;
    var n, v := |run.expected|, |run.candidates|;
    CleanIntervalIsPositive(run, interval, delay);
    OptimumPairsShifted(run, interval, delay, k, m);
    OptimumIsMatching(run.At(delay + k * interval), m);
    var lo := if k < 0 then -k else 0;
    var hi := Min(n, v - k);
    forall j | 0 <= j < |m| ensures m[j].e >= lo + j && m[j].e < hi - (|m| - 1 - j) {
      IncreasingFillsRange(m, lo, j);
      IncreasingIsTight(m, hi, j);
    }
    assert m[0].e >= lo && m[0].e < hi - (|m| - 1);
  }

  lemma OptimumIsMatching(p: Problem, m: seq<Pair>)
    requires IsOptimalMatching(p, m)
    ensures InRange(p, m) && forall j, k | 0 <= j < k < |m| :: m[j].e < m[k].e && m[j].c < m[k].c
  {
  }

  // ---------------------------------------------------------------- evaluating a constant delay

  ghost predicate Constant<T>(values: seq<T>, h: T) {
    forall i | 0 <= i < |values| :: values[i] == h
  }

  lemma {:induction false} ConstantSum(values: seq<real>, h: real)
    requires Constant(values, h)
    ensures Sum(values) == |values| as real * h
  {
    if values != [] {
      ConstantSum(values[..|values| - 1], h);
    }
  }

  lemma ConstantMean(values: seq<real>, h: real)
    requires values != [] && Constant(values, h)
    ensures Mean(values) == h
  {
    ConstantSum(values, h);
    var n := |values| as real;
    assert n * h / n == h;
  }

  lemma ConstantDeviation(sqrt: real -> real, values: seq<real>, h: real)
    requires IsSquareRoot(sqrt)
    requires values != [] && Constant(values, h)
    ensures StandardDeviation(sqrt, values) == 0.0
  {
    ConstantMean(values, h);
    forall i | 0 <= i < |values| ensures SquaredDeviations(values)[i] == 0.0 {
      assert values[i] - Mean(values) == 0.0;
    }
    ConstantMean(SquaredDeviations(values), 0.0);
  }

  lemma ConstantMedian(values: seq<int>, h: int)
    requires values != [] && Constant(values, h)
    ensures Median(values) == h
  {
    MedianIsMember(values);
  }

  /** m is the train shifted by k, and h the delay it sees. */
  ghost predicate IsShiftedTrain(run: Run, interval: int, delay: int, k: int, h: int, m: seq<Pair>) {
    && IsCleanRun(run, interval, delay) && IsShift(run, k) && h == delay + k * interval
    && IsShifted(m, |run.expected|, |run.candidates|, k)
  }

  lemma ShiftedLatencies(run: Run, interval: int, delay: int, k: int, h: int, m: seq<Pair>)
    requires IsShiftedTrain(run, interval, delay, k, h, m)
    ensures InRange(run.At(h), m) && Constant(Latencies(run.At(h), m), h)
  {
    forall j | 0 <= j < |m| ensures run.candidates[m[j].c].frame - run.expected[m[j].e] == h {
      CleanDifference(run, interval, delay, m[j].e, m[j].c);
      assert m[j].c - m[j].e == k;
    }
  }

  lemma NeighbourInterval(run: Run, interval: int, delay: int, e: nat, c: nat)
    requires IsCleanRun(run, interval, delay) && e + 1 < |run.expected| && c + 1 < |run.candidates|
    ensures run.expected[e + 1] - run.expected[e] == interval
    ensures run.candidates[c + 1].frame - run.candidates[c].frame == interval
    ensures IsFrame(interval)
  {
    MulDistributes(e + 1, e, interval);
    MulDistributes(c + 1, c, interval);
    MultipleBounds(1, |run.expected|, interval);
    assert run.candidates[c + 1].frame == run.expected[c + 1] + delay;
    assert run.candidates[c].frame == run.expected[c] + delay;
  }

  lemma ShiftedInterval(run: Run, interval: int, delay: int, k: int, h: int, m: seq<Pair>, j: nat)
    requires IsShiftedTrain(run, interval, delay, k, h, m) && InRange(run.At(h), m) && j + 1 < |m|
    ensures IntervalErrors(run.At(h), m)[j] == 0.0
    ensures FrameDifference(run.candidates[m[j + 1].c].frame, run.candidates[m[j].c].frame).Some?
    ensures FrameDifference(run.expected[m[j + 1].e], run.expected[m[j].e]).Some?
  {
    NeighbourInterval(run, interval, delay, m[j].e, m[j].c);
    assert m[j + 1] == Pair(m[j].e + 1, m[j].c + 1);
  }

  lemma ShiftedIntervals(run: Run, interval: int, delay: int, k: int, h: int, m: seq<Pair>)
    requires IsShiftedTrain(run, interval, delay, k, h, m) && InRange(run.At(h), m) && m != []
    ensures IntervalsFit(run.At(h), m) && Constant(IntervalErrors(run.At(h), m), 0.0)
  {
    var errors := IntervalErrors(run.At(h), m);
    forall j | 0 <= j < |errors| ensures errors[j] == 0.0 {
      ShiftedInterval(run, interval, delay, k, h, m, j);
    }
    assert IntervalsFit(run.At(h), m) by {
      var p := run.At(h);
      forall j {:trigger m[j]} | 0 <= j < |m| - 1
        ensures FrameDifference(p.candidates[m[j + 1].c].frame, p.candidates[m[j].c].frame).Some?
        ensures FrameDifference(p.expected[m[j + 1].e], p.expected[m[j].e]).Some?
      {
        ShiftedInterval(run, interval, delay, k, h, m, j);
      }
    }
  }

  /** The fit score of a coherent train: its lateness or earliness, and its missing markers. */
  function ShiftFit(h: int, missing: int, penalty: real): real {
    (if h < 0 then -(h as real) * NEGATIVE_LATENCY_PENALTY_MULTIPLIER else 0.0)
    + MaxReal(0.0, h as real) * LATE_ECHO_TIE_BREAKER_WEIGHT + Gained(missing as real, penalty)
  }

  /** What the evaluation says of a train shifted by k that sees the delay h. */
  ghost predicate IsShiftedEvaluation(run: Run, h: int, m: seq<Pair>, r: Option<Evaluation>) {
    && InRange(run.At(h), m)
    && (r.Some? <==> |m| >= 2)
    && (r.Some? ==>
        && r.value.medianLatency == h
        && r.value.coherent
        && r.value.sequence.fitScore
             == ShiftFit(h, |run.expected| - |m|, MissingMarkerPenaltyFrames(run.sampleRate))
        && r.value.sequence.candidates == MatchedCandidates(run.At(h), m)
        && r.value.sequence.expectedIndices == MatchedIndices(m))
  }

  /** A shifted train of two or more matches is coherent, with the shifted delay as its median. */
  lemma ShiftedEvaluation(run: Run, interval: int, delay: int, k: int, h: int, m: seq<Pair>)
    requires IsShiftedTrain(run, interval, delay, k, h, m) && InRange(run.At(h), m)
    ensures IsShiftedEvaluation(run, h, m, EvaluationOf(run.At(h), m, run.sampleRate, run.sqrt))
  {
    hide StandardDeviation, Mean, Median, MissingMarkerPenaltyFrames;
    if |m| >= 2 {
      var latencies, errors := Latencies(run.At(h), m), IntervalErrors(run.At(h), m);
      ShiftedLatencies(run, interval, delay, k, h, m);
      ShiftedIntervals(run, interval, delay, k, h, m);
      ConstantMedian(latencies, h);
      ConstantDeviation(run.sqrt, Reals(latencies), h as real);
      ConstantDeviation(run.sqrt, errors, 0.0);
      ConstantMean(Magnitudes(errors), 0.0);
    }
  }

  // ---------------------------------------------------------------- the trials of a clean run

  /** How many markers a train may miss and still be strong evidence. */
  function Slack(n: nat): nat {
    if n >= 4 then 1 else 0
  }

  lemma EvidenceRatio(n: nat, matched: nat)
    requires 2 <= matched <= n <= IMPULSE_COUNT
    ensures matched as real / n as real + FIT_SCORE_EPSILON >= WARNING_DETECTED_MARKER_RATIO
      <==> n - matched <= Slack(n)
  {
    if n == 2 {
    } else if n == 3 {
    } else if n == 4 {
    } else {
      assert n == 5;
    }
  }

  /** Everything about the trial of the hypothesis h = delay + k * interval. */
  ghost predicate IsShiftedTrial(run: Run, interval: int, delay: int, k: int, h: int, trial: Trial) {
    && IsShiftedTrain(run, interval, delay, k, h, trial.pairing)
    && IsShiftedEvaluation(run, h, trial.pairing, trial.evaluation)
    && trial.strong == IsStrong(trial.evaluation, |run.expected|)
  }

  lemma AnswerIsShiftedTrial(run: Run, interval: int, delay: int, k: int, h: int, trial: Trial)
    requires IsCleanRun(run, interval, delay) && IsShift(run, k)
    requires h == delay + k * interval && IsMatcherAnswer(run, h, trial)
    ensures IsShiftedTrial(run, interval, delay, k, h, trial)
  {
    hide IsOptimalMatching, EvaluationOf, IsCleanRun, IsStrong, IsShiftedEvaluation;
    OptimumIsShifted(run, interval, delay, k, trial.pairing);
    ShiftedLatencies(run, interval, delay, k, h, trial.pairing);
    ShiftedEvaluation(run, interval, delay, k, h, trial.pairing);
  }

  /** The evidence a train shifted by k carries. */
  lemma ShiftedStrength(run: Run, interval: int, delay: int, k: int, h: int, trial: Trial)
    requires IsShiftedTrial(run, interval, delay, k, h, trial)
    ensures
      trial.strong <==>
        h >= 0 && MatchesAt(run, k) >= 2 && |run.expected| - MatchesAt(run, k) <= Slack(|run.expected|)
    ensures trial.evaluation.Some? <==> MatchesAt(run, k) >= 2
    ensures trial.evaluation.Some? ==> trial.evaluation.value.medianLatency == h
  {
    hide Slack;
    if MatchesAt(run, k) >= 2 {
      EvidenceRatio(|run.expected|, MatchesAt(run, k));
    }
  }

  /** Every hypothesis of a clean run is the delay plus a whole number of intervals. */
  lemma HypothesisIsShift(run: Run, interval: int, delay: int, latency: int) returns (k: int)
    requires IsCleanRun(run, interval, delay) && IsHypothesis(run.candidates, run.expected, latency)
    ensures IsShift(run, k) && latency == delay + k * interval
  {
    var c: nat, e: nat :| Proposes(run.candidates, run.expected, latency, c, e);
    CleanDifference(run, interval, delay, e, c);
    k := c - e;
  }

  lemma ShiftIsHypothesis(run: Run, interval: int, delay: int, k: int)
    requires IsCleanRun(run, interval, delay) && IsShift(run, k)
    ensures IsHypothesis(run.candidates, run.expected, delay + k * interval)
  {
    var c, e := if k < 0 then 0 else k, if k < 0 then -k else 0;
    CleanDifference(run, interval, delay, e, c);
    assert Proposes(run.candidates, run.expected, delay + k * interval, c, e);
  }

  /** The trials of a clean run: the hypotheses are the shifts. */
  ghost predicate AreShiftedTrials(run: Run, interval: int, delay: int, tried: Trials) {
    && IsCleanRun(run, interval, delay)
    && (forall h | h in tried :: exists k :: IsShiftedTrial(run, interval, delay, k, h, tried[h]))
  }

  lemma CompleteTrialsAreShifted(run: Run, interval: int, delay: int, tried: Trials)
    requires IsCleanRun(run, interval, delay) && IsComplete(run, tried)
    ensures AreShiftedTrials(run, interval, delay, tried)
  {
    hide IsCleanRun, IsShiftedTrial, IsMatcherAnswer, IsHypothesis;
    forall h | h in tried ensures exists k :: IsShiftedTrial(run, interval, delay, k, h, tried[h]) {
      var k := HypothesisIsShift(run, interval, delay, h);
      assert IsMatcherAnswer(run, h, tried[h]);
      AnswerIsShiftedTrial(run, interval, delay, k, h, tried[h]);
    }
  }

  lemma ShiftIsTried(run: Run, interval: int, delay: int, tried: Trials, k: int)
    requires IsCleanRun(run, interval, delay) && IsComplete(run, tried) && IsShift(run, k)
    ensures delay + k * interval in tried
    ensures IsShiftedTrial(run, interval, delay, k, delay + k * interval, tried[delay + k * interval])
  {
    hide IsCleanRun, IsShiftedTrial, IsMatcherAnswer, IsHypothesis, IsShift;
    var h := delay + k * interval;
    ShiftIsHypothesis(run, interval, delay, k);
    assert IsMatcherAnswer(run, h, tried[h]);
    AnswerIsShiftedTrial(run, interval, delay, k, h, tried[h]);
  }

  // ---------------------------------------------------------------- which shift is selected

  /** r pairs candidate j with marker j - k, for all j for which both exist (k is not positive). */
  ghost predicate IsTrainShiftedBy(
      run: Run, interval: int, delay: int, k: int, r: Option<MarkerSequence>) {
    && r.Some? && IsShift(run, k) && k <= 0
    && |r.value.candidates| == |r.value.expectedIndices| == MatchesAt(run, k)
    && forall j | 0 <= j < |r.value.candidates| ::
         && r.value.candidates[j] == run.candidates[j]
         && r.value.expectedIndices[j] == j - k
         && run.candidates[j].frame - run.expected[j - k] == delay + k * interval
  }

  lemma ShiftedPair(run: Run, interval: int, delay: int, k: int, h: int, m: seq<Pair>, j: nat)
    requires IsShiftedTrain(run, interval, delay, k, h, m) && k <= 0 && j < |m|
    ensures m[j] == Pair(j - k, j)
    ensures run.candidates[j].frame - run.expected[j - k] == h
  {
    CleanDifference(run, interval, delay, j - k, j);
  }

  lemma ShiftedTrialTrain(
      run: Run, interval: int, delay: int, k: int, h: int, trial: Trial, r: Option<MarkerSequence>)
    requires IsShiftedTrial(run, interval, delay, k, h, trial) && k <= 0
    requires trial.evaluation.Some? && r == Some(trial.evaluation.value.sequence)
    ensures IsTrainShiftedBy(run, interval, delay, k, r)
  {
    var m := trial.pairing;
    forall j | 0 <= j < |m|
      ensures m[j] == Pair(j - k, j) && run.candidates[j].frame - run.expected[j - k] == h
    {
      ShiftedPair(run, interval, delay, k, h, m, j);
    }
  }

  /** The candidates that the train is short of. */
  ghost function Lost(run: Run): int {
    |run.expected| - |run.candidates|
  }

  /** Enough markers arrived for some shift to be strong evidence. */
  ghost predicate IsNearlyComplete(run: Run) {
    |run.candidates| >= 2 && Lost(run) <= Slack(|run.expected|)
  }

  /** By how many intervals the selected train is off, if any train is strong. */
  function SelectedShift(n: nat, delay: int, interval: int): int {
    if delay < interval || n <= 3 then 0 else -1
  }

  lemma SelectedShiftIsCausal(n: nat, delay: int, interval: int)
    requires delay >= 0
    ensures delay + SelectedShift(n, delay, interval) * interval >= 0
  {
  }

  /** The selected shift is strong. */
  lemma SelectedShiftIsStrong(run: Run, interval: int, delay: int, tried: Trials)
    requires IsCleanRun(run, interval, delay) && IsComplete(run, tried) && IsNearlyComplete(run)
    ensures
      var k0 := SelectedShift(|run.expected|, delay, interval);
      var h0 := delay + k0 * interval;
      && IsShift(run, k0) && Strong(tried, h0) && MedianAt(tried, h0) == h0
      && IsShiftedTrial(run, interval, delay, k0, h0, tried[h0])
  {
    hide IsComplete, IsShiftedTrial;
    var k0 := SelectedShift(|run.expected|, delay, interval);
    SelectedShiftIsCausal(|run.expected|, delay, interval);
    ShiftIsTried(run, interval, delay, tried, k0);
    ShiftedStrength(run, interval, delay, k0, delay + k0 * interval, tried[delay + k0 * interval]);
  }

  /** A strong shift is not before the selected one. */
  lemma StrongShiftIsNotEarlier(run: Run, interval: int, delay: int, k: int)
    requires IsCleanRun(run, interval, delay) && IsShift(run, k) && delay + k * interval >= 0
    requires MatchesAt(run, k) >= 2 && |run.expected| - MatchesAt(run, k) <= Slack(|run.expected|)
    ensures k >= SelectedShift(|run.expected|, delay, interval)
  {
    if k < 0 {
      MulMonotone(k, -1, interval);
    }
  }

  /** Only the selected shift lies in the earliest band. */
  lemma OnlyOneShiftInBand(run: Run, interval: int, delay: int, tried: Trials, h: int)
    requires AreShiftedTrials(run, interval, delay, tried) && IsComplete(run, tried) && IsNearlyComplete(run)
    requires InEarliestBand(tried, h, run.tolerance)
    ensures h == delay + SelectedShift(|run.expected|, delay, interval) * interval
  {
    hide IsComplete, IsShiftedTrial;
    var k0 := SelectedShift(|run.expected|, delay, interval);
    SelectedShiftIsStrong(run, interval, delay, tried);
    var k :| IsShiftedTrial(run, interval, delay, k, h, tried[h]);
    ShiftedStrength(run, interval, delay, k, h, tried[h]);
    TrialIsShift(run, interval, delay, k, h, tried[h]);
    StrongShiftIsNotEarlier(run, interval, delay, k);
    assert h - (delay + k0 * interval) <= run.tolerance;
    MulDistributes(k, k0, interval);
    if k != k0 {
      MulMonotone(1, k - k0, interval);
    }
  }

  lemma TrialIsShift(run: Run, interval: int, delay: int, k: int, h: int, trial: Trial)
    requires IsShiftedTrial(run, interval, delay, k, h, trial)
    ensures IsShift(run, k) && h == delay + k * interval
  {
  }

  /**
   The selected train of a nearly complete clean delay is shifted by exactly SelectedShift: the
   true delay is recovered with every marker that arrived if delay < interval or there are at most
   three markers; otherwise a marker is lost and the latency is one interval too small.
   */
  lemma CleanDelaySelection(
      run: Run, interval: int, delay: int, tried: Trials, r: Option<MarkerSequence>)
    requires IsCleanRun(run, interval, delay) && IsComplete(run, tried) && IsNearlyComplete(run)
    requires IsSelection(run, tried, r)
    ensures IsTrainShiftedBy(run, interval, delay, SelectedShift(|run.expected|, delay, interval), r)
  {
    hide IsCleanRun, IsComplete, IsShiftedTrial, IsNearlyComplete, InEarliestBand, IsTrainShiftedBy, SelectedShift;
    var k0 := SelectedShift(|run.expected|, delay, interval);
    CompleteTrialsAreShifted(run, interval, delay, tried);
    SelectedShiftIsStrong(run, interval, delay, tried);
    var chosen :| IsBandChoice(run, tried, chosen, r);
    OnlyOneShiftInBand(run, interval, delay, tried, chosen);
    ShiftIsNotPositive(|run.expected|, delay, interval);
    ShiftedTrialTrain(run, interval, delay, k0, chosen, tried[chosen], r);
  }

  lemma ShiftIsNotPositive(n: nat, delay: int, interval: int)
    ensures -1 <= SelectedShift(n, delay, interval) <= 0
  {
  }

  /** Full recovery, stated as the condition a caller can check beforehand. */
  lemma FullTrainIffShortDelay(
      run: Run, interval: int, delay: int, tried: Trials, r: Option<MarkerSequence>)
    requires IsCleanRun(run, interval, delay) && IsComplete(run, tried)
    requires IsSelection(run, tried, r) && |run.candidates| == |run.expected|
    ensures r.Some? && (r.value.candidates == run.candidates <==> delay < interval || |run.expected| <= 3)
  {
    hide IsComplete, IsSelection;
    CleanDelaySelection(run, interval, delay, tried, r);
  }

  // ---------------------------------------------------------------- when too many markers are lost

  /** A missing marker costs more than an interval of lateness, and that more than all near ties. */
  ghost predicate IsSteady(run: Run, interval: int) {
    && interval as real * LATE_ECHO_TIE_BREAKER_WEIGHT + 0.001 <= MissingMarkerPenaltyFrames(run.sampleRate)
  }

  /** The fit scores of two shifts that miss `missing` and `missing'` markers. */
  lemma MissingCosts(missing: int, missing': int, penalty: real)
    requires missing <= missing' && penalty >= 0.0
    ensures Gained(missing' as real, penalty) - Gained(missing as real, penalty)
         == Gained((missing' - missing) as real, penalty)
    ensures Gained((missing' - missing) as real, penalty) >= 0.0
    ensures missing < missing' ==> Gained((missing' - missing) as real, penalty) >= penalty
  {
  }

  /** Of all shifts the one by the number of lost markers fits clearly best. */
  lemma LostShiftFitsBest(run: Run, interval: int, delay: int, k: int)
    requires IsCleanRun(run, interval, delay) && IsShift(run, k) && IsSteady(run, interval)
    requires Lost(run) * interval <= delay && k != -Lost(run)
    ensures
      var n, penalty := |run.expected|, MissingMarkerPenaltyFrames(run.sampleRate);
      ShiftFit(delay + k * interval, n - MatchesAt(run, k), penalty)
        >= ShiftFit(delay - Lost(run) * interval, Lost(run), penalty) + 0.001
  {
    hide MissingMarkerPenaltyFrames, Gained, IsCleanRun;
    CleanIntervalIsPositive(run, interval, delay);
    var d, missing := Lost(run), |run.expected| - MatchesAt(run, k);
    var penalty := MissingMarkerPenaltyFrames(run.sampleRate);
    var h, h0 := delay + k * interval, delay - d * interval;
    assert missing >= d;
    MissingCosts(d, missing, penalty);
    MulDistributes(k, -d, interval);
    if k > -d {
      MulMonotone(1, k + d, interval);
      assert h >= h0 + interval;
    } else {
      assert missing == -k;
      EarlierCosts(-k - d, interval, penalty);
      assert h == h0 - (-k - d) * interval;
    }
  }

  /** t more missing markers cost more than t intervals of lateness save. */
  lemma EarlierCosts(t: int, interval: int, penalty: real)
    requires t >= 1 && interval as real * LATE_ECHO_TIE_BREAKER_WEIGHT + 0.001 <= penalty
    ensures Gained(t as real, penalty) >= (t * interval) as real * LATE_ECHO_TIE_BREAKER_WEIGHT + 0.001
  {
    var w := interval as real * LATE_ECHO_TIE_BREAKER_WEIGHT;
    assert (t * interval) as real == t as real * (interval as real);
    assert t as real * penalty - t as real * w == t as real * (penalty - w);
    assert t as real * (penalty - w) >= 1.0 * (penalty - w);
  }

  /** Few hypotheses, so the near ties do not matter. */
  lemma CleanDriftIsSmall(run: Run, interval: int, delay: int)
    requires IsCleanRun(run, interval, delay)
    ensures Drift(|AllHypotheses(run)|) < 0.001
  {
    HypothesesAreFew(run, |run.candidates|, 0);
    SamplesIsProduct(|run.candidates|, |run.expected|);
    MulMonotone(|run.candidates|, IMPULSE_COUNT, |run.expected|);
  }

  /** If too many markers are lost, no train is strong. */
  lemma NoneIsStrong(run: Run, interval: int, delay: int, tried: Trials, h: int)
    requires AreShiftedTrials(run, interval, delay, tried) && Lost(run) > Slack(|run.expected|)
    ensures !Strong(tried, h)
  {
    if h in tried {
      var k :| IsShiftedTrial(run, interval, delay, k, h, tried[h]);
      ShiftedStrength(run, interval, delay, k, h, tried[h]);
      assert MatchesAt(run, k) <= |run.candidates|;
    }
  }

  /** The trial of a shift has the fit score of the shift. */
  lemma ShiftedTrialFit(run: Run, interval: int, delay: int, k: int, h: int, trial: Trial)
    requires IsShiftedTrial(run, interval, delay, k, h, trial) && trial.evaluation.Some?
    ensures trial.evaluation.value.sequence.fitScore
         == ShiftFit(h, |run.expected| - MatchesAt(run, k), MissingMarkerPenaltyFrames(run.sampleRate))
  {
    hide ShiftFit, MissingMarkerPenaltyFrames;
  }

  /**
   If too many markers are lost for strong evidence, the train that explains all the arrivals as the
   last markers is selected: the latency is one interval too small for each lost marker.
   */
  lemma LossyDelaySelection(
      run: Run, interval: int, delay: int, tried: Trials, r: Option<MarkerSequence>)
    requires IsCleanRun(run, interval, delay) && IsComplete(run, tried) && IsSelection(run, tried, r)
    requires |run.candidates| >= 2 && Lost(run) > Slack(|run.expected|)
    requires Lost(run) * interval <= delay && IsSteady(run, interval)
    ensures IsTrainShiftedBy(run, interval, delay, -Lost(run), r)
  {
    hide IsCleanRun, IsComplete, IsShiftedTrial, ShiftFit, Drift, AllHypotheses, IsTrainShiftedBy, IsSteady;
    var k0, h0 := -Lost(run), delay + -Lost(run) * interval;
    CleanIntervalIsPositive(run, interval, delay);
    CompleteTrialsAreShifted(run, interval, delay, tried);
    forall h ensures !Strong(tried, h) {
      NoneIsStrong(run, interval, delay, tried, h);
    }
    ShiftIsTried(run, interval, delay, tried, k0);
    ShiftedStrength(run, interval, delay, k0, h0, tried[h0]);
    ShiftedTrialFit(run, interval, delay, k0, h0, tried[h0]);
    var h :| Returns(tried, h, r);
    var k :| IsShiftedTrial(run, interval, delay, k, h, tried[h]);
    TrialIsShift(run, interval, delay, k, h, tried[h]);
    ShiftedTrialFit(run, interval, delay, k, h, tried[h]);
    CleanDriftIsSmall(run, interval, delay);
    if k != k0 {
      LostShiftFitsBest(run, interval, delay, k);
    }
    ShiftedTrialTrain(run, interval, delay, k0, h, tried[h], r);
  }

  /** The selection of a clean delay runs on the candidates as given. */
  lemma CleanDelayIsCleanRun(
      candidates: seq<Candidate>, expected: seq<int>, sampleRate: real, sqrt: real -> real,
      interval: int, delay: int)
    requires IsCleanDelay(candidates, expected, interval, delay) && IsSquareRoot(sqrt)
    requires SequenceMatchToleranceFrames(sampleRate) < interval && sampleRate > 0.0
    ensures IsAccepted(candidates, expected, sampleRate)
    ensures IsCleanRun(RunFor(candidates, expected, sampleRate, sqrt), interval, delay)
    ensures RunFor(candidates, expected, sampleRate, sqrt).candidates == candidates
  {
    forall i, j | 0 <= i < j < |expected| ensures expected[i] < expected[j] {
      MulDistributes(j, i, interval);
      MultipleBounds(1, j - i, interval);
    }
    forall i, j | 0 <= i < j < |candidates| ensures candidates[i].frame < candidates[j].frame {
      assert expected[i] < expected[j];
    }
    IncreasingCandidatesStay(candidates);
  }
}
