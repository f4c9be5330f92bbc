/** What the matcher makes of one latency hypothesis: the evaluation of a pairing, and how evaluations compare. */
module MarkerEvaluation {
  import opened Arithmetic
  import opened MarkerMatching
  import opened Wrappers

  const IMPULSE_COUNT: nat := 5
  const MAXIMUM_SEQUENCE_CANDIDATES: nat := 512
  const LATENCY_SPREAD_THRESHOLD := 10.0
  const WARNING_DETECTED_MARKER_RATIO := 0.75
  const NEGATIVE_LATENCY_PENALTY_MULTIPLIER := 10.0
  const LATE_ECHO_TIE_BREAKER_WEIGHT := 0.001

  datatype MarkerSequence = MarkerSequence(
    candidates: seq<Candidate>, expectedIndices: seq<nat>, fitScore: real, averagePeak: real)

  datatype Evaluation = Evaluation(
    sequence: MarkerSequence, medianLatency: int, timingFitScore: real, coherent: bool)

  // ---------------------------------------------------------------- library arithmetic

  /** The square root of the C++ library, which the model receives as a parameter. */
  ghost predicate IsSquareRoot(sqrt: real -> real) {
    && sqrt(0.0) == 0.0
    && forall x: real :: x >= 0.0 ==> sqrt(x) >= 0.0 && sqrt(x) * sqrt(x) == x
  }

  function Sum(values: seq<real>): real {
    if values == [] then 0.0 else Sum(values[..|values| - 1]) + values[|values| - 1]
  }

  function Mean(values: seq<real>): real {
    if values == [] then 0.0 else Sum(values) / |values| as real
  }

  function SquaredDeviations(values: seq<real>): seq<real> {
    var average := Mean(values);
    seq(|values|, i requires 0 <= i < |values| =>
      (values[i] - average) * (values[i] - average))
  }

  function Variance(values: seq<real>): real {
    Mean(SquaredDeviations(values))
  }

  function StandardDeviation(sqrt: real -> real, values: seq<real>): real {
    sqrt(Variance(values))
  }

  function Reals(values: seq<int>): seq<real> {
    seq(|values|, i requires 0 <= i < |values| => values[i] as real)
  }

  function Magnitudes(values: seq<real>): seq<real> {
    seq(|values|, i requires 0 <= i < |values| => AbsReal(values[i]))
  }

  function InsertSorted(sorted: seq<int>, x: int): seq<int> {
    if sorted == [] || x <= sorted[0] then [x] + sorted
    else [sorted[0]] + InsertSorted(sorted[1..], x)
  }

  function Sorted(values: seq<int>): seq<int> {
    if values == [] then [] else InsertSorted(Sorted(values[1..]), values[0])
  }

  function Median(values: seq<int>): int {
    var sorted := Sorted(values);
    if sorted == [] then 0 else sorted[|sorted| / 2]
  }

  lemma {:induction false} InsertSortedMembers(sorted: seq<int>, x: int, y: int)
    ensures y in InsertSorted(sorted, x) <==> y == x || y in sorted
    ensures |InsertSorted(sorted, x)| == |sorted| + 1
  {
    if sorted != [] && x > sorted[0] {
      InsertSortedMembers(sorted[1..], x, y);
      assert y in sorted <==> y == sorted[0] || y in sorted[1..];
    }
  }

  lemma {:induction false} SortedMembers(values: seq<int>, y: int)
    ensures y in Sorted(values) <==> y in values
    ensures |Sorted(values)| == |values|
  {
    if values != [] {
      SortedMembers(values[1..], y);
      InsertSortedMembers(Sorted(values[1..]), values[0], y);
    }
  }

  lemma MedianIsMember(values: seq<int>)
    requires values != []
    ensures Median(values) in values
  {
    SortedMembers(values, Median(values));
  }

  // ---------------------------------------------------------------- evaluating a pairing

  function SequenceMatchToleranceFrames(sampleRate: real): int {
    Max(8, LlRound(sampleRate * 0.035))
  }

  function MissingMarkerPenaltyFrames(sampleRate: real): real {
    MaxReal(16.0, sampleRate * 0.02)
  }

  function Latencies(p: Problem, m: seq<Pair>): (l: seq<int>)
    requires InRange(p, m)
  {
    seq(|m|, k requires 0 <= k < |m| => p.candidates[m[k].c].frame - p.expected[m[k].e])
  }

  /** Measured minus expected interval between neighbouring matches. */
  function IntervalErrors(p: Problem, m: seq<Pair>): seq<real>
    requires InRange(p, m) && m != []
  {
    seq(|m| - 1, k requires 0 <= k < |m| - 1 =>
      (p.candidates[m[k + 1].c].frame - p.candidates[m[k].c].frame) as real
      - (p.expected[m[k + 1].e] - p.expected[m[k].e]) as real)
  }

  /** The neighbouring intervals fit in 64 bits, which the source checks before using them. */
  predicate IntervalsFit(p: Problem, m: seq<Pair>)
    requires InRange(p, m)
  {
    forall k | 0 <= k < |m| - 1 ::
      && FrameDifference(p.candidates[m[k + 1].c].frame, p.candidates[m[k].c].frame).Some?
      && FrameDifference(p.expected[m[k + 1].e], p.expected[m[k].e]).Some?
  }

  function MatchedCandidates(p: Problem, m: seq<Pair>): (c: seq<Candidate>)
    requires InRange(p, m)
  {
    seq(|m|, k requires 0 <= k < |m| => p.candidates[m[k].c])
  }

  function MatchedIndices(m: seq<Pair>): (indices: seq<nat>) {
    seq(|m|, k requires 0 <= k < |m| => m[k].e)
  }

  function Peaks(candidates: seq<Candidate>): seq<real> {
    seq(|candidates|, k requires 0 <= k < |candidates| => candidates[k].peak)
  }

  /** What the matcher reports about a pairing: None below two matches. */
  function EvaluationOf(p: Problem, m: seq<Pair>, sampleRate: real, sqrt: real -> real): Option<Evaluation>
    requires InRange(p, m)
  {
    if |m| < MINIMUM_IMPULSES_FOR_ANALYSIS || !IntervalsFit(p, m) then None
    else
      var latencies := Latencies(p, m);
      var errors := IntervalErrors(p, m);
      var median := Median(latencies);
      var negativePenalty :=
        if median < 0 then -(median as real) * NEGATIVE_LATENCY_PENALTY_MULTIPLIER else 0.0;
      var lateTieBreaker := MaxReal(0.0, median as real) * LATE_ECHO_TIE_BREAKER_WEIGHT;
      var missingPenalty :=
        (|p.expected| - |m|) as real * MissingMarkerPenaltyFrames(sampleRate);
      var latencySpread := StandardDeviation(sqrt, Reals(latencies));
      var errorMean := Mean(Magnitudes(errors));
      var errorSpread := StandardDeviation(sqrt, errors);
      var timingFit := latencySpread + errorMean + errorSpread;
      var sequence := MatchedCandidates(p, m);
      Some(Evaluation(
        MarkerSequence(
          sequence, MatchedIndices(m),
          timingFit + negativePenalty + lateTieBreaker + missingPenalty,
          Mean(Peaks(sequence))),
        median, timingFit,
        && latencySpread <= LATENCY_SPREAD_THRESHOLD
        && errorMean <= LATENCY_SPREAD_THRESHOLD
        && errorSpread <= LATENCY_SPREAD_THRESHOLD))
  }

  // ---------------------------------------------------------------- comparing sequences

  predicate IsBetterMarkerSequence(candidate: MarkerSequence, current: Option<MarkerSequence>) {
    if current.None? then true
    else if candidate.fitScore < current.value.fitScore - FIT_SCORE_EPSILON then true
    else if AbsReal(candidate.fitScore - current.value.fitScore) <= FIT_SCORE_EPSILON then
      candidate.averagePeak > current.value.averagePeak
    else false
  }

  predicate HasStrongDirectEvidence(evaluation: Evaluation, expectedCount: nat) {
    && evaluation.coherent
    && evaluation.medianLatency >= 0
    && expectedCount != 0
    && |evaluation.sequence.candidates| as real / expectedCount as real + FIT_SCORE_EPSILON
         >= WARNING_DETECTED_MARKER_RATIO
  }

  predicate IsBetterDirectSequenceInLatencyBand(candidate: Evaluation, current: Evaluation) {
    if |candidate.sequence.candidates| != |current.sequence.candidates| then
      |candidate.sequence.candidates| > |current.sequence.candidates|
    else if AbsReal(candidate.timingFitScore - current.timingFitScore) > FIT_SCORE_EPSILON then
      candidate.timingFitScore < current.timingFitScore
    else if IsBetterMarkerSequence(candidate.sequence, Some(current.sequence)) then true
    else if IsBetterMarkerSequence(current.sequence, Some(candidate.sequence)) then false
    else candidate.medianLatency < current.medianLatency
  }
}
