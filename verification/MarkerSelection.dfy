/**
 Selection of the marker train across latency hypotheses.  Every difference between a
 candidate and an expected marker is tried once; among the coherent, causal and sufficiently
 complete trains the earliest latency band wins, and inside it the most complete train.
 */
module MarkerSelection {
  import opened Arithmetic
  import opened MarkerCandidates
  import opened MarkerEvaluation
  import opened MarkerMatching
  import opened MarkerScores
  import opened Wrappers

  // ---------------------------------------------------------------- the hypotheses

  predicate StrictlyIncreasing(s: seq<int>) {
    forall i, j | 0 <= i < j < |s| :: s[i] < s[j]
  }

  /** The inputs select_marker_sequence accepts; it returns nothing for all others. */
  predicate IsAccepted(candidates: seq<Candidate>, expected: seq<int>, sampleRate: real) {
    && 0 < |expected| <= IMPULSE_COUNT
    && 0 < |candidates| <= MAXIMUM_SEQUENCE_CANDIDATES
    && sampleRate > 0.0
    && StrictlyIncreasing(expected)
  }

  /** Candidate c and marker e differ by `latency`. */
  ghost predicate Proposes(candidates: seq<Candidate>, expected: seq<int>, latency: int, c: nat, e: nat) {
    && c < |candidates| && e < |expected|
    && FrameDifference(candidates[c].frame, expected[e]) == Some(latency)
  }

  /** The latency hypotheses: every representable candidate-marker difference. */
  ghost predicate IsHypothesis(candidates: seq<Candidate>, expected: seq<int>, latency: int) {
    exists c: nat, e: nat :: Proposes(candidates, expected, latency, c, e)
  }

  /** The fixed part of a selection run: normalised candidates, markers, tolerance, rate, square root. */
  datatype Run = Run(
    candidates: seq<Candidate>, expected: seq<int>, tolerance: int, sampleRate: real, sqrt: real -> real)
  {
    function At(latency: int): Problem {
      Problem(candidates, expected, latency, tolerance)
    }
  }

  function RunFor(candidates: seq<Candidate>, expected: seq<int>, sampleRate: real, sqrt: real -> real): Run {
    Run(NormalizedCandidates(candidates), expected, SequenceMatchToleranceFrames(sampleRate), sampleRate, sqrt)
  }

  /**
   What one hypothesis led to: the pairing the matcher chose, its evaluation, and whether that
   is strong direct evidence.
   */
  datatype Trial = Trial(pairing: seq<Pair>, evaluation: Option<Evaluation>, strong: bool)

  type Trials = map<int, Trial>

  predicate IsStrong(evaluation: Option<Evaluation>, markers: nat) {
    evaluation.Some? && HasStrongDirectEvidence(evaluation.value, markers)
  }

  /** The trial records the matcher's answer: an optimal pairing and its evaluation. */
  ghost predicate IsMatcherAnswer(run: Run, latency: int, trial: Trial) {
    && IsOptimalMatching(run.At(latency), trial.pairing)
    && trial.evaluation == EvaluationOf(run.At(latency), trial.pairing, run.sampleRate, run.sqrt)
    && trial.strong == IsStrong(trial.evaluation, |run.expected|)
  }

  ghost predicate AreMatcherAnswers(run: Run, tried: Trials) {
    forall latency {:trigger IsMatcherAnswer(run, latency, tried[latency])} |
      latency in tried :: IsMatcherAnswer(run, latency, tried[latency])
  }

  /** `tried` holds exactly the hypotheses, each with the matcher's answer. */
  ghost predicate IsComplete(run: Run, tried: Trials) {
    && (forall latency :: latency in tried <==> IsHypothesis(run.candidates, run.expected, latency))
    && AreMatcherAnswers(run, tried)
  }

  // ---------------------------------------------------------------- the order of the double loop

  /** The pairs that the double loop has visited: whole rows, and `ei` markers of row `ci`. */
  ghost predicate IsVisit(run: Run, ci: nat, ei: nat) {
    || (ci < |run.candidates| && ei <= |run.expected|)
    || (ci == |run.candidates| && ei == 0)
  }

  /** The hypotheses of the visited pairs, in the order of their first visit, each once. */
  ghost function Hypotheses(run: Run, ci: nat, ei: nat): (h: seq<int>)
    requires IsVisit(run, ci, ei)
    ensures forall i, j :: 0 <= i < j < |h| ==> h[i] != h[j]
    decreases ci, ei
  {
    if ei > 0 then
      var before := Hypotheses(run, ci, ei - 1);
      var latency := FrameDifference(run.candidates[ci].frame, run.expected[ei - 1]);
      if latency.Some? && latency.value !in before then before + [latency.value] else before
    else if ci > 0 then Hypotheses(run, ci - 1, |run.expected|)
    else []
  }

  ghost function AllHypotheses(run: Run): seq<int> {
    Hypotheses(run, |run.candidates|, 0)
  }

  /** A pair among the first `ci` rows and the first `ei` markers of the next one proposes `latency`. */
  ghost predicate IsProposed(run: Run, latency: int, ci: nat, ei: nat) {
    exists c: nat, e: nat ::
      Proposes(run.candidates, run.expected, latency, c, e) && (c < ci || (c == ci && e < ei))
  }

  lemma {:induction false} HypothesesAreProposed(run: Run, ci: nat, ei: nat, latency: int)
    requires IsVisit(run, ci, ei)
    ensures latency in Hypotheses(run, ci, ei) <==> IsProposed(run, latency, ci, ei)
    decreases ci, ei
  {
    if ei > 0 {
      HypothesesAreProposed(run, ci, ei - 1, latency);
      if FrameDifference(run.candidates[ci].frame, run.expected[ei - 1]) == Some(latency) {
        assert Proposes(run.candidates, run.expected, latency, ci, ei - 1);
      }
    } else if ci > 0 {
      HypothesesAreProposed(run, ci - 1, |run.expected|, latency);
    }
  }

  lemma AllHypothesesAreProposed(run: Run, latency: int)
    ensures latency in AllHypotheses(run) <==> IsHypothesis(run.candidates, run.expected, latency)
  {
    HypothesesAreProposed(run, |run.candidates|, 0, latency);
  }

  /** At most one hypothesis for each pair. */
  lemma {:induction false} HypothesesAreFew(run: Run, ci: nat, ei: nat)
    requires IsVisit(run, ci, ei)
    ensures |Hypotheses(run, ci, ei)| <= Samples(ci, |run.expected|) + ei
    decreases ci, ei
  {
    if ei > 0 {
      HypothesesAreFew(run, ci, ei - 1);
    } else if ci > 0 {
      HypothesesAreFew(run, ci - 1, |run.expected|);
    }
  }

  // ---------------------------------------------------------------- what the loops compute

  /** The running best of the evaluated trains. */
  function BestOf(evaluations: seq<Option<Evaluation>>): Option<MarkerSequence> {
    if evaluations == [] then None
    else
      var best, last := BestOf(evaluations[..|evaluations| - 1]), evaluations[|evaluations| - 1];
      if last.Some? && IsBetterMarkerSequence(last.value.sequence, best) then Some(last.value.sequence) else best
  }

  /** The trains of strong direct evidence. */
  function StrongOf(evaluations: seq<Option<Evaluation>>, markers: nat): seq<Evaluation> {
    if evaluations == [] then []
    else
      var rest, last := StrongOf(evaluations[..|evaluations| - 1], markers), evaluations[|evaluations| - 1];
      if IsStrong(last, markers) then rest + [last.value] else rest
  }

  /** std::min_element over the median latencies. */
  function EarliestMedian(direct: seq<Evaluation>): (earliest: int)
    requires direct != []
    ensures exists k :: 0 <= k < |direct| && direct[k].medianLatency == earliest
    ensures forall k | 0 <= k < |direct| :: earliest <= direct[k].medianLatency
  {
    var last := direct[|direct| - 1].medianLatency;
    if |direct| == 1 then last
    else
      var rest := EarliestMedian(direct[..|direct| - 1]);
      if last < rest then last else rest
  }

  predicate IsInBand(evaluation: Evaluation, earliest: int, tolerance: int) {
    var relative := FrameDifference(evaluation.medianLatency, earliest);
    relative.Some? && relative.value <= tolerance
  }

  /** The running choice among the first n direct trains. */
  function BandWinner(direct: seq<Evaluation>, earliest: int, tolerance: int, n: nat): (w: Option<nat>)
    requires n <= |direct|
    ensures w.Some? ==> w.value < n
  {
    if n == 0 then None
    else
      var best := BandWinner(direct, earliest, tolerance, n - 1);
      if IsInBand(direct[n - 1], earliest, tolerance)
         && (best.None? || IsBetterDirectSequenceInLatencyBand(direct[n - 1], direct[best.value]))
      then Some(n - 1) else best
  }

  /** What select_marker_sequence returns, given the evaluations in the order of the loops. */
  function SelectionOf(evaluations: seq<Option<Evaluation>>, markers: nat, tolerance: int): Option<MarkerSequence> {
    var direct := StrongOf(evaluations, markers);
    if direct == [] then BestOf(evaluations)
    else
      var winner := BandWinner(direct, EarliestMedian(direct), tolerance, |direct|);
      if winner.Some? then Some(direct[winner.value].sequence) else BestOf(evaluations)
  }

  // ---------------------------------------------------------------- what these choices mean

  /** Scores within an epsilon are compared by the next criterion, so every comparison may lose an epsilon. */
  function Drift(comparisons: nat): real {
    comparisons as real * FIT_SCORE_EPSILON
  }

  lemma DriftGrows(n: nat)
    ensures Drift(n + 1) == Drift(n) + FIT_SCORE_EPSILON && Drift(n) >= 0.0
  {
  }

  /** All comparisons of a selection together lose less than a hundredth of a frame. */
  lemma DriftIsSmall(candidates: seq<Candidate>, expected: seq<int>, sampleRate: real, sqrt: real -> real)
    requires IsAccepted(candidates, expected, sampleRate)
    ensures Drift(|AllHypotheses(RunFor(candidates, expected, sampleRate, sqrt))|) <= 0.00256
  {
    hide NormalizedCandidates, Samples;
    var run := RunFor(candidates, expected, sampleRate, sqrt);
    NormalizedIsNotLonger(candidates);
    HypothesesAreFew(run, |run.candidates|, 0);
    SamplesIsProduct(|run.candidates|, |expected|);
    MulMonotone(|run.candidates|, MAXIMUM_SEQUENCE_CANDIDATES, |expected|);
  }

  ghost predicate IsEvaluated(evaluations: seq<Option<Evaluation>>, k: int) {
    0 <= k < |evaluations| && evaluations[k].Some?
  }

  /** The running best fits as well as any train, up to the drift. */
  ghost predicate FitsBest(evaluations: seq<Option<Evaluation>>, best: Option<MarkerSequence>) {
    && (best.None? <==> forall k :: !IsEvaluated(evaluations, k))
    && (best.Some? ==>
          && (exists k :: IsEvaluated(evaluations, k) && evaluations[k].value.sequence == best.value)
          && forall k :: IsEvaluated(evaluations, k) ==>
               best.value.fitScore <= evaluations[k].value.sequence.fitScore + Drift(|evaluations|))
  }

  lemma {:induction false} BestFits(evaluations: seq<Option<Evaluation>>)
    ensures FitsBest(evaluations, BestOf(evaluations))
  {
    if evaluations != [] {
      var n := |evaluations| - 1;
      var front, last := evaluations[..n], evaluations[n];
      BestFits(front);
      DriftGrows(n);
      BestFitsMore(front, last, BestOf(front), BestOf(evaluations));
      assert front + [last] == evaluations;
    }
  }

  lemma BestFitsMore(front: seq<Option<Evaluation>>, last: Option<Evaluation>, was: Option<MarkerSequence>,
                     best: Option<MarkerSequence>)
    requires FitsBest(front, was) && Drift(|front| + 1) == Drift(|front|) + FIT_SCORE_EPSILON && Drift(|front|) >= 0.0
    requires best == if last.Some? && IsBetterMarkerSequence(last.value.sequence, was) then Some(last.value.sequence)
                     else was
    ensures FitsBest(front + [last], best)
  {
    hide Drift;
    var all := front + [last];
    forall k ensures IsEvaluated(all, k) <==> IsEvaluated(front, k) || (k == |front| && last.Some?) {
    }
    if best.Some? && best == was {
      var k :| IsEvaluated(front, k) && front[k].value.sequence == best.value;
      assert IsEvaluated(all, k) && all[k].value.sequence == best.value;
    } else if best.Some? {
      assert IsEvaluated(all, |front|) && all[|front|].value.sequence == best.value;
    } else {
      assert !IsEvaluated(all, |front|);
    }
  }

  /**
   The choice among the first n direct trains: a most complete one of the band, of those a best
   timed one up to the drift, and no train after it is better.
   */
  ghost predicate IsBandWinner(direct: seq<Evaluation>, earliest: int, tolerance: int, n: nat, w: nat)
    requires n <= |direct|
  {
    && w < n && IsInBand(direct[w], earliest, tolerance)
    && (forall k | 0 <= k < n && IsInBand(direct[k], earliest, tolerance) :: IsNoWorse(direct[w], direct[k], n))
    && (forall k | w < k < n && IsInBand(direct[k], earliest, tolerance) ::
          !IsBetterDirectSequenceInLatencyBand(direct[k], direct[w]))
  }

  ghost predicate IsNoWorse(winner: Evaluation, other: Evaluation, comparisons: nat) {
    var matched, others := |winner.sequence.candidates|, |other.sequence.candidates|;
    && others <= matched
    && (others == matched ==> winner.timingFitScore <= other.timingFitScore + Drift(comparisons))
  }

  lemma NoWorseNext(winner: Evaluation, next: Evaluation, other: Evaluation, n: nat)
    requires IsNoWorse(winner, other, n)
    ensures IsNoWorse(winner, other, n + 1)
    ensures IsBetterDirectSequenceInLatencyBand(next, winner) ==> IsNoWorse(next, other, n + 1)
    ensures !IsBetterDirectSequenceInLatencyBand(next, winner) ==> IsNoWorse(winner, next, n + 1)
  {
    hide Drift, IsBetterMarkerSequence;
    DriftGrows(n);
  }

  lemma NoWorseThanItself(winner: Evaluation, n: nat)
    ensures IsNoWorse(winner, winner, n)
  {
    DriftGrows(n);
  }

  lemma {:induction false} WinnerIsBandWinner(direct: seq<Evaluation>, earliest: int, tolerance: int, n: nat)
    requires n <= |direct|
    ensures
      var w := BandWinner(direct, earliest, tolerance, n);
      if w.Some? then IsBandWinner(direct, earliest, tolerance, n, w.value)
      else forall k | 0 <= k < n :: !IsInBand(direct[k], earliest, tolerance)
  {
    hide IsNoWorse, IsBetterDirectSequenceInLatencyBand, IsInBand;
    if n > 0 {
      WinnerIsBandWinner(direct, earliest, tolerance, n - 1);
      var was := BandWinner(direct, earliest, tolerance, n - 1);
      var w := BandWinner(direct, earliest, tolerance, n);
      if was.Some? && IsInBand(direct[n - 1], earliest, tolerance) {
        NoWorseNext(direct[was.value], direct[n - 1], direct[was.value], n - 1) by {
          NoWorseThanItself(direct[was.value], n - 1);
        }
      }
      if w.Some? {
        NoWorseThanItself(direct[w.value], n);
      }
      forall k | w.Some? && 0 <= k < n - 1 && IsInBand(direct[k], earliest, tolerance)
        ensures IsNoWorse(direct[w.value], direct[k], n)
      {
        NoWorseNext(direct[was.value], direct[n - 1], direct[k], n - 1);
      }
    }
  }

  // ---------------------------------------------------------------- the selection contract

  ghost predicate Strong(tried: Trials, latency: int) {
    latency in tried && tried[latency].evaluation.Some? && tried[latency].strong
  }

  ghost function Train(tried: Trials, latency: int): MarkerSequence
    requires latency in tried && tried[latency].evaluation.Some?
  {
    tried[latency].evaluation.value.sequence
  }

  ghost function MedianAt(tried: Trials, latency: int): int
    requires latency in tried && tried[latency].evaluation.Some?
  {
    tried[latency].evaluation.value.medianLatency
  }

  /** Strong evidence whose median is at most the tolerance after the smallest strong median. */
  ghost predicate InEarliestBand(tried: Trials, latency: int, tolerance: int) {
    && Strong(tried, latency)
    && forall other | Strong(tried, other) ::
         MedianAt(tried, latency) - MedianAt(tried, other) <= tolerance
  }

  ghost predicate Returns(tried: Trials, latency: int, r: Option<MarkerSequence>) {
    && latency in tried && tried[latency].evaluation.Some?
    && r == Some(Train(tried, latency))
  }

  /** r is a most complete train of the earliest band, and of those a best timed one up to the drift. */
  ghost predicate IsBandChoice(run: Run, tried: Trials, chosen: int, r: Option<MarkerSequence>) {
    && InEarliestBand(tried, chosen, run.tolerance)
    && Returns(tried, chosen, r)
    && forall other | InEarliestBand(tried, other, run.tolerance) ::
         IsNoWorse(tried[chosen].evaluation.value, tried[other].evaluation.value, |AllHypotheses(run)|)
  }

  /** r is a train that fits as well as any, up to the drift; there is none only if there is no train. */
  ghost predicate IsBestFit(run: Run, tried: Trials, r: Option<MarkerSequence>) {
    && (r.None? ==> forall latency | latency in tried :: tried[latency].evaluation.None?)
    && (r.Some? ==>
          && (exists latency :: Returns(tried, latency, r))
          && forall latency | latency in tried && tried[latency].evaluation.Some? ::
               r.value.fitScore <= Train(tried, latency).fitScore + Drift(|AllHypotheses(run)|))
  }

  /** The contract of the selection, given the trials of all hypotheses. */
  ghost predicate IsSelection(run: Run, tried: Trials, r: Option<MarkerSequence>) {
    if exists latency :: Strong(tried, latency) then exists chosen :: IsBandChoice(run, tried, chosen, r)
    else IsBestFit(run, tried, r)
  }

  // ---------------------------------------------------------------- from the order to the trials

  ghost function EvaluationAt(tried: Trials, latency: int): Option<Evaluation> {
    if latency in tried then tried[latency].evaluation else None
  }

  /** The evaluations in the order in which the hypotheses were tried. */
  ghost function EvaluationsOf(tried: Trials, order: seq<int>): (e: seq<Option<Evaluation>>)
    ensures |e| == |order|
  {
    seq(|order|, k requires 0 <= k < |order| => EvaluationAt(tried, order[k]))
  }

  /** The hypotheses of the strong trains. */
  ghost function StrongAt(tried: Trials, order: seq<int>, markers: nat): seq<int>
  {
    if order == [] then []
    else
      var rest, last := StrongAt(tried, order[..|order| - 1], markers), order[|order| - 1];
      if IsStrong(EvaluationAt(tried, last), markers) then rest + [last] else rest
  }

  /** `direct` lists the strong evaluations, found under the hypotheses `at`. */
  ghost predicate IsDirectList(tried: Trials, order: seq<int>, direct: seq<Evaluation>, at: seq<int>) {
    && |at| == |direct| <= |order|
    && (forall k | 0 <= k < |at| :: at[k] in tried && Strong(tried, at[k])
          && tried[at[k]].evaluation == Some(direct[k]))
    && (forall latency | latency in order && Strong(tried, latency) :: latency in at)
  }

  /** The strength that a trial records is that of its evaluation. */
  ghost predicate AreRated(tried: Trials, markers: nat) {
    forall latency | latency in tried :: tried[latency].strong == IsStrong(tried[latency].evaluation, markers)
  }

  lemma {:induction false} StrongAtLists(tried: Trials, order: seq<int>, markers: nat)
    requires AreRated(tried, markers)
    ensures IsDirectList(tried, order, StrongOf(EvaluationsOf(tried, order), markers), StrongAt(tried, order, markers))
  {
    hide IsStrong;
    if order != [] {
      var front, last := order[..|order| - 1], order[|order| - 1];
      StrongAtLists(tried, front, markers);
      assert EvaluationsOf(tried, order)[..|order| - 1] == EvaluationsOf(tried, front);
      StrongAtMore(tried, front, last, markers);
      assert front + [last] == order;
    }
  }

  lemma StrongAtMore(tried: Trials, front: seq<int>, last: int, markers: nat)
    requires AreRated(tried, markers)
    requires IsDirectList(tried, front, StrongOf(EvaluationsOf(tried, front), markers), StrongAt(tried, front, markers))
    ensures
      var direct, at := StrongOf(EvaluationsOf(tried, front), markers), StrongAt(tried, front, markers);
      if IsStrong(EvaluationAt(tried, last), markers) then
        IsDirectList(tried, front + [last], direct + [EvaluationAt(tried, last).value], at + [last])
      else IsDirectList(tried, front + [last], direct, at)
  {
    hide HasStrongDirectEvidence, StrongOf, StrongAt;
    assert last in front + [last];
  }

  lemma MatchedMedianIsFrame(p: Problem, m: seq<Pair>)
    requires IsMatching(p, m) && m != []
    ensures IsFrame(Median(Latencies(p, m)))
  {
    var latencies := Latencies(p, m);
    MedianIsMember(latencies);
    var k :| 0 <= k < |m| && latencies[k] == Median(latencies);
    assert Admissible(p, m[k].e, m[k].c);
  }

  lemma EvaluatedMedian(p: Problem, m: seq<Pair>, sampleRate: real, sqrt: real -> real)
    requires InRange(p, m) && EvaluationOf(p, m, sampleRate, sqrt).Some?
    ensures EvaluationOf(p, m, sampleRate, sqrt).value.medianLatency == Median(Latencies(p, m))
    ensures |m| >= 2
  {
  }

  lemma AnsweredMedianIsFrame(run: Run, latency: int, trial: Trial)
    requires IsMatcherAnswer(run, latency, trial) && trial.evaluation.Some?
    ensures IsFrame(trial.evaluation.value.medianLatency)
  {
    EvaluatedMedian(run.At(latency), trial.pairing, run.sampleRate, run.sqrt);
    MatchedMedianIsFrame(run.At(latency), trial.pairing);
  }

  lemma DirectMediansAreFrames(run: Run, tried: Trials, order: seq<int>, direct: seq<Evaluation>, at: seq<int>)
    requires AreMatcherAnswers(run, tried) && IsDirectList(tried, order, direct, at)
    ensures forall k | 0 <= k < |direct| :: 0 <= direct[k].medianLatency < FRAME_LIMIT
  {
    hide EvaluationOf, IsOptimalMatching;
    forall k | 0 <= k < |direct| ensures 0 <= direct[k].medianLatency < FRAME_LIMIT {
      assert Strong(tried, at[k]);
      assert IsMatcherAnswer(run, at[k], tried[at[k]]);
      AnsweredMedianIsFrame(run, at[k], tried[at[k]]);
    }
  }

  /** All strong trains of the earliest band are direct trains of that band, and conversely. */
  lemma BandIsDirect(tried: Trials, order: seq<int>, direct: seq<Evaluation>, at: seq<int>, tolerance: int, k: nat)
    requires IsDirectList(tried, order, direct, at) && k < |direct| && (forall h | h in tried :: h in order)
    requires forall j | 0 <= j < |direct| :: 0 <= direct[j].medianLatency < FRAME_LIMIT
    ensures IsInBand(direct[k], EarliestMedian(direct), tolerance) <==> InEarliestBand(tried, at[k], tolerance)
  {
    var earliest := EarliestMedian(direct);
    var first :| 0 <= first < |direct| && direct[first].medianLatency == earliest;
    assert Strong(tried, at[first]) && Strong(tried, at[k]);
    if IsInBand(direct[k], earliest, tolerance) {
      forall other | Strong(tried, other) ensures MedianAt(tried, at[k]) - MedianAt(tried, other) <= tolerance {
        var j :| 0 <= j < |at| && at[j] == other;
        assert direct[j].medianLatency >= earliest;
      }
    } else {
      assert MedianAt(tried, at[k]) - MedianAt(tried, at[first]) > tolerance;
    }
  }

  lemma NoWorseWidens(winner: Evaluation, other: Evaluation, a: nat, b: nat)
    requires IsNoWorse(winner, other, a) && a <= b
    ensures IsNoWorse(winner, other, b)
  {
  }

  /** The choice among the recorded direct trains is no worse than any strong train of the earliest band. */
  lemma DirectChoiceIsNoWorse(run: Run, tried: Trials, direct: seq<Evaluation>, at: seq<int>, best: nat, other: int)
    requires IsDirectList(tried, AllHypotheses(run), direct, at) && best < |direct|
    requires forall h | h in tried :: h in AllHypotheses(run)
    requires forall k | 0 <= k < |direct| :: 0 <= direct[k].medianLatency < FRAME_LIMIT
    requires IsBandWinner(direct, EarliestMedian(direct), run.tolerance, |direct|, best)
    requires InEarliestBand(tried, other, run.tolerance)
    ensures other in tried && tried[other].evaluation.Some?
    ensures IsNoWorse(direct[best], tried[other].evaluation.value, |AllHypotheses(run)|)
  {
    hide AllHypotheses, InEarliestBand, IsInBand, IsNoWorse, IsBetterDirectSequenceInLatencyBand;
    BandIsStrong(tried, other, run.tolerance);
    var k :| 0 <= k < |at| && at[k] == other;
    BandIsDirect(tried, AllHypotheses(run), direct, at, run.tolerance, k);
    assert IsNoWorse(direct[best], direct[k], |direct|);
    NoWorseWidens(direct[best], direct[k], |direct|, |AllHypotheses(run)|);
  }

  /** So the choice among the recorded direct trains is the choice among all strong hypotheses. */
  lemma DirectChoiceIsSelection(run: Run, tried: Trials, direct: seq<Evaluation>, at: seq<int>, best: nat)
    requires IsDirectList(tried, AllHypotheses(run), direct, at) && best < |direct|
    requires forall h | h in tried :: h in AllHypotheses(run)
    requires forall k | 0 <= k < |direct| :: 0 <= direct[k].medianLatency < FRAME_LIMIT
    requires IsBandWinner(direct, EarliestMedian(direct), run.tolerance, |direct|, best)
    ensures IsBandChoice(run, tried, at[best], Some(direct[best].sequence))
  {
    hide AllHypotheses, InEarliestBand, IsInBand, IsNoWorse, IsBetterDirectSequenceInLatencyBand;
    BandIsDirect(tried, AllHypotheses(run), direct, at, run.tolerance, best);
    forall other | InEarliestBand(tried, other, run.tolerance)
      ensures other in tried && tried[other].evaluation.Some?
      ensures IsNoWorse(direct[best], tried[other].evaluation.value, |AllHypotheses(run)|)
    {
      DirectChoiceIsNoWorse(run, tried, direct, at, best, other);
    }
  }

  lemma BandIsStrong(tried: Trials, latency: int, tolerance: int)
    requires InEarliestBand(tried, latency, tolerance)
    ensures Strong(tried, latency)
  {
  }

  /** Without strong evidence the running best is the best fit among all trials. */
  lemma BestIsBestFit(run: Run, tried: Trials)
    requires forall h | h in tried :: h in AllHypotheses(run)
    ensures IsBestFit(run, tried, BestOf(EvaluationsOf(tried, AllHypotheses(run))))
  {
    hide AllHypotheses, Drift, BestOf;
    var order := AllHypotheses(run);
    var evaluations := EvaluationsOf(tried, order);
    BestFits(evaluations);
    var best := BestOf(evaluations);
    forall h | h in tried && tried[h].evaluation.Some?
      ensures best.Some? && best.value.fitScore <= Train(tried, h).fitScore + Drift(|order|)
    {
      var k :| 0 <= k < |order| && order[k] == h;
      assert IsEvaluated(evaluations, k);
    }
    if best.Some? {
      var k :| IsEvaluated(evaluations, k) && evaluations[k].value.sequence == best.value;
      assert Returns(tried, order[k], best);
    }
  }

  lemma StrongIsListed(tried: Trials, order: seq<int>, direct: seq<Evaluation>, at: seq<int>)
    requires IsDirectList(tried, order, direct, at) && (forall h | h in tried :: h in order)
    ensures direct != [] <==> exists latency :: Strong(tried, latency)
  {
    if direct != [] {
      assert Strong(tried, at[0]);
    }
  }

  /** What the loops compute meets the contract of the selection. */
  lemma SelectionOfIsSelection(run: Run, tried: Trials)
    requires IsComplete(run, tried) && run.tolerance >= 0
    ensures
      IsSelection(run, tried, SelectionOf(EvaluationsOf(tried, AllHypotheses(run)), |run.expected|, run.tolerance))
  {
    hide AllHypotheses, AreMatcherAnswers, StrongOf, BestOf, BandWinner, IsBandWinner, IsBandChoice, IsBestFit,
         IsDirectList;
    var order := AllHypotheses(run);
    OnlyHypothesesAreTried(run, tried);
    AnswersAreRated(run, tried);
    StrongAtLists(tried, order, |run.expected|);
    var direct := StrongOf(EvaluationsOf(tried, order), |run.expected|);
    var at := StrongAt(tried, order, |run.expected|);
    StrongIsListed(tried, order, direct, at);
    if direct == [] {
      BestIsBestFit(run, tried);
    } else {
      var earliest := EarliestMedian(direct);
      WinnerIsBandWinner(direct, earliest, run.tolerance, |direct|);
      DirectMediansAreFrames(run, tried, order, direct, at);
      var winner := BandWinner(direct, earliest, run.tolerance, |direct|);
      EarliestIsInBand(direct, run.tolerance);
      DirectChoiceIsSelection(run, tried, direct, at, winner.value);
    }
  }

  lemma EarliestIsInBand(direct: seq<Evaluation>, tolerance: int)
    requires direct != [] && tolerance >= 0
    ensures exists k :: 0 <= k < |direct| && IsInBand(direct[k], EarliestMedian(direct), tolerance)
  {
    var k :| 0 <= k < |direct| && direct[k].medianLatency == EarliestMedian(direct);
    assert IsInBand(direct[k], EarliestMedian(direct), tolerance);
  }

  lemma OnlyHypothesesAreTried(run: Run, tried: Trials)
    requires IsComplete(run, tried)
    ensures forall h :: h in tried <==> h in AllHypotheses(run)
  {
    hide AllHypotheses, AreMatcherAnswers, IsHypothesis;
    forall h ensures h in tried <==> h in AllHypotheses(run) {
      AllHypothesesAreProposed(run, h);
    }
  }

  lemma AnswersAreRated(run: Run, tried: Trials)
    requires IsComplete(run, tried)
    ensures AreRated(tried, |run.expected|)
  {
    hide EvaluationOf, IsOptimalMatching, IsStrong, IsHypothesis;
    forall h | h in tried ensures tried[h].strong == IsStrong(tried[h].evaluation, |run.expected|) {
      assert IsMatcherAnswer(run, h, tried[h]);
    }
  }

  // ---------------------------------------------------------------- the trials, over their frames

  /** The run of a call: its candidates, normalised, and the tolerance, 35 ms but at least 8 frames. */
  ghost predicate IsRun(run: Run, candidates: seq<Candidate>, expected: seq<int>, sampleRate: real) {
    && IsNormalized(candidates, run.candidates) && run.expected == expected
    && IsRounded(sampleRate * 0.035, 8, run.tolerance) && run.sampleRate == sampleRate
  }

  lemma RunForIsRun(candidates: seq<Candidate>, expected: seq<int>, sampleRate: real, sqrt: real -> real)
    ensures IsRun(RunFor(candidates, expected, sampleRate, sqrt), candidates, expected, sampleRate)
    ensures RunFor(candidates, expected, sampleRate, sqrt).tolerance >= 0
  {
    hide IsNormalized, NormalizedCandidates;
    NormalizedCandidatesAreNormalized(candidates);
    LlRoundIsRounded(sampleRate * 0.035, 8);
  }

  /** A trial holds a best pairing under its hypothesis, its evaluation, and whether it is strong evidence. */
  ghost predicate IsJudged(run: Run, latency: int, trial: Trial) {
    var p, m := run.At(latency), trial.pairing;
    && IsBestPairing(p, m)
    && (trial.evaluation.Some? <==> |m| >= 2 && HasDistances(p, m))
    && (trial.evaluation.Some? ==> IsEvaluation(p, m, run.sampleRate, trial.evaluation.value))
    && (trial.strong <==> IsStrongPairing(p, m))
  }

  ghost predicate AreJudged(run: Run, tried: Trials) {
    forall latency {:trigger tried[latency]} | latency in tried :: IsJudged(run, latency, tried[latency])
  }

  lemma AnswerIsJudged(run: Run, latency: int, trial: Trial)
    requires IsMatcherAnswer(run, latency, trial) && IsSquareRoot(run.sqrt) && 0 < |run.expected| <= 5
    ensures IsJudged(run, latency, trial)
  {
    hide EvaluationOf, IsEvaluation, IsStrongPairing, HasDistances, IsBestPairing, HasStrongDirectEvidence;
    var p, m := run.At(latency), trial.pairing;
    OptimalIsBest(p, m);
    EvaluationIsExact(p, m, run.sampleRate, run.sqrt);
    StrongIsStrongPairing(p, m, run.sampleRate, run.sqrt);
  }

  lemma AnswersAreJudged(run: Run, tried: Trials)
    requires AreMatcherAnswers(run, tried) && IsSquareRoot(run.sqrt) && 0 < |run.expected| <= 5
    ensures AreJudged(run, tried)
  {
    hide IsMatcherAnswer, IsJudged;
    forall latency {:trigger tried[latency]} | latency in tried ensures IsJudged(run, latency, tried[latency]) {
      assert IsMatcherAnswer(run, latency, tried[latency]);
      AnswerIsJudged(run, latency, tried[latency]);
    }
  }

  /** The latencies of a train. */
  ghost predicate AreTrainLatencies(train: MarkerSequence, expected: seq<int>, latencies: seq<int>) {
    && |latencies| == |train.candidates| == |train.expectedIndices|
    && forall k :: 0 <= k < |latencies| ==>
         && train.expectedIndices[k] < |expected|
         && latencies[k] == train.candidates[k].frame - expected[train.expectedIndices[k]]
  }

  /** A train whose matches, at least two, lie within 31 frames of one another. */
  ghost predicate IsNarrowTrain(train: MarkerSequence, expected: seq<int>) {
    |train.candidates| >= 2 && exists latencies :: AreTrainLatencies(train, expected, latencies) && IsNarrow(latencies)
  }

  lemma {:induction false} PairingIsShort(p: Problem, m: seq<Pair>, k: nat)
    requires IsPairing(p, m) && k < |m|
    ensures k <= m[k].e < |p.expected|
  {
    if k > 0 {
      PairingIsShort(p, m, k - 1);
    }
  }

  lemma StrongIsNarrow(run: Run, latency: int, trial: Trial)
    requires IsJudged(run, latency, trial) && trial.strong && |run.expected| <= 5
    ensures trial.evaluation.Some? && IsNarrowTrain(trial.evaluation.value.sequence, run.expected)
  {
    hide IsCoherent, IsTiming, IsMiddle, HasDistances, CountBelow, Lateness, IsPenalty, IsMean, IsNarrow, ArePeaks,
         IsAtLeastAsGood;
    var p, m, train := run.At(latency), trial.pairing, trial.evaluation.value.sequence;
    var latencies :| AreLatencies(p, m, latencies) && IsCoherent(latencies);
    PairingIsShort(p, m, |m| - 1);
    CoherentIsNarrow(latencies);
    assert AreTrainLatencies(train, run.expected, latencies);
  }

  /** So if any train is strong evidence, the selected one is narrow. */
  lemma SelectionIsNarrow(run: Run, tried: Trials, r: Option<MarkerSequence>)
    requires IsSelection(run, tried, r) && AreJudged(run, tried) && |run.expected| <= 5
    requires exists latency :: Strong(tried, latency)
    ensures r.Some? && IsNarrowTrain(r.value, run.expected)
  {
    hide IsJudged, IsNoWorse, AllHypotheses, IsNarrowTrain;
    var chosen :| IsBandChoice(run, tried, chosen, r);
    assert Strong(tried, chosen);
    StrongIsNarrow(run, chosen, tried[chosen]);
  }

  // ---------------------------------------------------------------- exact choices

  /** A better fit, or the same fit and louder. */
  ghost predicate FitsBetter(a: MarkerSequence, b: MarkerSequence) {
    a.fitScore < b.fitScore || (a.fitScore == b.fitScore && a.averagePeak > b.averagePeak)
  }

  /** More matches, better timing, a better fit, louder matches or an earlier latency, in this order. */
  ghost predicate TimesBetter(a: Evaluation, b: Evaluation) {
    var matched, others := |a.sequence.candidates|, |b.sequence.candidates|;
    || matched > others
    || (matched == others
        && (|| a.timingFitScore < b.timingFitScore
            || (a.timingFitScore == b.timingFitScore
                && (|| FitsBetter(a.sequence, b.sequence)
                    || (!FitsBetter(b.sequence, a.sequence) && a.medianLatency < b.medianLatency)))))
  }

  /** Equal, or different by more than the epsilon of the comparisons. */
  ghost predicate AreClear(x: real, y: real) {
    x == y || x - y > 0.000001 || y - x > 0.000001
  }

  lemma ClearFitIsExact(a: MarkerSequence, b: MarkerSequence)
    requires AreClear(a.fitScore, b.fitScore)
    ensures IsBetterMarkerSequence(a, Some(b)) <==> FitsBetter(a, b)
  {
  }

  lemma ClearTimingIsExact(a: Evaluation, b: Evaluation)
    requires AreClear(a.sequence.fitScore, b.sequence.fitScore) && AreClear(a.timingFitScore, b.timingFitScore)
    ensures IsBetterDirectSequenceInLatencyBand(a, b) <==> TimesBetter(a, b)
  {
    hide IsBetterMarkerSequence, FitsBetter;
    ClearFitIsExact(a.sequence, b.sequence);
    ClearFitIsExact(b.sequence, a.sequence);
  }

  /** Without any assumption: fit scores within the epsilon of one another leave it to the peaks. */
  lemma FitsAreComparedWithin(a: MarkerSequence, b: MarkerSequence)
    ensures IsBetterMarkerSequence(a, Some(b)) <==>
      if -0.000001 <= a.fitScore - b.fitScore <= 0.000001 then a.averagePeak > b.averagePeak
      else a.fitScore < b.fitScore
  {
  }

  /** And with as many matches timing scores within it leave it to the fit, and at last to the latency. */
  lemma TimingsAreComparedWithin(a: Evaluation, b: Evaluation)
    requires |a.sequence.candidates| == |b.sequence.candidates|
    ensures IsBetterDirectSequenceInLatencyBand(a, b) <==>
      if -0.000001 <= a.timingFitScore - b.timingFitScore <= 0.000001 then
        || IsBetterMarkerSequence(a.sequence, Some(b.sequence))
        || (!IsBetterMarkerSequence(b.sequence, Some(a.sequence)) && a.medianLatency < b.medianLatency)
      else a.timingFitScore < b.timingFitScore
  {
    hide IsBetterMarkerSequence;
  }

  ghost predicate HaveClearFits(evaluations: seq<Option<Evaluation>>) {
    forall j, k :: IsEvaluated(evaluations, j) && IsEvaluated(evaluations, k) ==>
      AreClear(evaluations[j].value.sequence.fitScore, evaluations[k].value.sequence.fitScore)
  }

  /** Number k is the best fit, and the first of the best. */
  ghost predicate IsFirstBestFit(evaluations: seq<Option<Evaluation>>, k: int) {
    && IsEvaluated(evaluations, k)
    && (forall j :: IsEvaluated(evaluations, j) && j < k ==>
          FitsBetter(evaluations[k].value.sequence, evaluations[j].value.sequence))
    && (forall j :: IsEvaluated(evaluations, j) && j > k ==>
          !FitsBetter(evaluations[j].value.sequence, evaluations[k].value.sequence))
  }

  /** With clear differences the running best is exactly the first best fit. */
  lemma {:induction false} BestIsFirstBestFit(evaluations: seq<Option<Evaluation>>)
    requires HaveClearFits(evaluations)
    ensures BestOf(evaluations).None? ==> forall k :: !IsEvaluated(evaluations, k)
    ensures BestOf(evaluations).Some? ==>
      exists k :: IsFirstBestFit(evaluations, k) && BestOf(evaluations) == Some(evaluations[k].value.sequence)
  {
    if evaluations != [] {
      var n := |evaluations| - 1;
      var front, last := evaluations[..n], evaluations[n];
      forall k ensures IsEvaluated(front, k) <==> k < n && IsEvaluated(evaluations, k) {
      }
      BestIsFirstBestFit(front);
      FirstBestFitNext(front, last, BestOf(front), BestOf(evaluations));
      assert front + [last] == evaluations;
    }
  }

  lemma FirstBestFitNext(front: seq<Option<Evaluation>>, last: Option<Evaluation>, was: Option<MarkerSequence>,
                         best: Option<MarkerSequence>)
    requires HaveClearFits(front + [last])
    requires was.None? ==> forall k :: !IsEvaluated(front, k)
    requires was.Some? ==> exists k :: IsFirstBestFit(front, k) && was == Some(front[k].value.sequence)
    requires best == if last.Some? && IsBetterMarkerSequence(last.value.sequence, was) then Some(last.value.sequence)
                     else was
    ensures best.None? ==> forall k :: !IsEvaluated(front + [last], k)
    ensures best.Some? ==>
      exists k :: IsFirstBestFit(front + [last], k) && best == Some((front + [last])[k].value.sequence)
  {
    hide AreClear, IsBetterMarkerSequence;
    var all, n := front + [last], |front|;
    forall k ensures IsEvaluated(all, k) <==> IsEvaluated(front, k) || (k == n && last.Some?) {
    }
    if was.Some? {
      var k :| IsFirstBestFit(front, k) && was == Some(front[k].value.sequence);
      if last.Some? {
        assert IsEvaluated(all, k) && IsEvaluated(all, n);
        ClearFitIsExact(last.value.sequence, was.value);
      }
      assert best == was ==> IsFirstBestFit(all, k) && best == Some(all[k].value.sequence);
      assert best != was ==> IsFirstBestFit(all, n) && best == Some(all[n].value.sequence);
    } else if best.Some? {
      FirstIsBetter(last.value.sequence);
      assert IsFirstBestFit(all, n) && best == Some(all[n].value.sequence);
    } else if last.Some? {
      FirstIsBetter(last.value.sequence);
    }
  }

  lemma FirstIsBetter(candidate: MarkerSequence)
    ensures IsBetterMarkerSequence(candidate, None)
  {
  }

  ghost predicate HaveClearScores(direct: seq<Evaluation>) {
    forall j, k :: 0 <= j < |direct| && 0 <= k < |direct| ==>
      && AreClear(direct[j].sequence.fitScore, direct[k].sequence.fitScore)
      && AreClear(direct[j].timingFitScore, direct[k].timingFitScore)
  }

  /** Number w is the best in the band among the first n, and the first of the best. */
  ghost predicate IsFirstBandBest(direct: seq<Evaluation>, earliest: int, tolerance: int, n: nat, w: nat)
    requires n <= |direct|
  {
    && w < n && IsInBand(direct[w], earliest, tolerance)
    && (forall k | 0 <= k < w && IsInBand(direct[k], earliest, tolerance) :: TimesBetter(direct[w], direct[k]))
    && (forall k | w < k < n && IsInBand(direct[k], earliest, tolerance) :: !TimesBetter(direct[k], direct[w]))
  }

  lemma TimesBetterIsTransitive(a: Evaluation, b: Evaluation, c: Evaluation)
    requires TimesBetter(a, b)
    ensures TimesBetter(b, c) || !TimesBetter(c, b) ==> TimesBetter(a, c)
  {
  }

  /** With clear differences the running choice is exactly the first best of the band. */
  lemma {:induction false} WinnerIsFirstBandBest(direct: seq<Evaluation>, earliest: int, tolerance: int, n: nat)
    requires n <= |direct| && HaveClearScores(direct)
    ensures
      var w := BandWinner(direct, earliest, tolerance, n);
      if w.Some? then IsFirstBandBest(direct, earliest, tolerance, n, w.value)
      else forall k | 0 <= k < n :: !IsInBand(direct[k], earliest, tolerance)
  {
    hide AreClear, TimesBetter, IsBetterDirectSequenceInLatencyBand, IsInBand;
    if n > 0 {
      WinnerIsFirstBandBest(direct, earliest, tolerance, n - 1);
      var was := BandWinner(direct, earliest, tolerance, n - 1);
      if was.Some? && IsInBand(direct[n - 1], earliest, tolerance) {
        ClearTimingIsExact(direct[n - 1], direct[was.value]);
        if TimesBetter(direct[n - 1], direct[was.value]) {
          forall k | 0 <= k < n - 1 && IsInBand(direct[k], earliest, tolerance)
            ensures TimesBetter(direct[n - 1], direct[k])
          {
            TimesBetterIsTransitive(direct[n - 1], direct[was.value], direct[k]);
          }
        }
      }
    }
  }

  // ---------------------------------------------------------------- the loops

  /** The running results after the hypotheses `order`. */
  ghost predicate IsProgress(run: Run, tried: Trials, order: seq<int>, best: Option<MarkerSequence>,
                             direct: seq<Evaluation>)
  {
    && (forall latency :: latency in tried <==> latency in order)
    && AreMatcherAnswers(run, tried)
    && best == BestOf(EvaluationsOf(tried, order))
    && direct == StrongOf(EvaluationsOf(tried, order), |run.expected|)
  }

  /** The double loop over candidates and markers: every hypothesis is tried exactly once, in order. */
  method TryHypotheses(run: Run)
      returns (best: Option<MarkerSequence>, direct: seq<Evaluation>, ghost tried: Trials)
    ensures IsComplete(run, tried) && IsProgress(run, tried, AllHypotheses(run), best, direct)
  {
    hide IsProgress, IsComplete, AreMatcherAnswers;
    var evaluatedLatencies: set<int> := {};
    best, direct, tried := None, [], map[];
    NothingTried(run);
    for ci := 0 to |run.candidates|
      invariant evaluatedLatencies == tried.Keys
      invariant IsProgress(run, tried, Hypotheses(run, ci, 0), best, direct)
    {
      for ei := 0 to |run.expected|
        invariant evaluatedLatencies == tried.Keys
        invariant IsProgress(run, tried, Hypotheses(run, ci, ei), best, direct)
      {
        evaluatedLatencies, best, direct, tried := TryPair(run, ci, ei, evaluatedLatencies, best, direct, tried);
      }
    }
    AllPairsTried(run, tried, best, direct);
  }

  lemma NothingTried(run: Run)
    ensures IsProgress(run, map[], [], None, [])
  {
  }

  lemma AllPairsTried(run: Run, tried: Trials, best: Option<MarkerSequence>, direct: seq<Evaluation>)
    requires IsProgress(run, tried, AllHypotheses(run), best, direct)
    ensures IsComplete(run, tried)
  {
    hide AllHypotheses, IsMatcherAnswer;
    forall h ensures h in tried <==> IsHypothesis(run.candidates, run.expected, h) {
      AllHypothesesAreProposed(run, h);
    }
  }

  /** The loop body: the hypothesis of one candidate and one marker, unless already evaluated. */
  method TryPair(run: Run, ci: nat, ei: nat, evaluatedLatencies: set<int>, best: Option<MarkerSequence>,
                 direct: seq<Evaluation>, ghost tried: Trials)
      returns (evaluatedLatencies': set<int>, best': Option<MarkerSequence>, direct': seq<Evaluation>,
               ghost tried': Trials)
    requires ci < |run.candidates| && ei < |run.expected| && evaluatedLatencies == tried.Keys
    requires IsProgress(run, tried, Hypotheses(run, ci, ei), best, direct)
    ensures evaluatedLatencies' == tried'.Keys
    ensures IsProgress(run, tried', Hypotheses(run, ci, ei + 1), best', direct')
  {
    hide IsProgress;
    evaluatedLatencies', best', direct', tried' := evaluatedLatencies, best, direct, tried;
    var latency := FrameDifference(run.candidates[ci].frame, run.expected[ei]);
    ghost var order := Hypotheses(run, ci, ei);
    OrderIsTried(run, tried, order, best, direct);
    if latency.Some? && latency.value !in evaluatedLatencies {
      evaluatedLatencies' := evaluatedLatencies + {latency.value};
      best', direct', tried' := TryHypothesis(run, latency.value, best, direct, tried, order);
    }
  }

  lemma OrderIsTried(run: Run, tried: Trials, order: seq<int>, best: Option<MarkerSequence>, direct: seq<Evaluation>)
    requires IsProgress(run, tried, order, best, direct)
    ensures forall latency :: latency in tried <==> latency in order
  {
  }

  /** Evaluates one new hypothesis and updates the running results. */
  method TryHypothesis(run: Run, latency: int, best: Option<MarkerSequence>, direct: seq<Evaluation>,
                       ghost tried: Trials, ghost order: seq<int>)
      returns (best': Option<MarkerSequence>, direct': seq<Evaluation>, ghost tried': Trials)
    requires latency !in tried && IsProgress(run, tried, order, best, direct)
    ensures tried'.Keys == tried.Keys + {latency}
    ensures IsProgress(run, tried', order + [latency], best', direct')
  {
    hide IsProgress, EvaluationOf, IsOptimalMatching, IsBetterMarkerSequence, HasStrongDirectEvidence;
    var evaluation, m := MakeMarkerSequence(run.At(latency), run.sampleRate, run.sqrt);
    best', direct' := best, direct;
    if evaluation.Some? && IsBetterMarkerSequence(evaluation.value.sequence, best) {
      best' := Some(evaluation.value.sequence);
    }
    if IsStrong(evaluation, |run.expected|) {
      direct' := direct + [evaluation.value];
    }
    ghost var trial := Trial(m, evaluation, IsStrong(evaluation, |run.expected|));
    tried' := tried[latency := trial];
    Progresses(run, tried, order, latency, trial, best, direct);
  }

  lemma Progresses(run: Run, tried: Trials, order: seq<int>, latency: int, trial: Trial,
                   best: Option<MarkerSequence>, direct: seq<Evaluation>)
    requires latency !in tried && IsProgress(run, tried, order, best, direct) && IsMatcherAnswer(run, latency, trial)
    ensures
      var best' := if trial.evaluation.Some? && IsBetterMarkerSequence(trial.evaluation.value.sequence, best)
                   then Some(trial.evaluation.value.sequence) else best;
      var direct' := if trial.strong then direct + [trial.evaluation.value] else direct;
      IsProgress(run, tried[latency := trial], order + [latency], best', direct')
  {
    hide IsOptimalMatching, EvaluationOf, IsBetterMarkerSequence, HasStrongDirectEvidence;
    var tried', order' := tried[latency := trial], order + [latency];
    RecordAnswer(run, tried, latency, trial);
    assert EvaluationsOf(tried', order') == EvaluationsOf(tried, order) + [trial.evaluation];
    assert EvaluationsOf(tried', order')[..|order|] == EvaluationsOf(tried, order);
  }

  lemma RecordAnswer(run: Run, tried: Trials, latency: int, trial: Trial)
    requires AreMatcherAnswers(run, tried) && IsMatcherAnswer(run, latency, trial)
    ensures AreMatcherAnswers(run, tried[latency := trial])
  {
    hide IsMatcherAnswer;
    var tried' := tried[latency := trial];
    forall other | other in tried' ensures IsMatcherAnswer(run, other, tried'[other]) {
      if other != latency {
        assert IsMatcherAnswer(run, other, tried[other]);
      }
    }
  }

  /** The loop over the direct trains of the earliest latency band. */
  method BestInEarliestBand(direct: seq<Evaluation>, tolerance: int) returns (best: Option<nat>)
    requires direct != []
    ensures best == BandWinner(direct, EarliestMedian(direct), tolerance, |direct|)
  {
    var earliest := EarliestMedian(direct);
    best := None;
    for index := 0 to |direct|
      invariant best == BandWinner(direct, earliest, tolerance, index)
    {
      if !IsInBand(direct[index], earliest, tolerance) {
        continue;
      }
      if best.None? || IsBetterDirectSequenceInLatencyBand(direct[index], direct[best.value]) {
        best := Some(index);
      }
    }
  }

  /**
   Selects the marker train of a recording.  The out-parameter `tried` exhibits, for every
   latency hypothesis, the lexicographically optimal pairing and its evaluation.
   */
  method SelectMarkerSequence(
      candidates: seq<Candidate>, expected: seq<int>, sampleRate: real, sqrt: real -> real)
      returns (r: Option<MarkerSequence>, ghost tried: Trials)
    ensures IsAccepted(candidates, expected, sampleRate) <==>
      && 1 <= |expected| <= 5 && 1 <= |candidates| <= 512 && sampleRate > 0.0
      && forall i, j :: 0 <= i < j < |expected| ==> expected[i] < expected[j]
    ensures !IsAccepted(candidates, expected, sampleRate) ==> r == None
    ensures IsAccepted(candidates, expected, sampleRate) ==>
      var run := RunFor(candidates, expected, sampleRate, sqrt);
      && IsRun(run, candidates, expected, sampleRate)
      && IsComplete(run, tried) && IsSelection(run, tried, r)
      && r == SelectionOf(EvaluationsOf(tried, AllHypotheses(run)), |expected|, run.tolerance)
      && (IsSquareRoot(sqrt) ==> AreJudged(run, tried))
    ensures IsAccepted(candidates, expected, sampleRate) && IsSquareRoot(sqrt) ==>
      (exists latency :: Strong(tried, latency)) ==> r.Some? && IsNarrowTrain(r.value, expected)
  {
    hide IsComplete, IsSelection, AllHypotheses, BandWinner, EvaluationsOf, BestOf, StrongOf, AreJudged, IsRun,
         Strong, IsNarrowTrain, NormalizedCandidates, SequenceMatchToleranceFrames;
    tried := map[];
    if !IsAccepted(candidates, expected, sampleRate) {
      return None, tried;
    }
    var run := RunFor(candidates, expected, sampleRate, sqrt);
    var best, direct, trials := TryHypotheses(run);
    tried := trials;
    OrderIsTried(run, tried, AllHypotheses(run), best, direct);
    RunForIsRun(candidates, expected, sampleRate, sqrt);
    SelectionOfIsSelection(run, tried);
    CompleteIsJudged(run, tried);
    if direct != [] {
      var chosen := BestInEarliestBand(direct, run.tolerance);
      if chosen.Some? {
        r := Some(direct[chosen.value].sequence);
        SelectedIsNarrow(run, tried, r);
        return r, tried;
      }
    }
    r := best;
    SelectedIsNarrow(run, tried, r);
  }

  lemma SelectedIsNarrow(run: Run, tried: Trials, r: Option<MarkerSequence>)
    requires IsSelection(run, tried, r) && |run.expected| <= 5
    requires IsSquareRoot(run.sqrt) ==> AreJudged(run, tried)
    ensures IsSquareRoot(run.sqrt) && (exists latency :: Strong(tried, latency)) ==>
      r.Some? && IsNarrowTrain(r.value, run.expected)
  {
    hide IsSelection, AreJudged, Strong, IsNarrowTrain;
    if IsSquareRoot(run.sqrt) && exists latency :: Strong(tried, latency) {
      SelectionIsNarrow(run, tried, r);
    }
  }

  lemma CompleteIsJudged(run: Run, tried: Trials)
    requires IsComplete(run, tried) && 0 < |run.expected| <= 5
    ensures IsSquareRoot(run.sqrt) ==> AreJudged(run, tried)
  {
    hide IsMatcherAnswer, AreJudged, IsHypothesis;
    if IsSquareRoot(run.sqrt) {
      AnswersAreJudged(run, tried);
    }
  }
}
