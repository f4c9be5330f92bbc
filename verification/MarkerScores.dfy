/**
 What the evaluation of a pairing means, stated over its frames: the middle latency by counting,
 the spreads by sums of squares, the scores by sums, and when a train is strong evidence.
 */
module MarkerScores {
  import opened Arithmetic
  import opened MarkerEvaluation
  import opened MarkerMatching
  import opened Wrappers

  // ---------------------------------------------------------------- the middle of a list

  ghost function CountBelow(values: seq<int>, x: int): (n: nat)
    ensures n <= |values|
  {
    if values == [] then 0 else CountBelow(values[1..], x) + if values[0] < x then 1 else 0
  }

  /** The values at or below x are those below x + 1. */
  ghost function CountUpTo(values: seq<int>, x: int): (n: nat)
    ensures n <= |values|
  {
    CountBelow(values, x + 1)
  }

  /** At most half of the values are below x, and more than half of them are not above it. */
  ghost predicate IsMiddle(values: seq<int>, x: int) {
    2 * CountBelow(values, x) <= |values| < 2 * CountUpTo(values, x)
  }

  lemma {:induction false} CountIsMonotone(values: seq<int>, x: int, y: int)
    requires x <= y
    ensures CountBelow(values, x) <= CountBelow(values, y)
  {
    if values != [] {
      CountIsMonotone(values[1..], x, y);
    }
  }

  /** There is only one middle. */
  lemma MiddleIsUnique(values: seq<int>, x: int, y: int)
    requires IsMiddle(values, x) && IsMiddle(values, y)
    ensures x == y
  {
    if x < y {
      CountIsMonotone(values, x + 1, y);
    } else if y < x {
      CountIsMonotone(values, y + 1, x);
    }
  }

  lemma {:induction false} CountConcat(a: seq<int>, b: seq<int>, x: int)
    ensures CountBelow(a + b, x) == CountBelow(a, x) + CountBelow(b, x)
  {
    if a == [] {
      assert a + b == b;
    } else {
      assert (a + b)[1..] == a[1..] + b;
      CountConcat(a[1..], b, x);
    }
  }

  lemma {:induction false} CountAll(values: seq<int>, x: int)
    ensures (forall i :: 0 <= i < |values| ==> values[i] < x) ==> CountBelow(values, x) == |values|
    ensures (forall i :: 0 <= i < |values| ==> values[i] >= x) ==> CountBelow(values, x) == 0
  {
    if values != [] {
      CountAll(values[1..], x);
    }
  }

  lemma {:induction false} InsertCounts(sorted: seq<int>, v: int, x: int)
    ensures CountBelow(InsertSorted(sorted, v), x) == CountBelow([v] + sorted, x)
  {
    assert ([v] + sorted)[1..] == sorted;
    if sorted != [] && v > sorted[0] {
      InsertCounts(sorted[1..], v, x);
      assert ([v] + sorted[1..])[1..] == sorted[1..];
    }
  }

  lemma {:induction false} SortedCounts(values: seq<int>, x: int)
    ensures CountBelow(Sorted(values), x) == CountBelow(values, x)
  {
    if values != [] {
      SortedCounts(values[1..], x);
      InsertCounts(Sorted(values[1..]), values[0], x);
      assert ([values[0]] + Sorted(values[1..]))[1..] == Sorted(values[1..]);
    }
  }

  ghost predicate IsSorted(values: seq<int>) {
    forall i, j :: 0 <= i < j < |values| ==> values[i] <= values[j]
  }

  lemma {:induction false} InsertIsSorted(sorted: seq<int>, v: int)
    requires IsSorted(sorted)
    ensures IsSorted(InsertSorted(sorted, v))
  {
    if sorted != [] && v > sorted[0] {
      InsertIsSorted(sorted[1..], v);
      var rest := InsertSorted(sorted[1..], v);
      forall j | 0 <= j < |rest| ensures sorted[0] <= rest[j] {
        InsertSortedMembers(sorted[1..], v, rest[j]);
      }
    }
  }

  lemma {:induction false} SortedIsSorted(values: seq<int>)
    ensures IsSorted(Sorted(values))
  {
    if values != [] {
      SortedIsSorted(values[1..]);
      InsertIsSorted(Sorted(values[1..]), values[0]);
    }
  }

  /** In a sorted list at most i values are below the element at index i. */
  lemma CountBelowIndex(sorted: seq<int>, i: nat)
    requires IsSorted(sorted) && i < |sorted|
    ensures CountBelow(sorted, sorted[i]) <= i
  {
    hide CountBelow;
    var front, back := sorted[..i], sorted[i..];
    assert sorted == front + back;
    CountConcat(front, back, sorted[i]);
    CountAll(back, sorted[i]);
  }

  /** And more than i are not above it. */
  lemma CountUpToIndex(sorted: seq<int>, i: nat)
    requires IsSorted(sorted) && i < |sorted|
    ensures i < CountUpTo(sorted, sorted[i])
  {
    hide CountBelow;
    var front, back := sorted[..i + 1], sorted[i + 1..];
    assert sorted == front + back;
    CountConcat(front, back, sorted[i] + 1);
    CountAll(front, sorted[i] + 1);
  }

  /** The median is the middle, counted over the unsorted values. */
  lemma MedianIsMiddle(values: seq<int>)
    ensures if values == [] then Median(values) == 0 else IsMiddle(values, Median(values))
  {
    if values != [] {
      var sorted := Sorted(values);
      SortedMembers(values, 0);
      SortedIsSorted(values);
      CountBelowIndex(sorted, |sorted| / 2);
      CountUpToIndex(sorted, |sorted| / 2);
      SortedCounts(values, Median(values));
      SortedCounts(values, Median(values) + 1);
    }
  }

  lemma MiddleOfConstant(values: seq<int>, x: int)
    requires values != [] && forall i :: 0 <= i < |values| ==> values[i] == x
    ensures IsMiddle(values, x)
  {
    CountAll(values, x);
    CountAll(values, x + 1);
  }

  // ---------------------------------------------------------------- sums

  ghost function Total(values: seq<real>): real {
    if values == [] then 0.0 else values[0] + Total(values[1..])
  }

  ghost function Square(x: real): (s: real)
    ensures s >= 0.0
  {
    x * x
  }

  /** The squared distances from a centre. */
  ghost function SquaresAround(values: seq<real>, centre: real): (t: real)
    ensures t >= 0.0
  {
    if values == [] then 0.0 else Square(values[0] - centre) + SquaresAround(values[1..], centre)
  }

  ghost function MagnitudeTotal(values: seq<real>): (t: real)
    ensures t >= 0.0
  {
    if values == [] then 0.0 else (if values[0] < 0.0 then -values[0] else values[0]) + MagnitudeTotal(values[1..])
  }

  lemma {:induction false} SumPrepend(x: real, values: seq<real>)
    ensures Sum([x] + values) == x + Sum(values)
  {
    if values == [] {
      assert ([x] + values)[..0] == [];
    } else {
      assert ([x] + values)[..|values|] == [x] + values[..|values| - 1];
      SumPrepend(x, values[..|values| - 1]);
    }
  }

  lemma {:induction false} SumIsTotal(values: seq<real>)
    ensures Sum(values) == Total(values)
  {
    if values != [] {
      SumIsTotal(values[1..]);
      SumPrepend(values[0], values[1..]);
      assert values == [values[0]] + values[1..];
    }
  }

  ghost function Deviations(values: seq<real>, centre: real): seq<real> {
    seq(|values|, i requires 0 <= i < |values| => Square(values[i] - centre))
  }

  lemma {:induction false} SquaresAreTotal(values: seq<real>, centre: real)
    ensures Total(Deviations(values, centre)) == SquaresAround(values, centre)
  {
    hide Square;
    if values != [] {
      assert Deviations(values, centre)[1..] == Deviations(values[1..], centre);
      SquaresAreTotal(values[1..], centre);
    }
  }

  lemma {:induction false} MagnitudesAreTotal(values: seq<real>)
    ensures Total(Magnitudes(values)) == MagnitudeTotal(values)
  {
    if values != [] {
      assert Magnitudes(values)[1..] == Magnitudes(values[1..]);
      MagnitudesAreTotal(values[1..]);
    }
  }

  /** The mean times the count is the total; the mean of nothing is 0. */
  ghost predicate IsMean(values: seq<real>, mean: real) {
    if values == [] then mean == 0.0 else Gained(mean, |values| as real) == Total(values)
  }

  lemma QuotientTimes(x: real, n: real)
    requires n > 0.0
    ensures Gained(x / n, n) == x
  {
  }

  lemma MeanIsMean(values: seq<real>)
    ensures IsMean(values, Mean(values))
  {
    SumIsTotal(values);
    if values != [] {
      QuotientTimes(Sum(values), |values| as real);
    }
  }

  /** The spread: its square times the count is the sum of squares around the mean. */
  ghost predicate IsSpread(values: seq<real>, spread: real) {
    && spread >= 0.0
    && exists mean :: IsMean(values, mean)
         && if values == [] then spread == 0.0
            else Gained(Square(spread), |values| as real) == SquaresAround(values, mean)
  }

  lemma DeviationIsSpread(sqrt: real -> real, values: seq<real>)
    requires IsSquareRoot(sqrt)
    ensures IsSpread(values, StandardDeviation(sqrt, values))
  {
    hide Gained, Square;
    var mean, spread := Mean(values), StandardDeviation(sqrt, values);
    MeanIsMean(values);
    DeviationsAreSquared(values);
    SquaresAreTotal(values, mean);
    MeanIsMean(SquaredDeviations(values));
    VarianceIsNotNegative(values);
    SquareOfRoot(sqrt, Variance(values));
  }

  lemma DeviationsAreSquared(values: seq<real>)
    ensures SquaredDeviations(values) == Deviations(values, Mean(values))
  {
  }

  lemma SquareOfRoot(sqrt: real -> real, x: real)
    requires IsSquareRoot(sqrt) && x >= 0.0
    ensures sqrt(x) >= 0.0 && Square(sqrt(x)) == x
  {
  }

  lemma VarianceIsNotNegative(values: seq<real>)
    ensures Variance(values) >= 0.0
  {
    var deviations, mean := SquaredDeviations(values), Mean(values);
    SumIsTotal(deviations);
    DeviationsAreSquared(values);
    SquaresAreTotal(values, mean);
    if deviations != [] {
      QuotientIsNotNegative(Sum(deviations), |deviations| as real);
    }
  }

  lemma QuotientIsNotNegative(x: real, n: real)
    requires x >= 0.0 && n > 0.0
    ensures x / n >= 0.0
  {
  }

  // ---------------------------------------------------------------- coherence

  /** A spread is at most 10 exactly if the squares sum to at most 100 for each value. */
  ghost predicate IsTight(values: seq<real>) {
    exists mean :: IsMean(values, mean) && SquaresAround(values, mean) <= 100.0 * |values| as real
  }

  lemma MeanIsUnique(values: seq<real>, a: real, b: real)
    requires IsMean(values, a) && IsMean(values, b)
    ensures a == b
  {
  }

  lemma SquareCompares(s: real, n: real)
    requires s >= 0.0 && n > 0.0
    ensures Gained(Square(s), n) <= 100.0 * n <==> s <= 10.0
  {
    RootCompares(s);
    var q := Square(s);
    if q <= 100.0 {
      assert (100.0 - q) * n >= 0.0;
    } else {
      assert (q - 100.0) * n > 0.0;
    }
  }

  lemma RootCompares(s: real)
    requires s >= 0.0
    ensures Square(s) <= 100.0 <==> s <= 10.0
  {
    assert 100.0 - s * s == (10.0 - s) * (10.0 + s);
    ProductSign(10.0 - s, 10.0 + s);
  }

  lemma ProductSign(a: real, b: real)
    requires b > 0.0
    ensures a * b >= 0.0 <==> a >= 0.0
  {
  }

  lemma SpreadIsTight(values: seq<real>, spread: real)
    requires IsSpread(values, spread)
    ensures spread <= 10.0 <==> IsTight(values)
  {
    hide Gained, Square, SquaresAround, IsMean;
    var mean :| IsMean(values, mean)
      && if values == [] then spread == 0.0
         else Gained(Square(spread), |values| as real) == SquaresAround(values, mean);
    if values == [] {
      NoSquares(mean);
    } else {
      SquareCompares(spread, |values| as real);
    }
    forall other | IsMean(values, other) ensures other == mean {
      MeanIsUnique(values, mean, other);
    }
  }

  lemma NoSquares(mean: real)
    ensures SquaresAround([], mean) == 0.0
  {
  }

  /** The mean of the magnitudes is at most 10. */
  ghost predicate IsSmall(values: seq<real>) {
    MagnitudeTotal(values) <= 10.0 * |values| as real
  }

  lemma MeanCompares(total: real, n: real)
    requires n > 0.0
    ensures total / n <= 10.0 <==> total <= 10.0 * n
  {
    var q := total / n;
    assert q * n == total;
    if q <= 10.0 {
      assert (10.0 - q) * n >= 0.0;
    } else {
      assert (q - 10.0) * n > 0.0;
    }
  }

  lemma MeanIsSmall(values: seq<real>)
    ensures Mean(Magnitudes(values)) <= 10.0 <==> IsSmall(values)
  {
    SumIsTotal(Magnitudes(values));
    MagnitudesAreTotal(values);
    if values != [] {
      MeanCompares(Sum(Magnitudes(values)), |values| as real);
    }
  }

  // ---------------------------------------------------------------- the frames of a pairing

  /** The latency of match k. */
  ghost predicate AreLatencies(p: Problem, m: seq<Pair>, latencies: seq<int>)
    requires InRange(p, m)
  {
    && |latencies| == |m|
    && forall k :: 0 <= k < |m| ==> latencies[k] == p.candidates[m[k].c].frame - p.expected[m[k].e]
  }

  /** By how much the distance of matches k and k + 1 differs from the expected one: how the latency changes. */
  ghost predicate AreErrors(latencies: seq<int>, errors: seq<real>) {
    && |latencies| == |errors| + 1
    && forall k {:trigger errors[k]} :: 0 <= k < |errors| ==> errors[k] == (latencies[k + 1] - latencies[k]) as real
  }

  ghost predicate AreReals(values: seq<int>, reals: seq<real>) {
    |reals| == |values| && forall k :: 0 <= k < |values| ==> reals[k] == values[k] as real
  }

  /** Latencies that are close to one another and change little from match to match. */
  ghost predicate IsCoherent(latencies: seq<int>) {
    exists reals: seq<real>, errors: seq<real> ::
      && AreReals(latencies, reals) && AreErrors(latencies, errors)
      && IsTight(reals) && IsSmall(errors) && IsTight(errors)
  }

  /** The distances of neighbouring matches, in both lists, that are compared with each other. */
  ghost predicate HasDistances(p: Problem, m: seq<Pair>)
    requires InRange(p, m)
  {
    forall k {:trigger m[k]} :: 0 <= k < |m| - 1 ==>
      && IsFrame(p.candidates[m[k + 1].c].frame - p.candidates[m[k].c].frame)
      && IsFrame(p.expected[m[k + 1].e] - p.expected[m[k].e])
  }

  /** How late or how early: ten frames' cost for a frame too early, a thousandth for a frame too late. */
  ghost function Lateness(latency: int): real {
    if latency < 0 then 10.0 * (-latency) as real else 0.001 * latency as real
  }

  /** What a missing marker costs. */
  ghost predicate IsPenalty(sampleRate: real, penalty: real) {
    penalty == if sampleRate * 0.02 < 16.0 then 16.0 else sampleRate * 0.02
  }

  /** How far latencies scatter, how much they change on average, and how far these changes scatter. */
  datatype Scatter = Scatter(spread: real, meanError: real, errorSpread: real)

  ghost predicate IsScatter(reals: seq<real>, errors: seq<real>, s: Scatter) {
    && IsSpread(reals, s.spread) && IsSpread(errors, s.errorSpread)
    && s.meanError >= 0.0 && Gained(s.meanError, |errors| as real) == MagnitudeTotal(errors)
  }

  ghost predicate IsTiming(latencies: seq<int>, timing: real) {
    exists reals: seq<real>, errors: seq<real>, s: Scatter ::
      && AreReals(latencies, reals) && AreErrors(latencies, errors) && IsScatter(reals, errors, s)
      && timing == s.spread + s.meanError + s.errorSpread
  }

  /** The evaluation of a pairing, over its frames. */
  ghost predicate IsEvaluation(p: Problem, m: seq<Pair>, sampleRate: real, e: Evaluation)
    requires InRange(p, m)
  {
    && |e.sequence.candidates| == |e.sequence.expectedIndices| == |m|
    && (forall k :: 0 <= k < |m| ==>
          e.sequence.candidates[k] == p.candidates[m[k].c] && e.sequence.expectedIndices[k] == m[k].e)
    && (exists latencies: seq<int> :: AreLatencies(p, m, latencies) && IsEvaluationOf(p, latencies, sampleRate, e))
    && exists peaks: seq<real> :: ArePeaks(p, m, peaks) && IsMean(peaks, e.sequence.averagePeak)
  }

  ghost predicate ArePeaks(p: Problem, m: seq<Pair>, peaks: seq<real>)
    requires InRange(p, m)
  {
    |peaks| == |m| && forall k :: 0 <= k < |m| ==> peaks[k] == p.candidates[m[k].c].peak
  }

  ghost predicate IsEvaluationOf(p: Problem, latencies: seq<int>, sampleRate: real, e: Evaluation) {
    && IsMiddle(latencies, e.medianLatency)
    && (e.coherent <==> IsCoherent(latencies))
    && IsTiming(latencies, e.timingFitScore)
    && exists penalty :: IsPenalty(sampleRate, penalty)
         && e.sequence.fitScore == e.timingFitScore + Lateness(e.medianLatency)
                                   + Gained((|p.expected| - |latencies|) as real, penalty)
  }

  // ---------------------------------------------------------------- the evaluation meets it

  lemma ErrorsAreErrors(p: Problem, m: seq<Pair>)
    requires InRange(p, m) && m != []
    ensures AreErrors(Latencies(p, m), IntervalErrors(p, m))
  {
    var l, e := Latencies(p, m), IntervalErrors(p, m);
    forall k {:trigger e[k]} | 0 <= k < |e| ensures e[k] == (l[k + 1] - l[k]) as real {
    }
  }

  lemma ErrorsAreUnique(latencies: seq<int>, a: seq<real>, b: seq<real>)
    requires AreErrors(latencies, a) && AreErrors(latencies, b)
    ensures a == b
  {
  }

  /** Coherence, when the errors are at hand. */
  lemma CoherentIff(latencies: seq<int>, reals: seq<real>, errors: seq<real>)
    requires AreReals(latencies, reals) && AreErrors(latencies, errors)
    ensures IsCoherent(latencies) <==> IsTight(reals) && IsSmall(errors) && IsTight(errors)
  {
    hide IsTight, IsSmall;
    if IsCoherent(latencies) {
      var r: seq<real>, e: seq<real> :| AreReals(latencies, r) && AreErrors(latencies, e)
        && IsTight(r) && IsSmall(e) && IsTight(e);
      ErrorsAreUnique(latencies, errors, e);
      assert r == reals;
    }
  }

  lemma MeanOfMagnitudes(errors: seq<real>)
    ensures Mean(Magnitudes(errors)) >= 0.0
    ensures Gained(Mean(Magnitudes(errors)), |errors| as real) == MagnitudeTotal(errors)
  {
    MeanIsMean(Magnitudes(errors));
    MagnitudesAreTotal(errors);
    SumIsTotal(Magnitudes(errors));
    if errors != [] {
      QuotientIsNotNegative(Sum(Magnitudes(errors)), |errors| as real);
    }
  }

  lemma EvaluationHasTiming(p: Problem, m: seq<Pair>, sampleRate: real, sqrt: real -> real)
    requires InRange(p, m) && EvaluationOf(p, m, sampleRate, sqrt).Some? && IsSquareRoot(sqrt)
    ensures
      var e, latencies := EvaluationOf(p, m, sampleRate, sqrt).value, Latencies(p, m);
      IsTiming(latencies, e.timingFitScore) && (e.coherent <==> IsCoherent(latencies))
  {
    hide Median, StandardDeviation, Mean, IsSpread, IsTight, IsSmall, Gained, MissingMarkerPenaltyFrames;
    var latencies, errors := Latencies(p, m), IntervalErrors(p, m);
    var reals := Reals(latencies);
    ErrorsAreErrors(p, m);
    DeviationIsSpread(sqrt, reals);
    DeviationIsSpread(sqrt, errors);
    MeanOfMagnitudes(errors);
    SpreadIsTight(reals, StandardDeviation(sqrt, reals));
    SpreadIsTight(errors, StandardDeviation(sqrt, errors));
    MeanIsSmall(errors);
    CoherentIff(latencies, reals, errors);
    var s := Scatter(StandardDeviation(sqrt, reals), Mean(Magnitudes(errors)), StandardDeviation(sqrt, errors));
    assert AreReals(latencies, reals) && IsScatter(reals, errors, s);
  }

  lemma EvaluationHasFit(p: Problem, m: seq<Pair>, sampleRate: real, sqrt: real -> real)
    requires InRange(p, m) && EvaluationOf(p, m, sampleRate, sqrt).Some?
    ensures
      var e := EvaluationOf(p, m, sampleRate, sqrt).value;
      && IsPenalty(sampleRate, MissingMarkerPenaltyFrames(sampleRate))
      && e.sequence.fitScore == e.timingFitScore + Lateness(e.medianLatency)
                                + Gained((|p.expected| - |m|) as real, MissingMarkerPenaltyFrames(sampleRate))
  {
    hide Median, StandardDeviation, Mean;
  }

  lemma EvaluationHasPeaks(p: Problem, m: seq<Pair>, sampleRate: real, sqrt: real -> real)
    requires InRange(p, m) && EvaluationOf(p, m, sampleRate, sqrt).Some?
    ensures
      var e := EvaluationOf(p, m, sampleRate, sqrt).value;
      && ArePeaks(p, m, Peaks(MatchedCandidates(p, m)))
      && IsMean(Peaks(MatchedCandidates(p, m)), e.sequence.averagePeak)
  {
    hide Median, StandardDeviation, Mean, MissingMarkerPenaltyFrames;
    MeanIsMean(Peaks(MatchedCandidates(p, m)));
  }

  /** There is an evaluation for two matches or more whose distances are representable, and it is as stated. */
  lemma EvaluationIsExact(p: Problem, m: seq<Pair>, sampleRate: real, sqrt: real -> real)
    requires InRange(p, m) && IsSquareRoot(sqrt)
    ensures EvaluationOf(p, m, sampleRate, sqrt).Some? <==> |m| >= 2 && HasDistances(p, m)
    ensures EvaluationOf(p, m, sampleRate, sqrt).Some? ==>
      IsEvaluation(p, m, sampleRate, EvaluationOf(p, m, sampleRate, sqrt).value)
  {
    hide EvaluationOf, IsEvaluation, HasDistances;
    EvaluatesIff(p, m, sampleRate, sqrt);
    if EvaluationOf(p, m, sampleRate, sqrt).Some? {
      EvaluationMeets(p, m, sampleRate, sqrt);
    }
  }

  lemma EvaluatesIff(p: Problem, m: seq<Pair>, sampleRate: real, sqrt: real -> real)
    requires InRange(p, m)
    ensures EvaluationOf(p, m, sampleRate, sqrt).Some? <==> |m| >= 2 && HasDistances(p, m)
  {
    hide Median, StandardDeviation, Mean, MissingMarkerPenaltyFrames, Latencies, IntervalErrors;
  }

  lemma EvaluationHasMatches(p: Problem, m: seq<Pair>, sampleRate: real, sqrt: real -> real)
    requires InRange(p, m) && EvaluationOf(p, m, sampleRate, sqrt).Some?
    ensures
      var e := EvaluationOf(p, m, sampleRate, sqrt).value;
      && |e.sequence.candidates| == |e.sequence.expectedIndices| == |m| >= 2
      && e.medianLatency == Median(Latencies(p, m))
      && forall k :: 0 <= k < |m| ==>
           e.sequence.candidates[k] == p.candidates[m[k].c] && e.sequence.expectedIndices[k] == m[k].e
  {
    hide Median, StandardDeviation, Mean, MissingMarkerPenaltyFrames, IntervalErrors;
  }

  lemma EvaluationMeets(p: Problem, m: seq<Pair>, sampleRate: real, sqrt: real -> real)
    requires InRange(p, m) && IsSquareRoot(sqrt) && EvaluationOf(p, m, sampleRate, sqrt).Some?
    ensures IsEvaluation(p, m, sampleRate, EvaluationOf(p, m, sampleRate, sqrt).value)
  {
    hide EvaluationOf, Median, MissingMarkerPenaltyFrames, IsTiming, IsCoherent, IsMiddle, Lateness, IsMean, IsPenalty;
    EvaluationHasMatches(p, m, sampleRate, sqrt);
    EvaluationHasTiming(p, m, sampleRate, sqrt);
    EvaluationHasFit(p, m, sampleRate, sqrt);
    EvaluationHasPeaks(p, m, sampleRate, sqrt);
    MedianIsMiddle(Latencies(p, m));
    assert AreLatencies(p, m, Latencies(p, m));
  }

  // ---------------------------------------------------------------- strong evidence

  /** The middle is not negative exactly if at most half of the values are negative. */
  lemma MiddleIsNotNegative(values: seq<int>, middle: int)
    requires IsMiddle(values, middle)
    ensures middle >= 0 <==> 2 * CountBelow(values, 0) <= |values|
  {
    if middle >= 0 {
      CountIsMonotone(values, 0, middle);
    } else {
      CountIsMonotone(values, middle + 1, 0);
    }
  }

  /**
   Strong evidence: at least three quarters of the markers matched, with coherent latencies of which at most
   half are negative.
   */
  ghost predicate IsStrongPairing(p: Problem, m: seq<Pair>)
    requires InRange(p, m)
  {
    && |m| >= 2 && HasDistances(p, m)
    && 4 * |m| >= 3 * |p.expected|
    && exists latencies :: AreLatencies(p, m, latencies)
         && IsCoherent(latencies) && 2 * CountBelow(latencies, 0) <= |m|
  }

  lemma RatioIsThreeQuarters(matched: nat, markers: nat)
    requires 0 < markers <= 5
    ensures matched as real / markers as real + 0.000001 >= 0.75 <==> 4 * matched >= 3 * markers
  {
    var x, n := matched as real, markers as real;
    QuotientTimes(x, n);
    ProductSign(x / n + 0.000001 - 0.75, n);
    assert (x / n + 0.000001 - 0.75) * n == x - 0.749999 * n;
  }

  lemma StrongIsStrongPairing(p: Problem, m: seq<Pair>, sampleRate: real, sqrt: real -> real)
    requires InRange(p, m) && IsSquareRoot(sqrt) && 0 < |p.expected| <= 5
    ensures
      var e := EvaluationOf(p, m, sampleRate, sqrt);
      e.Some? && HasStrongDirectEvidence(e.value, |p.expected|) <==> IsStrongPairing(p, m)
  {
    hide EvaluationOf, IsCoherent, IsMiddle, IsTiming, CountBelow, HasDistances, IsPenalty, IsMean, Lateness;
    var e := EvaluationOf(p, m, sampleRate, sqrt);
    EvaluationIsExact(p, m, sampleRate, sqrt);
    if e.Some? {
      var latencies :| AreLatencies(p, m, latencies) && IsEvaluationOf(p, latencies, sampleRate, e.value);
      MiddleIsNotNegative(latencies, e.value.medianLatency);
      RatioIsThreeQuarters(|m|, |p.expected|);
      forall other | AreLatencies(p, m, other) ensures other == latencies {
      }
    }
  }

  // ---------------------------------------------------------------- strong trains are tight

  /** Two values are part of the sum of squares. */
  lemma {:induction false} TwoSquares(values: seq<real>, centre: real, i: nat, j: nat)
    requires i < j < |values|
    ensures Square(values[i] - centre) + Square(values[j] - centre) <= SquaresAround(values, centre)
  {
    hide Square;
    if i == 0 {
      OneSquare(values[1..], centre, j - 1);
    } else {
      TwoSquares(values[1..], centre, i - 1, j - 1);
    }
  }

  lemma {:induction false} OneSquare(values: seq<real>, centre: real, i: nat)
    requires i < |values|
    ensures Square(values[i] - centre) <= SquaresAround(values, centre)
  {
    hide Square;
    if i > 0 {
      OneSquare(values[1..], centre, i - 1);
    }
  }

  lemma DistanceIsBounded(x: real, y: real, centre: real)
    ensures Square(x - y) <= 2.0 * (Square(x - centre) + Square(y - centre))
  {
    var a, b := x - centre, y - centre;
    assert x - y == a - b;
    assert Square(a + b) >= 0.0;
    assert (a - b) * (a - b) + (a + b) * (a + b) == 2.0 * (a * a + b * b);
  }

  lemma ThousandIsBelowNextSquare(d: int)
    requires d as real * d as real <= 1000.0
    ensures -31 <= d <= 31
  {
    var size := if d < 0 then -d as real else d as real;
    assert size * size <= 1000.0;
    ProductSign(size - 32.0, size + 32.0);
    assert (size - 32.0) * (size + 32.0) == size * size - 1024.0;
  }

  /** At most five latencies that are tight lie within 31 frames of one another. */
  lemma TightIsNarrow(latencies: seq<int>, reals: seq<real>, i: nat, j: nat)
    requires AreReals(latencies, reals) && IsTight(reals) && |latencies| <= 5 && i < j < |latencies|
    ensures -31 <= latencies[i] - latencies[j] <= 31
  {
    hide Square, SquaresAround, IsMean;
    var mean :| IsMean(reals, mean) && SquaresAround(reals, mean) <= 100.0 * |reals| as real;
    TwoSquares(reals, mean, i, j);
    DistanceIsBounded(reals[i], reals[j], mean);
    var d := latencies[i] - latencies[j];
    assert Square(d as real) <= 1000.0;
    SquareIsProduct(d as real);
    ThousandIsBelowNextSquare(d);
  }

  lemma SquareIsProduct(x: real)
    ensures Square(x) == x * x
  {
  }

  /** Any two latencies differ by at most 31 frames. */
  ghost predicate IsNarrow(latencies: seq<int>) {
    forall i, j :: 0 <= i < j < |latencies| ==> -31 <= latencies[i] - latencies[j] <= 31
  }

  lemma CoherentIsNarrow(latencies: seq<int>)
    requires IsCoherent(latencies) && |latencies| <= 5
    ensures IsNarrow(latencies)
  {
    hide IsTight, IsSmall;
    var reals: seq<real>, errors: seq<real> :| AreReals(latencies, reals) && AreErrors(latencies, errors)
      && IsTight(reals) && IsSmall(errors) && IsTight(errors);
    forall i, j | 0 <= i < j < |latencies| ensures -31 <= latencies[i] - latencies[j] <= 31 {
      TightIsNarrow(latencies, reals, i, j);
    }
  }

  // ---------------------------------------------------------------- the best pairing, over its frames

  /** Candidate and marker are paired: a distance of 64 bits, within the tolerance of the hypothesis. */
  ghost predicate IsNear(p: Problem, pair: Pair)
    requires pair.e < |p.expected| && pair.c < |p.candidates|
  {
    var distance := p.candidates[pair.c].frame - p.expected[pair.e];
    && -0x8000_0000_0000_0000 <= distance <= 0x7fff_ffff_ffff_ffff
    && p.latency - p.tolerance <= distance <= p.latency + p.tolerance
  }

  /** Pairs in the order of both lists, each of them near the hypothesis. */
  ghost predicate IsPairing(p: Problem, m: seq<Pair>) {
    && InRange(p, m)
    && (forall k | 0 <= k < |m| :: IsNear(p, m[k]))
    && (forall j, k | 0 <= j < k < |m| :: m[j].e < m[k].e && m[j].c < m[k].c)
  }

  lemma MatchingIsPairing(p: Problem, m: seq<Pair>)
    ensures IsMatching(p, m) <==> IsPairing(p, m)
  {
    if InRange(p, m) {
      forall k | 0 <= k < |m| ensures Admissible(p, m[k].e, m[k].c) <==> IsNear(p, m[k]) {
      }
    }
  }

  /** By how much the latencies miss the hypothesis, squared. */
  ghost function Misfit(latencies: seq<int>, hypothesis: int): int {
    if latencies == [] then 0
    else
      var n := |latencies| - 1;
      Misfit(latencies[..n], hypothesis) + (latencies[n] - hypothesis) * (latencies[n] - hypothesis)
  }

  /** A pairing with the most pairs, of those the least misfit, of those the loudest. */
  ghost predicate IsBestPairing(p: Problem, m: seq<Pair>) {
    && IsPairing(p, m)
    && forall other: seq<Pair> | IsPairing(p, other) :: IsAtLeastAsGood(p, m, other)
  }

  ghost predicate IsAtLeastAsGood(p: Problem, m: seq<Pair>, other: seq<Pair>)
    requires InRange(p, m) && InRange(p, other)
  {
    forall a, b, x, y ::
      AreLatencies(p, m, a) && AreLatencies(p, other, b) && ArePeaks(p, m, x) && ArePeaks(p, other, y) ==>
        || |m| > |other|
        || (|m| == |other| && Misfit(a, p.latency) < Misfit(b, p.latency))
        || (|m| == |other| && Misfit(a, p.latency) == Misfit(b, p.latency) && Total(x) >= Total(y))
  }

  lemma {:induction false} ScoreIsSums(p: Problem, m: seq<Pair>, latencies: seq<int>, peaks: seq<real>)
    requires InRange(p, m) && AreLatencies(p, m, latencies) && ArePeaks(p, m, peaks)
    ensures MatchingScore(p, m) == Score(|m|, Misfit(latencies, p.latency), Total(peaks), true)
  {
    SumIsTotal(peaks);
    if m != [] {
      var n := |m| - 1;
      ScoreIsSums(p, m[..n], latencies[..n], peaks[..n]);
      SumIsTotal(peaks[..n]);
    }
  }

  lemma OptimalIsBest(p: Problem, m: seq<Pair>)
    requires IsOptimalMatching(p, m)
    ensures IsBestPairing(p, m)
  {
    hide MatchingScore, AreLatencies, ArePeaks;
    MatchingIsPairing(p, m);
    forall other: seq<Pair> | IsPairing(p, other) ensures IsAtLeastAsGood(p, m, other) {
      MatchingIsPairing(p, other);
      forall a, b, x, y | AreLatencies(p, m, a) && AreLatencies(p, other, b) && ArePeaks(p, m, x)
                          && ArePeaks(p, other, y)
        ensures MatchingScore(p, m) == Score(|m|, Misfit(a, p.latency), Total(x), true)
        ensures MatchingScore(p, other) == Score(|other|, Misfit(b, p.latency), Total(y), true)
      {
        ScoreIsSums(p, m, a, x);
        ScoreIsSums(p, other, b, y);
      }
    }
  }

  // ---------------------------------------------------------------- the matcher

  /** The matcher: fills the table, reads the pairing off it and evaluates it. */
  method MakeMarkerSequence(p: Problem, sampleRate: real, sqrt: real -> real)
      returns (r: Option<Evaluation>, ghost m: seq<Pair>)
    ensures IsOptimalMatching(p, m) && r == EvaluationOf(p, m, sampleRate, sqrt)
    ensures IsBestPairing(p, m)
    ensures IsSquareRoot(sqrt) ==>
      && (r.Some? <==> |m| >= 2 && HasDistances(p, m))
      && (r.Some? ==> IsEvaluation(p, m, sampleRate, r.value))
  {
    hide EvaluationOf, IsEvaluation, HasDistances, IsOptimalMatching;
    var cells := FillTable(p);
    var pairs := Backtrace(p, cells);
    m := pairs;
    OptimalIsBest(p, m);
    if IsSquareRoot(sqrt) {
      EvaluationIsExact(p, m, sampleRate, sqrt);
    }
    MatchingScoreCounts(p, m);
    if cells[|p.expected|, |p.candidates|].score.matchCount < MINIMUM_IMPULSES_FOR_ANALYSIS {
      TooFewMatches(p, m, sampleRate, sqrt);
      return None, m;
    }
    r := EvaluationOf(p, pairs, sampleRate, sqrt);
  }

  lemma TooFewMatches(p: Problem, m: seq<Pair>, sampleRate: real, sqrt: real -> real)
    requires InRange(p, m) && |m| < 2
    ensures EvaluationOf(p, m, sampleRate, sqrt) == None
  {
  }
}
