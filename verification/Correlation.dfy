/**
 The normalised correlation of a recording with a reference, over the reals.  Products are named
 (Times), so that the solver meets them only in the lemmas about their algebra.
 */
module Correlation {
  import opened Arithmetic
  import opened MarkerEvaluation
  import opened MarkerSelection
  import opened Wrappers

  const ENERGY_FLOOR := 0.0000001

  // ---------------------------------------------------------------- algebra

  function Times(x: real, y: real): real {
    x * y
  }

  function Ratio(x: real, n: real): real {
    if n == 0.0 then 0.0 else x / n
  }

  lemma ProductIsPositive(x: real, y: real)
    requires x > 0.0 && y > 0.0
    ensures Times(x, y) > 0.0
  {
  }

  lemma PositiveFactor(x: real, y: real)
    requires x > 0.0 && x * y >= 0.0
    ensures y >= 0.0
  {
  }

  lemma SmallerSquare(x: real, y: real)
    requires 0.0 <= x < y
    ensures Times(x, x) < Times(y, y)
  {
    assert (y - x) * (y + x) > 0.0 by {
      ProductIsPositive(y - x, y + x);
    }
  }

  /** Squares compare like the numbers. */
  lemma SquaresCompare(x: real, y: real)
    requires x >= 0.0 && y >= 0.0
    ensures Times(x, x) <= Times(y, y) <==> x <= y
    ensures Times(x, x) == Times(y, y) <==> x == y
  {
    hide Times;
    if x < y {
      SmallerSquare(x, y);
    } else if y < x {
      SmallerSquare(y, x);
    }
  }

  lemma AbsSquare(x: real)
    ensures AbsReal(x) >= 0.0 && Times(AbsReal(x), AbsReal(x)) == Times(x, x)
  {
  }

  lemma RatioBounds(x: real, n: real)
    requires 0.0 <= x && 0.0 < n
    ensures 0.0 <= Ratio(x, n)
    ensures Ratio(x, n) <= 1.0 <==> x <= n
    ensures Ratio(x, n) == 1.0 <==> x == n
  {
    var q := x / n;
    assert q * n == x;
    if q > 1.0 {
      assert (q - 1.0) * n > 0.0;
    } else if q < 1.0 {
      assert (1.0 - q) * n > 0.0;
    }
  }

  lemma RootIsPositive(x: real, sqrt: real -> real)
    requires IsSquareRoot(sqrt) && x > 0.0
    ensures sqrt(x) > 0.0 && Times(sqrt(x), sqrt(x)) == x
  {
    assert sqrt(x) * sqrt(x) == x;
  }

  // ---------------------------------------------------------------- the Cauchy-Schwarz inequality

  function Dot(a: seq<real>, b: seq<real>): real
    requires |a| == |b|
  {
    if a == [] then 0.0
    else Dot(a[..|a| - 1], b[..|b| - 1]) + Times(a[|a| - 1], b[|b| - 1])
  }

  function Energy(a: seq<real>): real {
    Dot(a, a)
  }

  /** The energy of u times a less v times b, from the energies of a and b and their product. */
  function Form(u: real, v: real, aa: real, p: real, bb: real): real {
    u * u * aa - 2.0 * (u * v * p) + v * v * bb
  }

  function Residue(u: real, v: real, x: real, y: real): real {
    (u * x - v * y) * (u * x - v * y)
  }

  /** One term more in the sums is one square more in the form. */
  lemma FormStep(u: real, v: real, aa: real, p: real, bb: real, x: real, y: real)
    ensures Form(u, v, aa + Times(x, x), p + Times(x, y), bb + Times(y, y))
         == Form(u, v, aa, p, bb) + Residue(u, v, x, y)
    ensures Residue(u, v, x, y) >= 0.0
  {
  }

  lemma FormOfNothing(u: real, v: real)
    ensures Form(u, v, 0.0, 0.0, 0.0) == 0.0
  {
  }

  lemma {:induction false} FormIsNotNegative(u: real, v: real, a: seq<real>, b: seq<real>)
    requires |a| == |b|
    ensures Form(u, v, Energy(a), Dot(a, b), Energy(b)) >= 0.0
  {
    hide Form, Times, Residue;
    if a == [] {
      FormOfNothing(u, v);
    } else {
      var n := |a| - 1;
      FormIsNotNegative(u, v, a[..n], b[..n]);
      FormStep(u, v, Energy(a[..n]), Dot(a[..n], b[..n]), Energy(b[..n]), a[n], b[n]);
    }
  }

  lemma SquareIsNotNegative(x: real)
    ensures Times(x, x) >= 0.0
  {
  }

  lemma {:induction false} EnergyIsNotNegative(a: seq<real>)
    ensures Energy(a) >= 0.0
  {
    hide Times;
    if a != [] {
      EnergyIsNotNegative(a[..|a| - 1]);
      SquareIsNotNegative(a[|a| - 1]);
    }
  }

  /** The choices of u and v that settle the inequality. */
  lemma Discriminant(aa: real, p: real, bb: real)
    requires aa >= 0.0 && bb >= 0.0
    requires Form(bb, p, aa, p, bb) >= 0.0 && Form(p, aa, aa, p, bb) >= 0.0
    requires Form(1.0, 1.0, aa, p, bb) >= 0.0 && Form(1.0, -1.0, aa, p, bb) >= 0.0
    ensures Times(p, p) <= Times(aa, bb)
  {
    if bb > 0.0 {
      assert Form(bb, p, aa, p, bb) == bb * (aa * bb - p * p);
      PositiveFactor(bb, aa * bb - p * p);
    } else if aa > 0.0 {
      assert Form(p, aa, aa, p, bb) == aa * (aa * bb - p * p);
      PositiveFactor(aa, aa * bb - p * p);
    } else {
      assert p == 0.0;
    }
  }

  lemma CauchySchwarz(a: seq<real>, b: seq<real>)
    requires |a| == |b|
    ensures Times(Dot(a, b), Dot(a, b)) <= Times(Energy(a), Energy(b))
  {
    hide Form, Times, Dot, Energy;
    var aa, p, bb := Energy(a), Dot(a, b), Energy(b);
    EnergyIsNotNegative(a);
    EnergyIsNotNegative(b);
    FormIsNotNegative(bb, p, a, b);
    FormIsNotNegative(p, aa, a, b);
    FormIsNotNegative(1.0, 1.0, a, b);
    FormIsNotNegative(1.0, -1.0, a, b);
    Discriminant(aa, p, bb);
  }

  lemma ResidueIsZero(u: real, v: real, x: real, y: real)
    requires Residue(u, v, x, y) == 0.0
    ensures Times(u, x) == Times(v, y)
  {
    var d := u * x - v * y;
    if d > 0.0 {
      ProductIsPositive(d, d);
    } else if d < 0.0 {
      ProductIsPositive(-d, -d);
      assert d * d == (-d) * (-d);
    }
  }

  /** The equality case belongs to multiples only: every sample is the other times the same factor. */
  lemma {:induction false} EqualityIsMultiple(u: real, v: real, a: seq<real>, b: seq<real>, i: nat)
    requires |a| == |b| && i < |a| && Form(u, v, Energy(a), Dot(a, b), Energy(b)) == 0.0
    ensures Times(u, a[i]) == Times(v, b[i])
  {
    hide Form, Times, Residue;
    var n := |a| - 1;
    FormIsNotNegative(u, v, a[..n], b[..n]);
    FormStep(u, v, Energy(a[..n]), Dot(a[..n], b[..n]), Energy(b[..n]), a[n], b[n]);
    if i < n {
      EqualityIsMultiple(u, v, a[..n], b[..n], i);
    } else {
      ResidueIsZero(u, v, a[n], b[n]);
    }
  }

  // ---------------------------------------------------------------- the score

  /** normalized_correlation: 0 outside the recording and for windows without energy. */
  function Score(recorded: seq<real>, reference: seq<real>, start: int, referenceEnergy: real, sqrt: real -> real): real
  {
    if start < 0 || start + |reference| > |recorded| then 0.0
    else
      var window := recorded[start..start + |reference|];
      if Energy(window) <= ENERGY_FLOOR then 0.0
      else Ratio(AbsReal(Dot(window, reference)), sqrt(Times(referenceEnergy, Energy(window))))
  }

  /** The accumulation loop. */
  method NormalizedCorrelation(recorded: seq<real>, reference: seq<real>, start: int, referenceEnergy: real,
                               sqrt: real -> real)
    returns (score: real)
    requires IsSquareRoot(sqrt) && referenceEnergy > 0.0
    ensures score == Score(recorded, reference, start, referenceEnergy, sqrt)
  {
    hide Times, AbsReal;
    if start < 0 || start + |reference| > |recorded| {
      return 0.0;
    }
    var dot, energy := 0.0, 0.0;
    ghost var window := recorded[start..start + |reference|];
    for i := 0 to |reference|
      invariant dot == Dot(window[..i], reference[..i]) && energy == Energy(window[..i])
    {
      var x, y := recorded[start + i], reference[i];
      assert window[..i + 1][..i] == window[..i] && reference[..i + 1][..i] == reference[..i];
      dot := dot + Times(x, y);
      energy := energy + Times(x, x);
    }
    assert window[..|reference|] == window && reference[..|reference|] == reference;
    if energy <= ENERGY_FLOOR {
      return 0.0;
    }
    ProductIsPositive(referenceEnergy, energy);
    RootIsPositive(Times(referenceEnergy, energy), sqrt);
    score := AbsReal(dot) / sqrt(Times(referenceEnergy, energy));
  }

  /** The window lies in the recording and is above the energy floor. */
  ghost predicate IsMeasured(recorded: seq<real>, reference: seq<real>, start: int) {
    0 <= start && start + |reference| <= |recorded| && Energy(recorded[start..start + |reference|]) > 0.0000001
  }

  function Window(recorded: seq<real>, reference: seq<real>, start: int): (r: seq<real>)
    requires 0 <= start && start + |reference| <= |recorded|
    ensures |r| == |reference|
  {
    recorded[start..start + |reference|]
  }

  function Norm(recorded: seq<real>, reference: seq<real>, start: int, sqrt: real -> real): real
    requires 0 <= start && start + |reference| <= |recorded|
  {
    sqrt(Times(Energy(reference), Energy(Window(recorded, reference, start))))
  }

  /** For a measured window the score compares the product with the norm it is divided by. */
  lemma MeasuredScore(recorded: seq<real>, reference: seq<real>, start: int, sqrt: real -> real)
    requires IsSquareRoot(sqrt) && Energy(reference) > 0.0 && IsMeasured(recorded, reference, start)
    ensures
      var norm, window := Norm(recorded, reference, start, sqrt), Window(recorded, reference, start);
      && norm > 0.0 && Times(norm, norm) == Times(Energy(reference), Energy(window))
      && Score(recorded, reference, start, Energy(reference), sqrt) == Ratio(AbsReal(Dot(window, reference)), norm)
  {
    hide Energy, Dot, AbsReal, Ratio, Times, IsSquareRoot;
    var window := Window(recorded, reference, start);
    ProductIsPositive(Energy(reference), Energy(window));
    RootIsPositive(Times(Energy(reference), Energy(window)), sqrt);
  }

  lemma UnmeasuredScore(recorded: seq<real>, reference: seq<real>, start: int, sqrt: real -> real)
    requires !IsMeasured(recorded, reference, start)
    ensures Score(recorded, reference, start, Energy(reference), sqrt) == 0.0
  {
    hide Energy, Dot;
  }

  lemma RatioSquare(x: real, n: real)
    requires x >= 0.0 && n > 0.0
    ensures Ratio(x, n) >= 0.0 && Times(Times(Ratio(x, n), Ratio(x, n)), Times(n, n)) == Times(x, x)
  {
    var r := x / n;
    assert r * n == x;
    RatioBounds(x, n);
    assert (r * r) * (n * n) == (r * n) * (r * n);
  }

  /** The square of a score times both energies is the square of the product; what is not measured scores 0. */
  lemma ScoreIsExact(recorded: seq<real>, reference: seq<real>, start: int, sqrt: real -> real)
    requires IsSquareRoot(sqrt) && Energy(reference) > 0.0
    ensures
      var score := Score(recorded, reference, start, Energy(reference), sqrt);
      if IsMeasured(recorded, reference, start) then
        var window := Window(recorded, reference, start);
        && score >= 0.0
        && Times(Times(score, score), Times(Energy(reference), Energy(window)))
             == Times(Dot(window, reference), Dot(window, reference))
      else score == 0.0
  {
    hide Energy, Dot, AbsReal, Score, Ratio, Times, Norm, Window, IsSquareRoot;
    if IsMeasured(recorded, reference, start) {
      var norm, window := Norm(recorded, reference, start, sqrt), Window(recorded, reference, start);
      MeasuredScore(recorded, reference, start, sqrt);
      AbsSquare(Dot(window, reference));
      RatioSquare(AbsReal(Dot(window, reference)), norm);
    } else {
      UnmeasuredScore(recorded, reference, start, sqrt);
    }
  }

  /** The score lies in [0, 1] for every signal. */
  lemma ScoreIsBounded(recorded: seq<real>, reference: seq<real>, start: int, sqrt: real -> real)
    requires IsSquareRoot(sqrt) && Energy(reference) > 0.0
    ensures 0.0 <= Score(recorded, reference, start, Energy(reference), sqrt) <= 1.0
  {
    hide Energy, Dot, AbsReal, Score, Ratio, Times, Norm, Window, IsSquareRoot;
    if IsMeasured(recorded, reference, start) {
      var norm, window := Norm(recorded, reference, start, sqrt), Window(recorded, reference, start);
      MeasuredScore(recorded, reference, start, sqrt);
      CauchySchwarz(reference, window);
      DotIsSymmetric(reference, window);
      AbsSquare(Dot(window, reference));
      SquaresCompare(AbsReal(Dot(window, reference)), norm);
      RatioBounds(AbsReal(Dot(window, reference)), norm);
    } else {
      UnmeasuredScore(recorded, reference, start, sqrt);
    }
  }

  lemma TimesCommutes(x: real, y: real)
    ensures Times(x, y) == Times(y, x)
  {
  }

  lemma {:induction false} DotIsSymmetric(a: seq<real>, b: seq<real>)
    requires |a| == |b|
    ensures Dot(a, b) == Dot(b, a)
  {
    hide Times;
    if a != [] {
      DotIsSymmetric(a[..|a| - 1], b[..|b| - 1]);
      TimesCommutes(a[|a| - 1], b[|b| - 1]);
    }
  }

  /** It is 1 exactly in the equality case of the inequality. */
  lemma ScoreIsOneIff(recorded: seq<real>, reference: seq<real>, start: int, sqrt: real -> real)
    requires IsSquareRoot(sqrt) && Energy(reference) > 0.0 && IsMeasured(recorded, reference, start)
    ensures
      var window := Window(recorded, reference, start);
      (Score(recorded, reference, start, Energy(reference), sqrt) == 1.0) <==>
        (Times(Dot(window, reference), Dot(window, reference)) == Times(Energy(reference), Energy(window)))
  {
    hide Energy, Dot, AbsReal, Score, Ratio, Times, Norm, Window, IsSquareRoot;
    var norm, window := Norm(recorded, reference, start, sqrt), Window(recorded, reference, start);
    MeasuredScore(recorded, reference, start, sqrt);
    AbsSquare(Dot(window, reference));
    SquaresCompare(AbsReal(Dot(window, reference)), norm);
    RatioBounds(AbsReal(Dot(window, reference)), norm);
  }

  // ---------------------------------------------------------------- gain and polarity

  /** b is g times a, sample by sample. */
  ghost predicate IsMultiple(b: seq<real>, a: seq<real>, g: real) {
    |b| == |a| && forall i :: 0 <= i < |a| ==> b[i] == Times(a[i], g)
  }

  lemma GainStep(g: real, p: real, e: real, x: real, y: real)
    ensures Times(p, g) + Times(Times(x, g), y) == Times(p + Times(x, y), g)
    ensures Times(Times(e, g), g) + Times(Times(x, g), Times(x, g)) == Times(Times(e + Times(x, x), g), g)
  {
  }

  lemma GainOfZero(g: real)
    ensures Times(0.0, g) == 0.0
  {
  }

  /** A gain multiplies the products once and the energy twice. */
  lemma {:induction false} GainScales(b: seq<real>, a: seq<real>, g: real, reference: seq<real>)
    requires IsMultiple(b, a, g) && |a| == |reference|
    ensures Dot(b, reference) == Times(Dot(a, reference), g)
    ensures Energy(b) == Times(Times(Energy(a), g), g)
  {
    hide Times;
    if a == [] {
      GainOfZero(g);
    } else {
      var n := |a| - 1;
      GainScales(b[..n], a[..n], g, reference[..n]);
      GainStep(g, Dot(a[..n], reference[..n]), Energy(a[..n]), a[n], reference[n]);
    }
  }

  lemma MultipleSquares(e: real, g: real)
    ensures Times(Times(e, g), Times(e, g)) == Times(e, Times(Times(e, g), g))
  {
  }

  /** A window that is any multiple of the reference, at any gain and polarity, scores 1. */
  lemma MultipleScoresOne(recorded: seq<real>, reference: seq<real>, start: int, g: real, sqrt: real -> real)
    requires IsSquareRoot(sqrt) && Energy(reference) > 0.0 && IsMeasured(recorded, reference, start)
    requires IsMultiple(Window(recorded, reference, start), reference, g)
    ensures Score(recorded, reference, start, Energy(reference), sqrt) == 1.0
  {
    hide Dot, Score, Times, Window, IsSquareRoot;
    GainScales(Window(recorded, reference, start), reference, g, reference);
    MultipleSquares(Energy(reference), g);
    ScoreIsOneIff(recorded, reference, start, sqrt);
  }

  lemma FormVanishes(aa: real, p: real, bb: real)
    requires Times(p, p) == Times(bb, aa)
    ensures Form(bb, p, aa, p, bb) == 0.0
  {
    assert Form(bb, p, aa, p, bb) == bb * (bb * aa - p * p);
  }

  /** Only a multiple of the reference scores 1. */
  lemma OneIsMultiple(recorded: seq<real>, reference: seq<real>, start: int, sqrt: real -> real, i: nat)
    requires IsSquareRoot(sqrt) && Energy(reference) > 0.0 && IsMeasured(recorded, reference, start)
    requires Score(recorded, reference, start, Energy(reference), sqrt) == 1.0 && i < |reference|
    ensures
      var window := Window(recorded, reference, start);
      Times(Energy(reference), window[i]) == Times(Dot(window, reference), reference[i])
  {
    hide Energy, Dot, Score, Times, Window, IsSquareRoot, Form;
    var window := Window(recorded, reference, start);
    ScoreIsOneIff(recorded, reference, start, sqrt);
    FormVanishes(Energy(window), Dot(window, reference), Energy(reference));
    EqualityIsMultiple(Energy(reference), Dot(window, reference), window, reference, i);
  }

  lemma AbsOfProduct(p: real, g: real)
    ensures AbsReal(Times(p, g)) == Times(AbsReal(g), AbsReal(p))
  {
  }

  lemma CommonFactor(x: real, n: real, h: real)
    requires n > 0.0 && h > 0.0
    ensures Ratio(Times(h, x), Times(h, n)) == Ratio(x, n)
  {
    ProductIsPositive(h, n);
    assert (x / n) * (h * n) == h * x;
  }

  lemma LouderNorm(g: real, h: real, e: real, w: real, norm: real)
    requires Times(h, h) == Times(g, g) && Times(norm, norm) == Times(e, w)
    ensures Times(Times(h, norm), Times(h, norm)) == Times(e, Times(Times(w, g), g))
  {
    var hh, nn := h * h, norm * norm;
    assert (h * norm) * (h * norm) == hh * nn;
    assert e * (w * g * g) == (g * g) * (e * w);
  }

  lemma RatioIgnoresGain(p: real, e: real, w: real, norm: real, louder: real, g: real)
    requires g != 0.0 && norm > 0.0 && louder > 0.0
    requires Times(norm, norm) == Times(e, w) && Times(louder, louder) == Times(e, Times(Times(w, g), g))
    ensures Ratio(AbsReal(Times(p, g)), louder) == Ratio(AbsReal(p), norm)
  {
    var h := AbsReal(g);
    assert h > 0.0;
    hide Times, Ratio, AbsReal;
    AbsSquare(g);
    LouderNorm(g, h, e, w, norm);
    ProductIsPositive(h, norm);
    SquaresCompare(Times(h, norm), louder);
    AbsOfProduct(p, g);
    CommonFactor(AbsReal(p), norm, h);
  }

  /** Changing the gain or the polarity of a recording does not change the score of a measured window. */
  lemma ScoreIgnoresGain(recorded: seq<real>, louder: seq<real>, reference: seq<real>, start: int, g: real,
                         sqrt: real -> real)
    requires IsSquareRoot(sqrt) && Energy(reference) > 0.0 && g != 0.0 && IsMultiple(louder, recorded, g)
    requires IsMeasured(recorded, reference, start) && IsMeasured(louder, reference, start)
    ensures Score(louder, reference, start, Energy(reference), sqrt)
         == Score(recorded, reference, start, Energy(reference), sqrt)
  {
    hide Energy, Dot, Score, AbsReal, Ratio, Times, IsSquareRoot;
    var window, scaled := Window(recorded, reference, start), Window(louder, reference, start);
    forall i | 0 <= i < |window| ensures scaled[i] == Times(window[i], g) {
      assert louder[start + i] == Times(recorded[start + i], g);
    }
    GainScales(scaled, window, g, reference);
    MeasuredScore(recorded, reference, start, sqrt);
    MeasuredScore(louder, reference, start, sqrt);
    RatioIgnoresGain(Dot(window, reference), Energy(reference), Energy(window),
                     Norm(recorded, reference, start, sqrt), Norm(louder, reference, start, sqrt), g);
  }

  // ---------------------------------------------------------------- the best match

  datatype Found = Found(frame: int, score: real)

  /** The start frames that the loop visits. */
  function Visited(lower: int, upper: int, step: pos): seq<int>
    decreases upper - lower
  {
    if lower >= upper then [] else [lower] + Visited(lower + step, upper, step)
  }

  /** Frame k has the highest score of all, and a higher one than every frame before it. */
  ghost predicate IsBestAt(recorded: seq<real>, reference: seq<real>, frames: seq<int>, sqrt: real -> real, k: nat,
                           best: Found)
  {
    && k < |frames| && best.frame == frames[k]
    && best.score == Score(recorded, reference, frames[k], Energy(reference), sqrt)
    && forall j {:trigger frames[j]} :: 0 <= j < |frames| ==>
         && Score(recorded, reference, frames[j], Energy(reference), sqrt) <= best.score
         && (j < k ==> Score(recorded, reference, frames[j], Energy(reference), sqrt) < best.score)
  }

  /** The first of the visited frames with the highest score; None if no frame is visited. */
  ghost predicate IsFirstBest(recorded: seq<real>, reference: seq<real>, frames: seq<int>, sqrt: real -> real,
                              best: Option<Found>)
  {
    if frames == [] then best == None
    else best.Some? && exists k: nat :: IsBestAt(recorded, reference, frames, sqrt, k, best.value)
  }

  method SumOfSquares(values: seq<real>) returns (sum: real)
    ensures sum == Energy(values)
  {
    hide Times;
    sum := 0.0;
    for i := 0 to |values|
      invariant sum == Energy(values[..i])
    {
      assert values[..i + 1][..i] == values[..i];
      sum := sum + Times(values[i], values[i]);
    }
    assert values[..|values|] == values;
  }

  /** Comparing with a strict greater keeps the first of the best. */
  lemma NextBest(recorded: seq<real>, reference: seq<real>, before: seq<int>, sqrt: real -> real, was: Option<Found>,
                 frame: int, best: Option<Found>)
    requires IsFirstBest(recorded, reference, before, sqrt, was)
    requires
      var score := Score(recorded, reference, frame, Energy(reference), sqrt);
      best == if was == None || score > was.value.score then Some(Found(frame, score)) else was
    ensures IsFirstBest(recorded, reference, before + [frame], sqrt, best)
  {
    hide Score, Energy;
    var frames := before + [frame];
    if before == [] || best != was {
      assert IsBestAt(recorded, reference, frames, sqrt, |before|, best.value);
    } else {
      var k: nat :| IsBestAt(recorded, reference, before, sqrt, k, was.value);
      assert IsBestAt(recorded, reference, frames, sqrt, k, best.value);
    }
  }

  /** best_correlation_match. */
  method BestMatch(recorded: seq<real>, reference: seq<real>, lower: int, upper: int, step: int, sqrt: real -> real)
    returns (best: Option<Found>)
    requires IsSquareRoot(sqrt)
    ensures lower >= upper || Energy(reference) <= 0.0 ==> best == None
    ensures Energy(reference) > 0.0 ==>
      IsFirstBest(recorded, reference, Visited(lower, upper, Max(1, step)), sqrt, best)
  {
    hide Score, Energy, IsFirstBest, IsSquareRoot, Visited, Times, Dot;
    best := None;
    NothingVisited(recorded, reference, sqrt);
    var energy := SumOfSquares(reference);
    if lower >= upper || energy <= 0.0 {
      if lower >= upper {
        AllVisited([], lower, upper, Max(1, step));
      }
      return;
    }
    var frame := lower;
    ghost var before: seq<int> := [];
    while frame < upper
      invariant before + Visited(frame, upper, Max(1, step)) == Visited(lower, upper, Max(1, step))
      invariant IsFirstBest(recorded, reference, before, sqrt, best)
      decreases upper - frame
    {
      var score := NormalizedCorrelation(recorded, reference, frame, energy, sqrt);
      ghost var was := best;
      if best == None || score > best.value.score {
        best := Some(Found(frame, score));
      }
      NextBest(recorded, reference, before, sqrt, was, frame, best);
      NextVisited(before, frame, upper, Max(1, step));
      before := before + [frame];
      frame := frame + Max(1, step);
    }
    AllVisited(before, frame, upper, Max(1, step));
  }

  lemma NextVisited(before: seq<int>, frame: int, upper: int, step: pos)
    requires frame < upper
    ensures before + Visited(frame, upper, step) == (before + [frame]) + Visited(frame + step, upper, step)
  {
  }

  lemma AllVisited(before: seq<int>, frame: int, upper: int, step: pos)
    requires frame >= upper
    ensures before + Visited(frame, upper, step) == before
  {
  }

  lemma NothingVisited(recorded: seq<real>, reference: seq<real>, sqrt: real -> real)
    ensures IsFirstBest(recorded, reference, [], sqrt, None)
  {
  }
}
