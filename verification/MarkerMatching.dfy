/**
 The gap-aware marker matcher: a dynamic program that pairs detected transients with
 expected markers under one latency hypothesis, and the backtrace that reads the pairing
 off its table.  The main result is that the pairing is a lexicographic optimum (most
 matches, then least squared residual, then greatest peak sum) among ALL order-preserving
 pairings within the tolerance.
 */
module MarkerMatching {
  import opened Wrappers

  const FIT_SCORE_EPSILON := 0.000001
  const MINIMUM_IMPULSES_FOR_ANALYSIS: nat := 2
  const FRAME_LIMIT := 0x8000_0000_0000_0000

  datatype Candidate = Candidate(frame: int, peak: real)

  datatype Score = Score(matchCount: nat, squaredResidual: int, peakSum: real, reachable: bool)

  datatype Step = NoStep | SkipExpected | SkipCandidate | Match

  datatype Cell = Cell(score: Score, previousExpected: nat, previousCandidate: nat, step: Step)

  /** One call of the matcher: its vectors, the latency hypothesis and the tolerance. */
  datatype Problem = Problem(
    candidates: seq<Candidate>, expected: seq<int>, latency: int, tolerance: int)

  /** "Expected marker e is paired with candidate c". */
  datatype Pair = Pair(e: nat, c: nat)

  const UNREACHED := Score(0, 0, 0.0, false)
  const EMPTY_SCORE := Score(0, 0, 0.0, true)
  const EMPTY_CELL := Cell(UNREACHED, 0, 0, NoStep)

  // ---------------------------------------------------------------- scores

  function Abs(x: int): nat {
    if x < 0 then -x else x
  }

  /** The comparator of the source, its epsilon included. */
  predicate IsBetter(candidate: Score, current: Score) {
    if !candidate.reachable then false
    else if !current.reachable then true
    else if candidate.matchCount != current.matchCount then
      candidate.matchCount > current.matchCount
    else if Abs(candidate.squaredResidual - current.squaredResidual) as real > FIT_SCORE_EPSILON then
      candidate.squaredResidual < current.squaredResidual
    else
      candidate.peakSum > current.peakSum
  }

  /** Exact lexicographic order on scores; an unreachable score is below every reachable one. */
  predicate LexLess(a: Score, b: Score) {
    || (!a.reachable && b.reachable)
    || (a.reachable && b.reachable &&
        (|| a.matchCount < b.matchCount
         || (a.matchCount == b.matchCount && a.squaredResidual > b.squaredResidual)
         || (a.matchCount == b.matchCount && a.squaredResidual == b.squaredResidual
             && a.peakSum < b.peakSum)))
  }

  /** Residuals are whole frames, so the epsilon never merges two different sums. */
  lemma IsBetterIsLexicographic(a: Score, b: Score)
    ensures IsBetter(a, b) <==> LexLess(b, a)
  {
    if a.squaredResidual != b.squaredResidual {
      assert Abs(a.squaredResidual - b.squaredResidual) >= 1;
      assert Abs(a.squaredResidual - b.squaredResidual) as real >= 1.0;
    }
  }

  function Add(a: Score, b: Score): Score {
    Score(a.matchCount + b.matchCount, a.squaredResidual + b.squaredResidual,
          a.peakSum + b.peakSum, a.reachable && b.reachable)
  }

  // ---------------------------------------------------------------- frames

  predicate IsFrame(x: int) {
    -FRAME_LIMIT <= x < FRAME_LIMIT
  }

  /** The difference of two frames, or None when it does not fit in 64 bits. */
  function FrameDifference(left: int, right: int): Option<int> {
    if IsFrame(left - right) then Some(left - right) else None
  }

  // ---------------------------------------------------------------- matchings

  predicate Admissible(p: Problem, e: nat, c: nat)
    requires e < |p.expected| && c < |p.candidates|
  {
    var measured := FrameDifference(p.candidates[c].frame, p.expected[e]);
    measured.Some? && Abs(measured.value - p.latency) <= p.tolerance
  }

  /** What one match adds to a score. */
  function PairScore(p: Problem, e: nat, c: nat): Score
    requires e < |p.expected| && c < |p.candidates|
  {
    var residual := p.candidates[c].frame - p.expected[e] - p.latency;
    Score(1, residual * residual, p.candidates[c].peak, true)
  }

  ghost predicate InRange(p: Problem, m: seq<Pair>) {
    forall k | 0 <= k < |m| :: m[k].e < |p.expected| && m[k].c < |p.candidates|
  }

  /** An order-preserving pairing whose residuals are all within the tolerance. */
  ghost predicate IsMatching(p: Problem, m: seq<Pair>) {
    && InRange(p, m)
    && (forall k | 0 <= k < |m| :: Admissible(p, m[k].e, m[k].c))
    && (forall j, k | 0 <= j < k < |m| :: m[j].e < m[k].e && m[j].c < m[k].c)
  }

  ghost function MatchingScore(p: Problem, m: seq<Pair>): Score
    requires InRange(p, m)
  {
    if m == [] then EMPTY_SCORE
    else Add(MatchingScore(p, m[..|m| - 1]), PairScore(p, m[|m| - 1].e, m[|m| - 1].c))
  }

  ghost predicate IsOptimalMatching(p: Problem, m: seq<Pair>) {
    && IsMatching(p, m)
    && forall other: seq<Pair> | IsMatching(p, other) ::
         !LexLess(MatchingScore(p, m), MatchingScore(p, other))
  }

  lemma {:induction false} MatchingScoreCounts(p: Problem, m: seq<Pair>)
    requires InRange(p, m)
    ensures MatchingScore(p, m).matchCount == |m| && MatchingScore(p, m).reachable
    ensures MatchingScore(p, m).squaredResidual >= 0
  {
    if m != [] {
      MatchingScoreCounts(p, m[..|m| - 1]);
      var last := m[|m| - 1];
      var residual := p.candidates[last.c].frame - p.expected[last.e] - p.latency;
      assert residual * residual >= 0;
    }
  }

  lemma {:induction false} MatchingScorePrepend(p: Problem, first: Pair, m: seq<Pair>)
    requires first.e < |p.expected| && first.c < |p.candidates| && InRange(p, m)
    ensures InRange(p, [first] + m)
    ensures MatchingScore(p, [first] + m) == Add(PairScore(p, first.e, first.c), MatchingScore(p, m))
  {
    if m == [] {
      assert ([first] + m)[..0] == [];
    } else {
      var front := m[..|m| - 1];
      assert ([first] + m)[..|m|] == [first] + front;
      MatchingScorePrepend(p, first, front);
    }
  }

  // ---------------------------------------------------------------- the table

  /** The table as a value: row e, column c. */
  type Table = seq<seq<Cell>>

  ghost predicate Shaped(p: Problem, t: Table) {
    |t| == |p.expected| + 1 && forall e | 0 <= e < |t| :: |t[e]| == |p.candidates| + 1
  }

  predicate InTable(p: Problem, e: nat, c: nat) {
    e <= |p.expected| && c <= |p.candidates|
  }

  predicate Before(e: nat, c: nat, ei: nat, ci: nat) {
    e < ei || (e == ei && c < ci)
  }

  /** What a reachable cell other than the origin records: where its score came from. */
  ghost predicate Derived(p: Problem, t: Table, e: nat, c: nat)
    requires Shaped(p, t) && InTable(p, e, c)
  {
    var cell := t[e][c];
    match cell.step
    case NoStep => false
    case SkipExpected =>
      && e > 0 && cell.previousExpected == e - 1 && cell.previousCandidate == c
      && cell.score == t[e - 1][c].score
    case SkipCandidate =>
      && c > 0 && cell.previousExpected == e && cell.previousCandidate == c - 1
      && cell.score == t[e][c - 1].score
    case Match =>
      && e > 0 && c > 0 && cell.previousExpected == e - 1 && cell.previousCandidate == c - 1
      && Admissible(p, e - 1, c - 1)
      && cell.score == Add(t[e - 1][c - 1].score, PairScore(p, e - 1, c - 1))
  }

  /** No successor of a processed cell is worse than the score pushed into it. */
  ghost predicate Dominated(p: Problem, t: Table, e: nat, c: nat)
    requires Shaped(p, t) && InTable(p, e, c)
  {
    && t[e][c].score.reachable
    && (e < |p.expected| ==> !LexLess(t[e + 1][c].score, t[e][c].score))
    && (c < |p.candidates| ==> !LexLess(t[e][c + 1].score, t[e][c].score))
    && (e < |p.expected| && c < |p.candidates| && Admissible(p, e, c) ==>
          !LexLess(t[e + 1][c + 1].score, Add(t[e][c].score, PairScore(p, e, c))))
  }

  ghost predicate AllDominated(p: Problem, t: Table, ei: nat, ci: nat)
    requires Shaped(p, t)
  {
    forall e: nat, c: nat {:trigger Dominated(p, t, e, c)} |
      InTable(p, e, c) && Before(e, c, ei, ci) :: Dominated(p, t, e, c)
  }

  ghost predicate AllDerived(p: Problem, t: Table, ei: nat, ci: nat)
    requires Shaped(p, t)
  {
    forall e: nat, c: nat {:trigger Derived(p, t, e, c)} |
      InTable(p, e, c) && (e, c) != (0, 0) && t[e][c].score.reachable ::
      && Derived(p, t, e, c)
      && Before(t[e][c].previousExpected, t[e][c].previousCandidate, ei, ci)
  }

  /** The table when every cell before (ei, ci) in row-major order has been processed. */
  ghost predicate FilledBefore(p: Problem, t: Table, ei: nat, ci: nat) {
    && Shaped(p, t)
    && t[0][0] == EMPTY_CELL.(score := EMPTY_SCORE)
    && AllDominated(p, t, ei, ci)
    && AllDerived(p, t, ei, ci)
  }

  // ---------------------------------------------------------------- one cell's pushes

  function Updated(destination: Cell, score: Score, e: nat, c: nat, step: Step): Cell {
    if !IsBetter(score, destination.score) then destination else Cell(score, e, c, step)
  }

  /** The content of cell (e, c) after cell (ei, ci), whose score is `current`, was processed. */
  ghost function Offered(
      p: Problem, ei: nat, ci: nat, current: Score, e: nat, c: nat, cell: Cell): Cell
    requires InTable(p, ei, ci) && InTable(p, e, c)
  {
    if (e, c) == (ei + 1, ci) then Updated(cell, current, ei, ci, SkipExpected)
    else if (e, c) == (ei, ci + 1) then Updated(cell, current, ei, ci, SkipCandidate)
    else if (e, c) == (ei + 1, ci + 1) && Admissible(p, ei, ci) then
      Updated(cell, Add(current, PairScore(p, ei, ci)), ei, ci, Match)
    else cell
  }

  ghost predicate IsProcessed(p: Problem, t: Table, t': Table, ei: nat, ci: nat) {
    && Shaped(p, t) && Shaped(p, t') && InTable(p, ei, ci)
    && forall e: nat, c: nat | InTable(p, e, c) ::
         t'[e][c] == Offered(p, ei, ci, t[ei][ci].score, e, c, t[e][c])
  }

  lemma NotWorseTransitive(a: Score, b: Score, c: Score)
    requires !LexLess(b, a) && !LexLess(c, b)
    ensures !LexLess(c, a)
  {
  }

  lemma OfferedNotWorse(p: Problem, ei: nat, ci: nat, current: Score, e: nat, c: nat, cell: Cell)
    requires InTable(p, ei, ci) && InTable(p, e, c)
    ensures !LexLess(Offered(p, ei, ci, current, e, c, cell).score, cell.score)
    ensures (e, c) == (ei + 1, ci) || (e, c) == (ei, ci + 1) ==>
      !LexLess(Offered(p, ei, ci, current, e, c, cell).score, current)
    ensures (e, c) == (ei + 1, ci + 1) && Admissible(p, ei, ci) ==>
      !LexLess(Offered(p, ei, ci, current, e, c, cell).score, Add(current, PairScore(p, ei, ci)))
  {
    IsBetterIsLexicographic(current, cell.score);
    if ei < |p.expected| && ci < |p.candidates| {
      IsBetterIsLexicographic(Add(current, PairScore(p, ei, ci)), cell.score);
    }
  }

  lemma CurrentIsReachable(p: Problem, t: Table, ei: nat, ci: nat)
    requires FilledBefore(p, t, ei, ci) && InTable(p, ei, ci)
    ensures t[ei][ci].score.reachable
  {
    if ci > 0 {
      assert Dominated(p, t, ei, ci - 1);
    } else if ei > 0 {
      assert Dominated(p, t, ei - 1, ci);
    }
  }

  lemma OldCellsStayDominated(p: Problem, t: Table, t': Table, ei: nat, ci: nat, e: nat, c: nat)
    requires IsProcessed(p, t, t', ei, ci) && InTable(p, e, c) && Before(e, c, ei, ci)
    requires Dominated(p, t, e, c)
    ensures Dominated(p, t', e, c)
  {
    var current, score := t[ei][ci].score, t[e][c].score;
    if e < |p.expected| {
      OfferedNotWorse(p, ei, ci, current, e + 1, c, t[e + 1][c]);
      NotWorseTransitive(score, t[e + 1][c].score, t'[e + 1][c].score);
    }
    if c < |p.candidates| {
      OfferedNotWorse(p, ei, ci, current, e, c + 1, t[e][c + 1]);
      NotWorseTransitive(score, t[e][c + 1].score, t'[e][c + 1].score);
    }
    if e < |p.expected| && c < |p.candidates| && Admissible(p, e, c) {
      OfferedNotWorse(p, ei, ci, current, e + 1, c + 1, t[e + 1][c + 1]);
      NotWorseTransitive(Add(score, PairScore(p, e, c)), t[e + 1][c + 1].score, t'[e + 1][c + 1].score);
    }
  }

  lemma CurrentBecomesDominated(p: Problem, t: Table, t': Table, ei: nat, ci: nat)
    requires IsProcessed(p, t, t', ei, ci) && t[ei][ci].score.reachable
    ensures Dominated(p, t', ei, ci)
  {
    var current := t[ei][ci].score;
    assert t'[ei][ci] == t[ei][ci];
    if ei < |p.expected| {
      OfferedNotWorse(p, ei, ci, current, ei + 1, ci, t[ei + 1][ci]);
    }
    if ci < |p.candidates| {
      OfferedNotWorse(p, ei, ci, current, ei, ci + 1, t[ei][ci + 1]);
    }
    if ei < |p.expected| && ci < |p.candidates| {
      OfferedNotWorse(p, ei, ci, current, ei + 1, ci + 1, t[ei + 1][ci + 1]);
    }
  }

  lemma StaysDerived(p: Problem, t: Table, t': Table, ei: nat, ci: nat, e: nat, c: nat)
    requires IsProcessed(p, t, t', ei, ci) && AllDerived(p, t, ei, ci)
    requires InTable(p, e, c) && (e, c) != (0, 0) && t'[e][c].score.reachable
    ensures Derived(p, t', e, c)
    ensures Before(t'[e][c].previousExpected, t'[e][c].previousCandidate, ei, ci + 1)
  {
    assert t'[ei][ci] == t[ei][ci];
    if t'[e][c] == t[e][c] {
      assert Derived(p, t, e, c);
      var e0, c0 := t[e][c].previousExpected, t[e][c].previousCandidate;
      assert t'[e0][c0] == t[e0][c0];
    }
  }

  lemma ProcessingKeepsInvariant(p: Problem, t: Table, t': Table, ei: nat, ci: nat)
    requires FilledBefore(p, t, ei, ci) && IsProcessed(p, t, t', ei, ci)
    ensures FilledBefore(p, t', ei, ci + 1)
  {
    CurrentIsReachable(p, t, ei, ci);
    forall e: nat, c: nat | InTable(p, e, c) && Before(e, c, ei, ci + 1)
      ensures Dominated(p, t', e, c)
    {
      if (e, c) == (ei, ci) {
        CurrentBecomesDominated(p, t, t', ei, ci);
      } else {
        OldCellsStayDominated(p, t, t', ei, ci, e, c);
      }
    }
    forall e: nat, c: nat | InTable(p, e, c) && (e, c) != (0, 0) && t'[e][c].score.reachable
      ensures Derived(p, t', e, c)
      ensures Before(t'[e][c].previousExpected, t'[e][c].previousCandidate, ei, ci + 1)
    {
      StaysDerived(p, t, t', ei, ci, e, c);
    }
  }

  // ---------------------------------------------------------------- filling the table

  ghost function Rows(cells: array2<Cell>): Table
    reads cells
  {
    seq(cells.Length0, (e: nat) requires e < cells.Length0 reads cells =>
      seq(cells.Length1, (c: nat) requires c < cells.Length1 reads cells => cells[e, c]))
  }

  predicate Allocates(p: Problem, cells: array2<Cell>) {
    cells.Length0 == |p.expected| + 1 && cells.Length1 == |p.candidates| + 1
  }

  /** The body of the double loop: cell (ei, ci) offers its score to its three successors. */
  method ProcessCell(p: Problem, cells: array2<Cell>, ei: nat, ci: nat)
    requires Allocates(p, cells) && InTable(p, ei, ci) && cells[ei, ci].score.reachable
    modifies cells
    ensures IsProcessed(p, old(Rows(cells)), Rows(cells), ei, ci)
  {
    hide IsBetter;
    var current := cells[ei, ci].score;
    if ei < |p.expected| {
      cells[ei + 1, ci] := Updated(cells[ei + 1, ci], current, ei, ci, SkipExpected);
    }
    if ci < |p.candidates| {
      cells[ei, ci + 1] := Updated(cells[ei, ci + 1], current, ei, ci, SkipCandidate);
    }
    if ei < |p.expected| && ci < |p.candidates| {
      var measured := FrameDifference(p.candidates[ci].frame, p.expected[ei]);
      if measured.Some? {
        var residual := measured.value - p.latency;
        if Abs(residual) <= p.tolerance {
          var matched := Score(
            current.matchCount + 1,
            current.squaredResidual + residual * residual,
            current.peakSum + p.candidates[ci].peak,
            current.reachable);
          cells[ei + 1, ci + 1] := Updated(cells[ei + 1, ci + 1], matched, ei, ci, Match);
        }
      }
    }
  }

  method FillTable(p: Problem) returns (cells: array2<Cell>)
    ensures fresh(cells) && Allocates(p, cells)
    ensures FilledBefore(p, Rows(cells), |p.expected| + 1, 0)
  {
    cells := new Cell[|p.expected| + 1, |p.candidates| + 1]((e, c) => EMPTY_CELL);
    cells[0, 0] := EMPTY_CELL.(score := EMPTY_SCORE);
    for ei := 0 to |p.expected| + 1
      invariant FilledBefore(p, Rows(cells), ei, 0)
    {
      for ci := 0 to |p.candidates| + 1
        invariant FilledBefore(p, Rows(cells), ei, ci)
      {
        ghost var t: Table := Rows(cells);
        // The source skips unreachable cells; there are none.
        CurrentIsReachable(p, t, ei, ci);
        assert cells[ei, ci] == t[ei][ci];
        ProcessCell(p, cells, ei, ci);
        ProcessingKeepsInvariant(p, t, Rows(cells), ei, ci);
      }
    }
  }

  // ---------------------------------------------------------------- optimality

  ghost predicate Within(m: seq<Pair>, e: nat, c: nat) {
    forall k | 0 <= k < |m| :: m[k].e < e && m[k].c < c
  }

  lemma AddKeepsOrder(a: Score, b: Score, d: Score)
    requires a.reachable && b.reachable && d.reachable && !LexLess(b, a)
    ensures !LexLess(Add(b, d), Add(a, d))
  {
  }

  lemma EmptyIsNotWorse(p: Problem, t: Table)
    requires FilledBefore(p, t, |p.expected| + 1, 0)
    ensures !LexLess(t[0][0].score, MatchingScore(p, []))
  {
  }

  /** Every matching of a prefix scores no better than the prefix's cell. */
  lemma {:induction false} MatchingIsBounded(p: Problem, t: Table, m: seq<Pair>, e: nat, c: nat)
    requires FilledBefore(p, t, |p.expected| + 1, 0) && InTable(p, e, c)
    requires IsMatching(p, m) && Within(m, e, c)
    ensures !LexLess(t[e][c].score, MatchingScore(p, m))
    decreases e + c
  {
    hide LexLess, AllDerived, Admissible;
    if m == [] && e == 0 && c == 0 {
      EmptyIsNotWorse(p, t);
      return;
    }
    if m != [] && m[|m| - 1].e == e - 1 && m[|m| - 1].c == c - 1 {
      var front := m[..|m| - 1];
      MatchingIsBounded(p, t, front, e - 1, c - 1);
      assert Dominated(p, t, e - 1, c - 1);
      MatchingScoreCounts(p, front);
      var last := PairScore(p, e - 1, c - 1);
      AddKeepsOrder(MatchingScore(p, front), t[e - 1][c - 1].score, last);
      NotWorseTransitive(MatchingScore(p, m), Add(t[e - 1][c - 1].score, last), t[e][c].score);
    } else if e > 0 && (m == [] || m[|m| - 1].e < e - 1) {
      MatchingIsBounded(p, t, m, e - 1, c);
      assert Dominated(p, t, e - 1, c);
      NotWorseTransitive(MatchingScore(p, m), t[e - 1][c].score, t[e][c].score);
    } else {
      MatchingIsBounded(p, t, m, e, c - 1);
      assert Dominated(p, t, e, c - 1);
      NotWorseTransitive(MatchingScore(p, m), t[e][c - 1].score, t[e][c].score);
    }
  }

  // ---------------------------------------------------------------- the backtrace

  ghost predicate FromCell(m: seq<Pair>, e: nat, c: nat) {
    forall k | 0 <= k < |m| :: m[k].e >= e && m[k].c >= c
  }

  /** The loop invariant of the backtrace: what is collected plus what the cell still holds. */
  ghost predicate Collected(p: Problem, t: Table, m: seq<Pair>, e: nat, c: nat) {
    && FilledBefore(p, t, |p.expected| + 1, 0) && InTable(p, e, c)
    && IsMatching(p, m) && FromCell(m, e, c)
    && t[e][c].score.reachable
    && t[|p.expected|][|p.candidates|].score == Add(t[e][c].score, MatchingScore(p, m))
  }

  lemma CellIsReachable(p: Problem, t: Table, e: nat, c: nat)
    requires FilledBefore(p, t, |p.expected| + 1, 0) && InTable(p, e, c)
    ensures t[e][c].score.reachable
  {
    assert Dominated(p, t, e, c);
  }

  lemma PrependKeepsMatching(p: Problem, pair: Pair, m: seq<Pair>)
    requires IsMatching(p, m) && FromCell(m, pair.e + 1, pair.c + 1)
    requires pair.e < |p.expected| && pair.c < |p.candidates| && Admissible(p, pair.e, pair.c)
    ensures IsMatching(p, [pair] + m) && FromCell([pair] + m, pair.e, pair.c)
  {
  }

  /** One step back: the cell has a step, its predecessor is smaller, nothing is lost. */
  lemma BacktraceStep(p: Problem, t: Table, m: seq<Pair>, e: nat, c: nat)
    requires Collected(p, t, m, e, c) && (e, c) != (0, 0)
    ensures var cell := t[e][c];
      && cell.step != NoStep
      && cell.previousExpected + cell.previousCandidate < e + c
      && Collected(p, t,
           if cell.step == Match then [Pair(cell.previousExpected, cell.previousCandidate)] + m else m,
           cell.previousExpected, cell.previousCandidate)
  {
    hide MatchingScore, PairScore, LexLess, AllDominated;
    var cell := t[e][c];
    assert Derived(p, t, e, c);
    CellIsReachable(p, t, cell.previousExpected, cell.previousCandidate);
    if cell.step == Match {
      var pair := Pair(cell.previousExpected, cell.previousCandidate);
      PrependKeepsMatching(p, pair, m);
      MatchingScorePrepend(p, pair, m);
      AddAssociative(t[pair.e][pair.c].score, PairScore(p, pair.e, pair.c), MatchingScore(p, m));
    }
  }

  lemma MatchingFits(p: Problem, m: seq<Pair>)
    requires IsMatching(p, m)
    ensures Within(m, |p.expected|, |p.candidates|)
  {
  }

  lemma AddAssociative(a: Score, b: Score, d: Score)
    ensures Add(Add(a, b), d) == Add(a, Add(b, d))
  {
  }

  lemma AddEmpty(score: Score)
    requires score.reachable
    ensures Add(EMPTY_SCORE, score) == score
  {
  }

  lemma FinalScoreIsBest(p: Problem, t: Table, m: seq<Pair>)
    requires FilledBefore(p, t, |p.expected| + 1, 0) && IsMatching(p, m)
    requires MatchingScore(p, m) == t[|p.expected|][|p.candidates|].score
    ensures IsOptimalMatching(p, m)
  {
    forall other: seq<Pair> | IsMatching(p, other)
      ensures !LexLess(MatchingScore(p, m), MatchingScore(p, other))
    {
      MatchingFits(p, other);
      MatchingIsBounded(p, t, other, |p.expected|, |p.candidates|);
    }
  }

  /** Reads the pairing off a filled table, from the last cell back to the origin. */
  method Backtrace(p: Problem, cells: array2<Cell>) returns (m: seq<Pair>)
    requires Allocates(p, cells) && FilledBefore(p, Rows(cells), |p.expected| + 1, 0)
    ensures IsOptimalMatching(p, m)
    ensures MatchingScore(p, m) == cells[|p.expected|, |p.candidates|].score
  {
    ghost var t: Table := Rows(cells);
    var e: nat, c: nat := |p.expected|, |p.candidates|;
    m := [];
    CellIsReachable(p, t, e, c);
    while e != 0 || c != 0
      invariant Collected(p, t, m, e, c)
      decreases e + c
    {
      // The source gives up on a cell without a step; BacktraceStep shows there is none.
      BacktraceStep(p, t, m, e, c);
      var current := cells[e, c];
      if current.step == Match {
        m := [Pair(current.previousExpected, current.previousCandidate)] + m;
      }
      e, c := current.previousExpected, current.previousCandidate;
    }
    MatchingScoreCounts(p, m);
    AddEmpty(MatchingScore(p, m));
    FinalScoreIsBest(p, t, m);
  }
}
