/** The candidates of a selection, normalised: sorted by frame, one loudest candidate for each frame. */
module MarkerCandidates {
  import opened MarkerMatching

  /** Inserts into a list sorted by frame, keeping the louder of two candidates of one frame. */
  function InsertCandidate(sorted: seq<Candidate>, x: Candidate): seq<Candidate> {
    if sorted == [] || x.frame < sorted[0].frame then [x] + sorted
    else if x.frame == sorted[0].frame then
      [if x.peak > sorted[0].peak then x else sorted[0]] + sorted[1..]
    else [sorted[0]] + InsertCandidate(sorted[1..], x)
  }

  /** std::sort by frame, then descending peak, followed by std::unique on the frame. */
  function NormalizedCandidates(candidates: seq<Candidate>): seq<Candidate> {
    if candidates == [] then []
    else InsertCandidate(NormalizedCandidates(candidates[..|candidates| - 1]), candidates[|candidates| - 1])
  }

  predicate StrictlyIncreasingFrames(s: seq<Candidate>) {
    forall i, j | 0 <= i < j < |s| :: s[i].frame < s[j].frame
  }

  /** s represents x: it has a candidate of the same frame that is at least as loud. */
  ghost predicate Represents(s: seq<Candidate>, x: Candidate) {
    exists k :: 0 <= k < |s| && s[k].frame == x.frame && s[k].peak >= x.peak
  }

  ghost predicate DrawnFrom(s: seq<Candidate>, candidates: seq<Candidate>) {
    forall k | 0 <= k < |s| :: s[k] in candidates
  }

  /** s is `candidates` sorted by frame with one loudest representative per frame. */
  ghost predicate IsNormalized(candidates: seq<Candidate>, s: seq<Candidate>) {
    && StrictlyIncreasingFrames(s)
    && DrawnFrom(s, candidates)
    && (forall k | 0 <= k < |candidates| :: Represents(s, candidates[k]))
  }

  lemma {:induction false} InsertCandidateDraws(s: seq<Candidate>, x: Candidate)
    ensures DrawnFrom(InsertCandidate(s, x), s + [x])
  {
    if s != [] && x.frame > s[0].frame {
      var rest := InsertCandidate(s[1..], x);
      InsertCandidateDraws(s[1..], x);
      forall k | 0 <= k < |rest| ensures rest[k] in s + [x] {
        assert rest[k] in s[1..] + [x];
      }
    }
  }

  lemma {:induction false} InsertCandidateRepresents(s: seq<Candidate>, x: Candidate)
    ensures Represents(InsertCandidate(s, x), x)
  {
    var r := InsertCandidate(s, x);
    if s == [] || x.frame <= s[0].frame {
      assert r[0].frame == x.frame && r[0].peak >= x.peak;
    } else {
      var rest := InsertCandidate(s[1..], x);
      InsertCandidateRepresents(s[1..], x);
      var k :| 0 <= k < |rest| && rest[k].frame == x.frame && rest[k].peak >= x.peak;
      assert r[k + 1] == rest[k];
    }
  }

  lemma {:induction false} InsertCandidateIsSorted(s: seq<Candidate>, x: Candidate)
    requires StrictlyIncreasingFrames(s)
    ensures StrictlyIncreasingFrames(InsertCandidate(s, x))
  {
    if s != [] && x.frame > s[0].frame {
      var rest := InsertCandidate(s[1..], x);
      InsertCandidateIsSorted(s[1..], x);
      InsertCandidateDraws(s[1..], x);
      forall k | 0 <= k < |rest| ensures s[0].frame < rest[k].frame {
        assert rest[k] in s[1..] + [x];
      }
    }
  }

  lemma {:induction false} InsertCandidateKeeps(s: seq<Candidate>, x: Candidate, y: Candidate)
    requires StrictlyIncreasingFrames(s) && Represents(s, y)
    ensures Represents(InsertCandidate(s, x), y)
  {
    var r := InsertCandidate(s, x);
    var k :| 0 <= k < |s| && s[k].frame == y.frame && s[k].peak >= y.peak;
    if x.frame < s[0].frame {
      assert r[k + 1] == s[k];
    } else if x.frame == s[0].frame {
      assert r[k].frame == s[k].frame && r[k].peak >= s[k].peak;
    } else if k == 0 {
      assert r[0] == s[0];
    } else {
      assert s[1..][k - 1] == s[k];
      InsertCandidateKeeps(s[1..], x, y);
      var rest := InsertCandidate(s[1..], x);
      var j :| 0 <= j < |rest| && rest[j].frame == y.frame && rest[j].peak >= y.peak;
      assert r[j + 1] == rest[j];
    }
  }

  lemma DrawnFromWidens(s: seq<Candidate>, r: seq<Candidate>, front: seq<Candidate>, last: Candidate)
    requires DrawnFrom(s, front) && DrawnFrom(r, s + [last])
    ensures DrawnFrom(r, front + [last])
  {
    forall k | 0 <= k < |r| ensures r[k] in front + [last] {
      if r[k] != last {
        assert r[k] in s;
      }
    }
  }

  lemma InsertCandidateKeepsNormalized(front: seq<Candidate>, last: Candidate, s: seq<Candidate>)
    requires IsNormalized(front, s)
    ensures IsNormalized(front + [last], InsertCandidate(s, last))
  {
    var r, all := InsertCandidate(s, last), front + [last];
    InsertCandidateIsSorted(s, last);
    InsertCandidateDraws(s, last);
    InsertCandidateRepresents(s, last);
    DrawnFromWidens(s, r, front, last);
    forall k | 0 <= k < |all| ensures Represents(r, all[k]) {
      if k < |front| {
        InsertCandidateKeeps(s, last, front[k]);
      }
    }
  }

  lemma {:induction false} NormalizedCandidatesAreNormalized(candidates: seq<Candidate>)
    ensures IsNormalized(candidates, NormalizedCandidates(candidates))
  {
    hide IsNormalized, InsertCandidate;
    if candidates == [] {
      NothingIsNormalized();
    } else {
      var front, last := candidates[..|candidates| - 1], candidates[|candidates| - 1];
      NormalizedCandidatesAreNormalized(front);
      InsertCandidateKeepsNormalized(front, last, NormalizedCandidates(front));
      assert candidates == front + [last];
    }
  }

  lemma NothingIsNormalized()
    ensures IsNormalized([], [])
  {
  }

  lemma {:induction false} IncreasingCandidatesStay(candidates: seq<Candidate>)
    requires StrictlyIncreasingFrames(candidates)
    ensures NormalizedCandidates(candidates) == candidates
  {
    if candidates != [] {
      var front, last := candidates[..|candidates| - 1], candidates[|candidates| - 1];
      IncreasingCandidatesStay(front);
      InsertLast(front, last);
    }
  }

  lemma {:induction false} InsertLast(s: seq<Candidate>, x: Candidate)
    requires forall y | y in s :: y.frame < x.frame
    ensures InsertCandidate(s, x) == s + [x]
  {
    if s != [] {
      InsertLast(s[1..], x);
      assert s + [x] == [s[0]] + (s[1..] + [x]);
    }
  }

  lemma {:induction false} InsertCandidateLength(s: seq<Candidate>, x: Candidate)
    ensures |InsertCandidate(s, x)| <= |s| + 1
  {
    if s != [] && x.frame > s[0].frame {
      InsertCandidateLength(s[1..], x);
    }
  }

  lemma {:induction false} NormalizedIsNotLonger(candidates: seq<Candidate>)
    ensures |NormalizedCandidates(candidates)| <= |candidates|
  {
    if candidates != [] {
      var front, last := candidates[..|candidates| - 1], candidates[|candidates| - 1];
      NormalizedIsNotLonger(front);
      InsertCandidateLength(NormalizedCandidates(front), last);
    }
  }
}
