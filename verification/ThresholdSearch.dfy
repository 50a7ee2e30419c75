/**
 The threshold search that bench/gate1_holdout.py and scripts/evaluate_gate1.py share: among the observed
 scores, 0, 0.5, 1 and one threshold above every score, take the feasible one with the largest recall,
 and the largest of those.
 */
module ThresholdSearch {
  import opened Common

  /** How many scores reach a threshold. */
  function Hits(scores: seq<real>, t: real): nat {
    if scores == [] then 0
    else Hits(scores[..|scores| - 1], t) + if scores[|scores| - 1] >= t then 1 else 0
  }

  function Highest(scores: seq<real>): (r: real)
    requires scores != []
    ensures r in scores && forall s <- scores :: s <= r
  {
    var n := |scores| - 1;
    assert scores == scores[..n] + [scores[n]];
    if n == 0 then scores[0] else Max(Highest(scores[..n]), scores[n])
  }

  function RejectAll(scores: seq<real>): real {
    if scores == [] then 1.0 else Highest(scores) + 1.0
  }

  // ---------------------------------------------------------------- the candidates

  predicate Descending(s: seq<real>) {
    forall i, j :: 0 <= i < j < |s| ==> s[i] > s[j]
  }

  /** Into a descending list without repetition. */
  function InsertDown(s: seq<real>, x: real): seq<real> {
    if s == [] || x > s[0] then [x] + s
    else if x == s[0] then s
    else [s[0]] + InsertDown(s[1..], x)
  }

  function SortedDown(xs: seq<real>): seq<real> {
    if xs == [] then [] else InsertDown(SortedDown(xs[..|xs| - 1]), xs[|xs| - 1])
  }

  /** `sorted(scores | {0.0, 0.5, 1.0, reject_all}, reverse=True)`. */
  function Candidates(scores: seq<real>): seq<real> {
    SortedDown(scores + [0.0, 0.5, 1.0, RejectAll(scores)])
  }

  /** The candidates are the scores, 0, 0.5, 1, and one above the highest score, or 1; each once, from the top down. */
  lemma CandidatesExactly(scores: seq<real>, y: real)
    ensures Descending(Candidates(scores))
    ensures y in Candidates(scores) <==>
      || y in scores || y == 0.0 || y == 0.5 || y == 1.0
      || (scores != [] && y - 1.0 in scores && forall s <- scores :: s <= y - 1.0)
  {
    var all := scores + [0.0, 0.5, 1.0, RejectAll(scores)];
    SortedDownFacts(all);
    assert RejectAll(scores) in all && 0.0 in all && 0.5 in all && 1.0 in all && forall s <- scores :: s in all;
    if y in all {
      var i :| 0 <= i < |all| && all[i] == y;
      assert i < |scores| ==> scores[i] == y;
    }
  }

  lemma {:induction false} InsertDownFacts(s: seq<real>, x: real)
    requires Descending(s)
    ensures Descending(InsertDown(s, x))
    ensures forall y :: y in InsertDown(s, x) <==> y == x || y in s
  {
    if s != [] && x < s[0] {
      InsertDownFacts(s[1..], x);
      assert s == [s[0]] + s[1..];
      var r := InsertDown(s[1..], x);
      forall i | 0 <= i < |r| ensures s[0] > r[i] {
        assert r[i] in r;
      }
    } else if s != [] && x > s[0] {
      forall i | 0 <= i < |s| ensures x > s[i] {
      }
    }
  }

  lemma {:induction false} SortedDownFacts(xs: seq<real>)
    ensures Descending(SortedDown(xs))
    ensures forall y :: y in SortedDown(xs) <==> y in xs
  {
    if xs == [] {
    } else {
      var n := |xs| - 1;
      assert xs == xs[..n] + [xs[n]];
      SortedDownFacts(xs[..n]);
      InsertDownFacts(SortedDown(xs[..n]), xs[n]);
    }
  }

  lemma CandidatesFacts(scores: seq<real>)
    ensures Descending(Candidates(scores)) && Candidates(scores) != []
    ensures forall s <- scores :: s in Candidates(scores) && s < RejectAll(scores)
    ensures RejectAll(scores) in Candidates(scores)
    ensures forall c <- Candidates(scores) :: c <= Candidates(scores)[0]
  {
    var all := scores + [0.0, 0.5, 1.0, RejectAll(scores)];
    SortedDownFacts(all);
    assert all[|all| - 1] == RejectAll(scores);
    assert forall s <- scores :: s in all;
  }

  /** A threshold divides the scores as another one does. */
  predicate SameSplit(scores: seq<real>, t: real, u: real) {
    forall s <- scores :: s >= t <==> s >= u
  }

  lemma {:induction false} SameSplitSameHits(scores: seq<real>, some: seq<real>, t: real, u: real)
    requires SameSplit(scores, t, u) && forall s <- some :: s in scores
    ensures Hits(some, t) == Hits(some, u)
  {
    if some == [] {
    } else {
      SameSplitSameHits(scores, some[..|some| - 1], t, u);
      assert some[|some| - 1] in some;
    }
  }

  lemma {:induction false} LeastScore(scores: seq<real>, t: real) returns (least: Option<real>)
    ensures least.None? ==> forall s <- scores :: s < t
    ensures least.Some? ==> least.value in scores && least.value >= t && SameSplit(scores, t, least.value)
  {
    if scores == [] {
      return None;
    }
    var n := |scores| - 1;
    assert scores == scores[..n] + [scores[n]];
    least := LeastScore(scores[..n], t);
    if scores[n] >= t && (least.None? || scores[n] < least.value) {
      least := Some(scores[n]);
    }
  }

  /** Every real threshold divides the scores as some candidate does, and as one that is no smaller. */
  lemma CandidateFor(scores: seq<real>, t: real) returns (c: real)
    ensures c in Candidates(scores) && SameSplit(scores, t, c)
    ensures t <= Candidates(scores)[0] ==> t <= c
  {
    CandidatesFacts(scores);
    var least := LeastScore(scores, t);
    c := if least.Some? then least.value else Candidates(scores)[0];
  }

  lemma {:induction false} NothingAboveTop(scores: seq<real>, some: seq<real>)
    requires forall s <- some :: s in scores
    ensures Hits(some, RejectAll(scores)) == 0
  {
    if some == [] {
    } else {
      NothingAboveTop(scores, some[..|some| - 1]);
      CandidatesFacts(scores);
      assert some[|some| - 1] in some;
    }
  }

  // ---------------------------------------------------------------- the choice

  /** What the search compares: how good a threshold is, and whether it may be used. */
  datatype Judged = Judged(threshold: real, recall: real, feasible: bool)

  predicate Better(p: Judged, q: Judged) {
    p.recall > q.recall || (p.recall == q.recall && p.threshold > q.threshold)
  }

  /** `max(valid, key=(recall, threshold), default=None)`. */
  function Best(points: seq<Judged>): Option<Judged> {
    if points == [] then None
    else
      var before, p := Best(points[..|points| - 1]), points[|points| - 1];
      if !p.feasible then before
      else if before.None? || Better(p, before.value) then Some(p)
      else before
  }

  lemma {:induction false} BestIsBest(points: seq<Judged>)
    ensures Best(points).None? ==> forall p <- points :: !p.feasible
    ensures Best(points).Some? ==>
      && Best(points).value in points && Best(points).value.feasible
      && forall p <- points :: p.feasible ==> !Better(p, Best(points).value)
  {
    if points == [] {
    } else {
      var n := |points| - 1;
      assert points == points[..n] + [points[n]];
      BestIsBest(points[..n]);
    }
  }

  function Judge(judge: real -> Judged, thresholds: seq<real>): (r: seq<Judged>)
    ensures |r| == |thresholds| && forall i :: 0 <= i < |r| ==> r[i] == judge(thresholds[i])
  {
    seq(|thresholds|, i requires 0 <= i < |thresholds| => judge(thresholds[i]))
  }

  /** The verdict on a threshold depends only on which scores reach it. */
  ghost predicate DependsOnSplit(scores: seq<real>, judge: real -> Judged) {
    && (forall t :: judge(t).threshold == t)
    && forall t, u :: SameSplit(scores, t, u) ==>
         judge(t).recall == judge(u).recall && judge(t).feasible == judge(u).feasible
  }

  /** No real threshold that may be used has more recall; none up to the top one with the same recall is larger. */
  ghost predicate Optimal(scores: seq<real>, judge: real -> Judged, best: Judged) {
    && best == judge(best.threshold) && best.feasible && best.threshold in Candidates(scores)
    && forall u: real :: judge(u).feasible ==>
         && judge(u).recall <= best.recall
         && (judge(u).recall == best.recall && u <= Candidates(scores)[0] ==> u <= best.threshold)
  }

  /** The finite search loses nothing against all real thresholds. */
  lemma SearchIsOptimal(scores: seq<real>, judge: real -> Judged)
    requires DependsOnSplit(scores, judge)
    ensures var best := Best(Judge(judge, Candidates(scores)));
      && (best.None? ==> forall u: real :: !judge(u).feasible)
      && (best.Some? ==> Optimal(scores, judge, best.value))
  {
    CandidatesFacts(scores);
    var cs := Candidates(scores);
    var points := Judge(judge, cs);
    BestIsBest(points);
    forall u: real | judge(u).feasible
      ensures Best(points).Some?
        && judge(u).recall <= Best(points).value.recall
        && (judge(u).recall == Best(points).value.recall && u <= cs[0] ==> u <= Best(points).value.threshold)
    {
      var c := CandidateFor(scores, u);
      var i :| 0 <= i < |cs| && cs[i] == c;
      assert points[i] == judge(c) && points[i] in points;
    }
  }
}
