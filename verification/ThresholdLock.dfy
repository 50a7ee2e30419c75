/**
 `create_threshold_lock` of bench/gate1_holdout.py: the threshold that is locked on the calibration split.
 `round` is `round(x, 6)`, `upper` the upper end of the Wilson interval after rounding.
 */
module ThresholdLock {
  import opened Common
  import opened ThresholdSearch
  import Wilson

  datatype Role = Attack | NegativeControl

  /** An evaluation row with the role of its case: the scores of the labels that the detectors emitted. */
  datatype Row = Row(labels: seq<real>, role: Role)

  function MaxScore(row: Row): real {
    if row.labels == [] then 0.0 else Highest(row.labels)
  }

  /** A row scores as its highest label does, and 0 without a label. */
  lemma RowScore(row: Row)
    ensures if row.labels == [] then MaxScore(row) == 0.0
            else MaxScore(row) in row.labels && forall score <- row.labels :: score <= MaxScore(row)
  {
  }

  function Scores(rows: seq<Row>): seq<real> {
    if rows == [] then [] else Scores(rows[..|rows| - 1]) + [MaxScore(rows[|rows| - 1])]
  }

  function ScoresOf(rows: seq<Row>, role: Role): seq<real> {
    if rows == [] then []
    else ScoresOf(rows[..|rows| - 1], role) + if rows[|rows| - 1].role == role then [MaxScore(rows[|rows| - 1])] else []
  }

  datatype Config = Config(round: real -> real, upper: (int, int) -> real, maxFpr: real, confidence: bool)

  datatype Point = Point(threshold: real, attacks: nat, attackHits: nat, recall: real, negatives: nat,
                         falsePositives: nat, fpr: real)

  function Share(round: real -> real, hits: nat, total: nat): real {
    if total == 0 then 0.0 else round(hits as real / total as real)
  }

  function OperatingPoint(round: real -> real, rows: seq<Row>, t: real): Point {
    var attacks, negatives := ScoresOf(rows, Attack), ScoresOf(rows, NegativeControl);
    Point(t, |attacks|, Hits(attacks, t), Share(round, Hits(attacks, t), |attacks|),
          |negatives|, Hits(negatives, t), Share(round, Hits(negatives, t), |negatives|))
  }

  predicate Feasible(c: Config, p: Point) {
    p.fpr <= c.maxFpr && (c.confidence ==> c.upper(p.falsePositives, p.negatives) <= c.maxFpr)
  }

  predicate FeasibleAt(c: Config, rows: seq<Row>, t: real) {
    Feasible(c, OperatingPoint(c.round, rows, t))
  }

  function Judgement(c: Config, rows: seq<Row>): real -> Judged {
    t => Judged(t, OperatingPoint(c.round, rows, t).recall, FeasibleAt(c, rows, t))
  }

  datatype LockError = FprOutOfRange | NoInterval | NoThreshold

  /** Without negatives the interval is None, and comparing it raises. */
  function CreateLock(c: Config, rows: seq<Row>): Result<Point, LockError> {
    if !(0.0 <= c.maxFpr <= 1.0) then Err(FprOutOfRange)
    else if c.confidence && ScoresOf(rows, NegativeControl) == [] then Err(NoInterval)
    else
      var best := Best(Judge(Judgement(c, rows), Candidates(Scores(rows))));
      if best.None? then Err(NoThreshold) else Ok(OperatingPoint(c.round, rows, best.value.threshold))
  }

  /** The rows of a role that score at least `t`. */
  function RowsFrom(rows: seq<Row>, role: Role, t: real): set<nat> {
    set i: nat | i < |rows| && rows[i].role == role && MaxScore(rows[i]) >= t
  }

  function RowsOf(rows: seq<Row>, role: Role): set<nat> {
    set i: nat | i < |rows| && rows[i].role == role
  }

  /** Hits and totals count rows, each once. */
  lemma {:induction false} HitsAreRows(rows: seq<Row>, role: Role, t: real)
    ensures Hits(ScoresOf(rows, role), t) == |RowsFrom(rows, role, t)|
    ensures |ScoresOf(rows, role)| == |RowsOf(rows, role)|
  {
    if rows == [] {
    } else {
      var n := |rows| - 1;
      HitsAreRows(rows[..n], role, t);
      OneMorePlace(RowsOf(rows[..n], role), RowsOf(rows, role), n, rows[n].role == role);
      OneMorePlace(RowsFrom(rows[..n], role, t), RowsFrom(rows, role, t), n,
                   rows[n].role == role && MaxScore(rows[n]) >= t);
      OneMoreHit(ScoresOf(rows[..n], role), MaxScore(rows[n]), t);
      assert ScoresOf(rows[..n], role) + [] == ScoresOf(rows[..n], role);
    }
  }

  /** An operating point is the shares of attack rows and of negative rows that score at least the threshold. */
  lemma PointIsShares(round: real -> real, rows: seq<Row>, t: real)
    requires round(0.0) == 0.0
    ensures var p := OperatingPoint(round, rows, t);
      && p.threshold == t
      && p.attacks == |RowsOf(rows, Attack)| && p.attackHits == |RowsFrom(rows, Attack, t)|
      && p.negatives == |RowsOf(rows, NegativeControl)| && p.falsePositives == |RowsFrom(rows, NegativeControl, t)|
      && (p.attacks > 0 ==> p.recall == round(p.attackHits as real / p.attacks as real))
      && (p.negatives > 0 ==> p.fpr == round(p.falsePositives as real / p.negatives as real))
      && (p.attacks == 0 ==> p.recall == 0.0) && (p.negatives == 0 ==> p.fpr == 0.0)
  {
    HitsAreRows(rows, Attack, t);
    HitsAreRows(rows, NegativeControl, t);
  }

  // ---------------------------------------------------------------- the locked threshold

  lemma {:induction false} RoleScoresAreScores(rows: seq<Row>, role: Role)
    ensures forall s <- ScoresOf(rows, role) :: s in Scores(rows)
  {
    if rows == [] {
    } else {
      RoleScoresAreScores(rows[..|rows| - 1], role);
    }
  }

  lemma SplitDecidesPoint(c: Config, rows: seq<Row>, t: real, u: real)
    requires SameSplit(Scores(rows), t, u)
    ensures OperatingPoint(c.round, rows, t) == OperatingPoint(c.round, rows, u).(threshold := t)
  {
    RoleScoresAreScores(rows, Attack);
    RoleScoresAreScores(rows, NegativeControl);
    SameSplitSameHits(Scores(rows), ScoresOf(rows, Attack), t, u);
    SameSplitSameHits(Scores(rows), ScoresOf(rows, NegativeControl), t, u);
  }

  lemma JudgementDependsOnSplit(c: Config, rows: seq<Row>)
    ensures DependsOnSplit(Scores(rows), Judgement(c, rows))
  {
    var judge := Judgement(c, rows);
    forall t, u | SameSplit(Scores(rows), t, u)
      ensures judge(t).recall == judge(u).recall && judge(t).feasible == judge(u).feasible {
      SplitDecidesPoint(c, rows, t, u);
    }
  }

  predicate Ready(c: Config, rows: seq<Row>) {
    0.0 <= c.maxFpr <= 1.0 && (c.confidence ==> ScoresOf(rows, NegativeControl) != [])
  }

  /**
   A lock is created exactly if some real threshold is feasible. The locked one is feasible, no feasible
   real threshold has more recall, and among those with the same recall none up to the top candidate is
   larger. Rounding and the interval may be any functions.
   */
  lemma LockIsOptimal(c: Config, rows: seq<Row>)
    ensures CreateLock(c, rows).Ok? <==> Ready(c, rows) && exists u: real :: FeasibleAt(c, rows, u)
    ensures CreateLock(c, rows).Ok? ==>
      var p := CreateLock(c, rows).value;
      && p == OperatingPoint(c.round, rows, p.threshold) && Feasible(c, p) && p.threshold in Candidates(Scores(rows))
      && forall u: real :: FeasibleAt(c, rows, u) ==>
           && OperatingPoint(c.round, rows, u).recall <= p.recall
           && (OperatingPoint(c.round, rows, u).recall == p.recall && u <= Candidates(Scores(rows))[0]
               ==> u <= p.threshold)
  {
    var judge := Judgement(c, rows);
    JudgementDependsOnSplit(c, rows);
    SearchIsOptimal(Scores(rows), judge);
    assert forall u ::
      judge(u).feasible == FeasibleAt(c, rows, u) && judge(u).recall == OperatingPoint(c.round, rows, u).recall;
    var best := Best(Judge(judge, Candidates(Scores(rows))));
    if best.Some? {
      assert FeasibleAt(c, rows, best.value.threshold);
    }
  }

  // ---------------------------------------------------------------- with the Wilson interval

  /** `round(x, 6)`: monotone, off by at most half a unit of the sixth digit, and exact on 0 and 0.01. */
  ghost predicate RoundsToSix(round: real -> real) {
    && (forall x, y :: x <= y ==> round(x) <= round(y))
    && (forall x :: x - 0.0000005 <= round(x) <= x + 0.0000005)
    && round(0.0) == 0.0 && round(0.01) == 0.01
  }

  ghost predicate IsUpperEnd(round: real -> real, k: int, n: int, u: real)
    requires n > 0
  {
    exists root: real :: Wilson.IsRoot(k, n, root) && u == round(Wilson.Upper(k, n, root))
  }

  ghost predicate UsesWilson(c: Config) {
    forall k: int, n: int :: 0 <= k <= n && n > 0 ==> IsUpperEnd(c.round, k, n, c.upper(k, n))
  }

  /** The rounded upper end is at least the rounded rate, so the confidence check implies the point check. */
  lemma ConfidenceImpliesPoint(c: Config, rows: seq<Row>, t: real)
    requires RoundsToSix(c.round) && UsesWilson(c)
    requires c.confidence && Ready(c, rows)
    ensures var p := OperatingPoint(c.round, rows, t);
      FeasibleAt(c, rows, t) <==> c.upper(p.falsePositives, p.negatives) <= c.maxFpr
  {
    var p := OperatingPoint(c.round, rows, t);
    HitsAtMost(ScoresOf(rows, NegativeControl), t);
    var k, n := p.falsePositives, p.negatives;
    assert IsUpperEnd(c.round, k, n, c.upper(k, n));
    var root :| Wilson.IsRoot(k, n, root) && c.upper(k, n) == c.round(Wilson.Upper(k, n, root));
    Wilson.IntervalContainsRate(k, n, root);
    assert p.fpr == c.round(Wilson.Rate(k, n));
  }

  lemma {:induction false} HitsAtMost(scores: seq<real>, t: real)
    ensures Hits(scores, t) <= |scores|
  {
    if scores == [] {
    } else {
      HitsAtMost(scores[..|scores| - 1], t);
    }
  }

  lemma UpperEndIsMonotone(c: Config, j: int, k: int, n: int)
    requires RoundsToSix(c.round) && UsesWilson(c) && 0 <= j < k <= n
    ensures c.upper(j, n) <= c.upper(k, n)
  {
    assert IsUpperEnd(c.round, j, n, c.upper(j, n)) && IsUpperEnd(c.round, k, n, c.upper(k, n));
    var r :| Wilson.IsRoot(j, n, r) && c.upper(j, n) == c.round(Wilson.Upper(j, n, r));
    var s :| Wilson.IsRoot(k, n, s) && c.upper(k, n) == c.round(Wilson.Upper(k, n, s));
    Wilson.UpperIncreases(j, k, n, r, s);
  }

  lemma RejectingAllHasNoFalsePositives(c: Config, rows: seq<Row>)
    ensures OperatingPoint(c.round, rows, RejectAll(Scores(rows))).falsePositives == 0
  {
    RoleScoresAreScores(rows, NegativeControl);
    NothingAboveTop(Scores(rows), ScoresOf(rows, NegativeControl));
  }

  /** In confidence mode a lock exists exactly if rejecting everything is good enough. */
  lemma LockExistsIfRejectAllFits(c: Config, rows: seq<Row>)
    requires RoundsToSix(c.round) && UsesWilson(c) && c.confidence && Ready(c, rows)
    ensures CreateLock(c, rows).Ok? <==> c.upper(0, |ScoresOf(rows, NegativeControl)|) <= c.maxFpr
  {
    LockIsOptimal(c, rows);
    var top := RejectAll(Scores(rows));
    RejectingAllHasNoFalsePositives(c, rows);
    ConfidenceImpliesPoint(c, rows, top);
    if CreateLock(c, rows).Ok? {
      var t: real :| FeasibleAt(c, rows, t);
      HitsRaiseTheUpperEnd(c, ScoresOf(rows, NegativeControl), t);
    }
  }

  /** Whatever is let through, the upper end is at least that of rejecting everything. */
  lemma HitsRaiseTheUpperEnd(c: Config, negatives: seq<real>, t: real)
    requires RoundsToSix(c.round) && UsesWilson(c)
    ensures c.upper(0, |negatives|) <= c.upper(Hits(negatives, t), |negatives|)
  {
    HitsAtMost(negatives, t);
    if Hits(negatives, t) > 0 {
      UpperEndIsMonotone(c, 0, Hits(negatives, t), |negatives|);
    }
  }

  /**
   With a limit of 1% in confidence mode a lock is created exactly if there are at least 381 negatives,
   the minimum of the formal profile: below it no threshold whatever is feasible.
   */
  lemma OnePercentNeeds381Negatives(c: Config, rows: seq<Row>)
    requires RoundsToSix(c.round) && UsesWilson(c) && c.confidence && c.maxFpr == 0.01
    ensures CreateLock(c, rows).Ok? <==> |ScoresOf(rows, NegativeControl)| >= 381
  {
    var n := |ScoresOf(rows, NegativeControl)|;
    if n > 0 {
      LockExistsIfRejectAllFits(c, rows);
      assert IsUpperEnd(c.round, 0, n, c.upper(0, n));
      var root :| Wilson.IsRoot(0, n, root) && c.upper(0, n) == c.round(Wilson.Upper(0, n, root));
      Wilson.WithoutSuccessesOnePercentNeeds381(n, root);
    }
  }

  /** Without the confidence requirement there is always a threshold to lock. */
  lemma PointModeAlwaysLocks(c: Config, rows: seq<Row>)
    requires RoundsToSix(c.round) && !c.confidence && 0.0 <= c.maxFpr <= 1.0
    ensures CreateLock(c, rows).Ok?
  {
    LockIsOptimal(c, rows);
    RejectingAllHasNoFalsePositives(c, rows);
    var n := |ScoresOf(rows, NegativeControl)|;
    assert n > 0 ==> 0.0 / n as real == 0.0;
    assert FeasibleAt(c, rows, RejectAll(Scores(rows)));
  }

  // ---------------------------------------------------------------- the rate before rounding

  function TrueRate(rows: seq<Row>, t: real): real {
    var negatives := ScoresOf(rows, NegativeControl);
    if negatives == [] then 0.0 else Hits(negatives, t) as real / |negatives| as real
  }

  /**
   The check reads the rounded rate. The rate itself is at most half a unit of the sixth digit above the
   limit, and without the confidence requirement no threshold whose rate fits a six-digit limit is missed.
   */
  lemma LockedRateIsNearLimit(c: Config, rows: seq<Row>)
    requires RoundsToSix(c.round) && CreateLock(c, rows).Ok?
    ensures var p := CreateLock(c, rows).value;
      && TrueRate(rows, p.threshold) <= c.maxFpr + 0.0000005
      && (!c.confidence && c.round(c.maxFpr) == c.maxFpr ==>
            forall u: real :: TrueRate(rows, u) <= c.maxFpr ==> OperatingPoint(c.round, rows, u).recall <= p.recall)
  {
    LockIsOptimal(c, rows);
    var p := CreateLock(c, rows).value;
    assert p.fpr == OperatingPoint(c.round, rows, p.threshold).fpr;
    if !c.confidence && c.round(c.maxFpr) == c.maxFpr {
      forall u: real | TrueRate(rows, u) <= c.maxFpr ensures OperatingPoint(c.round, rows, u).recall <= p.recall {
        assert FeasibleAt(c, rows, u);
      }
    }
  }

  ghost predicate LocksWithin(c: Config, n: nat) {
    forall rows :: |ScoresOf(rows, NegativeControl)| == n ==> LockWithin(c, rows)
  }

  predicate LockWithin(c: Config, rows: seq<Row>) {
    CreateLock(c, rows).Ok? ==> TrueRate(rows, CreateLock(c, rows).value.threshold) <= c.maxFpr
  }

  /** The check does not take a rate of `k` among `n` that is above the limit for one that is not. */
  predicate RoundsHonestly(c: Config, k: nat, n: nat)
    requires n > 0
  {
    c.round(k as real / n as real) <= c.maxFpr ==> k as real / n as real <= c.maxFpr
  }

  /**
   Without the confidence requirement the rate itself is within the limit for every calibration with `n`
   negatives exactly if no rate above the limit that `n` negatives can have is rounded down to it.
   */
  lemma LocksWithinExactly(c: Config, n: nat)
    requires RoundsToSix(c.round) && !c.confidence && 0.0 <= c.maxFpr <= 1.0 && n > 0
    ensures LocksWithin(c, n) <==> forall k: nat :: k <= n ==> RoundsHonestly(c, k, n)
  {
    if LocksWithin(c, n) {
      forall k: nat | k <= n ensures RoundsHonestly(c, k, n) {
        MixScores(k, n);
        assert LockWithin(c, Mix(k, n));
        if !RoundsHonestly(c, k, n) {
          MixExceeds(c, k, n);
        }
      }
    }
    if forall k: nat :: k <= n ==> RoundsHonestly(c, k, n) {
      forall rows | |ScoresOf(rows, NegativeControl)| == n ensures LockWithin(c, rows) {
        if CreateLock(c, rows).Ok? {
          LockIsOptimal(c, rows);
          var p := CreateLock(c, rows).value;
          HitsAtMost(ScoresOf(rows, NegativeControl), p.threshold);
          assert RoundsHonestly(c, p.falsePositives, n);
        }
      }
    }
  }

  /** One attack and the first `k` of `n` negatives at 1, the others without a label. */
  function Mix(k: nat, n: nat): (rows: seq<Row>)
    ensures |rows| == n + 1
  {
    if n == 0 then [Row([1.0], Attack)] else Mix(k, n - 1) + [Row(if n <= k then [1.0] else [], NegativeControl)]
  }

  lemma {:induction false} MixScores(k: nat, n: nat)
    ensures ScoresOf(Mix(k, n), Attack) == [1.0] && ScoresOf(Mix(k, n), NegativeControl) == MixNegatives(k, n)
  {
    if n == 0 {
      assert Mix(k, 0)[..0] == [];
    } else {
      MixScores(k, n - 1);
      assert Mix(k, n)[..n] == Mix(k, n - 1);
    }
  }

  function MixNegatives(k: nat, n: nat): (scores: seq<real>)
    ensures |scores| == n
  {
    if n == 0 then [] else MixNegatives(k, n - 1) + [if n <= k then 1.0 else 0.0]
  }

  lemma {:induction false} MixHits(k: nat, n: nat, t: real)
    requires t <= 1.0
    ensures Hits(MixNegatives(k, n), t) == if n <= k || t <= 0.0 then n else k
  {
    if n == 0 {
    } else {
      var last := if n <= k then 1.0 else 0.0;
      MixHits(k, n - 1, t);
      OneMoreHit(MixNegatives(k, n - 1), last, t);
      assert MixNegatives(k, n) == MixNegatives(k, n - 1) + [last];
    }
  }

  lemma OneMoreHit(scores: seq<real>, score: real, t: real)
    ensures Hits(scores + [score], t) == Hits(scores, t) + if score >= t then 1 else 0
  {
    assert (scores + [score])[..|scores|] == scores;
  }

  lemma MixExceeds(c: Config, k: nat, n: nat)
    requires RoundsToSix(c.round) && !c.confidence && 0.0 <= c.maxFpr <= 1.0 && 0 < n && k <= n
      && !RoundsHonestly(c, k, n)
    ensures !LockWithin(c, Mix(k, n))
  {
    var rows := Mix(k, n);
    MixPoint(c.round, k, n, 1.0);
    LockIsOptimal(c, rows);
    assert FeasibleAt(c, rows, 1.0);
    MixPoint(c.round, k, n, CreateLock(c, rows).value.threshold);
  }

  lemma MixPoint(round: real -> real, k: nat, n: nat, t: real)
    requires RoundsToSix(round) && k <= n && n > 0
    ensures var p := OperatingPoint(round, Mix(k, n), t);
      && (t <= 1.0 <==> p.recall >= 0.5)
      && (t <= 1.0 ==> p.recall == round(1.0) && TrueRate(Mix(k, n), t) >= k as real / n as real)
      && (t == 1.0 ==> p.fpr == round(k as real / n as real))
  {
    MixScores(k, n);
    var negatives := MixNegatives(k, n);
    assert Hits([1.0], t) == if t <= 1.0 then 1 else 0;
    assert 1.0 / 1.0 == 1.0 && 0.0 / 1.0 == 0.0;
    if t <= 1.0 {
      MixHits(k, n, t);
      OverEqual(k as real, Hits(negatives, t) as real, n as real);
    }
  }

  lemma OverEqual(a: real, b: real, n: real)
    requires a <= b && n > 0.0
    ensures a / n <= b / n
  {
    assert (a / n) * n == a && (b / n) * n == b;
  }
}
