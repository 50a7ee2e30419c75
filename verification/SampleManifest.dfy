/**
 `freeze_sample_manifest` as a whole: pair prices measured from the calibration entries of the ledger,
 the AgentDojo allocation, the InjecAgent slice, and the two jobs of every selected case.
 */
module SampleManifests {
  import opened Common
  import opened BudgetLedger
  import opened SampleAllocator

  // ---------------------------------------------------------------- prices from the calibration run

  /** What the settled calibration entries charged to one job; None when there is no such entry. */
  function JobCost(entries: seq<Entry>, job: string): Option<real> {
    if entries == [] then None
    else
      var e := entries[|entries| - 1];
      var earlier := JobCost(entries[..|entries| - 1], job);
      if e.bucket == "calibration" && e.status.Settled? && e.job == job
      then Some((if earlier.Some? then earlier.value else 0.0) + e.status.charged)
      else earlier
  }

  function CaseJobs(item: Item): seq<Job> {
    [Job(item, Baseline), Job(item, Defended)]
  }

  /** Both arms of a pair, or None when one of them has no settled cost. */
  function PairCost(entries: seq<Entry>, jobId: Job -> string, item: Item): Option<real> {
    var baseline := JobCost(entries, jobId(Job(item, Baseline)));
    var defended := JobCost(entries, jobId(Job(item, Defended)));
    if baseline.Some? && defended.Some? then Some(baseline.value + defended.value) else None
  }

  // What a price means: the total of the settled calibration entries of both arms.

  predicate IsCharge(e: Entry, job: string) {
    e.bucket == "calibration" && e.status.Settled? && e.job == job
  }

  function ChargesOf(entries: seq<Entry>, job: string): seq<Entry> {
    if entries == [] then []
    else
      var e := entries[|entries| - 1];
      ChargesOf(entries[..|entries| - 1], job) + if IsCharge(e, job) then [e] else []
  }

  /** The charges of a job are its settled calibration entries, each as often as the ledger has it. */
  lemma {:induction false} ChargesAreExact(entries: seq<Entry>, job: string)
    ensures forall e <- entries ::
      multiset(ChargesOf(entries, job))[e] ==
        if e.job == job && e.bucket == "calibration" && e.status.Settled? then multiset(entries)[e] else 0
    ensures forall e <- ChargesOf(entries, job) :: e in entries
  {
    if entries == [] {
    } else {
      var n := |entries| - 1;
      ChargesAreExact(entries[..n], job);
      assert entries == entries[..n] + [entries[n]];
      forall e <- entries
        ensures multiset(ChargesOf(entries, job))[e] == if IsCharge(e, job) then multiset(entries)[e] else 0
      {
        if e !in entries[..n] {
          assert e !in ChargesOf(entries[..n], job);
        }
      }
    }
  }

  /** A job has a cost exactly if the ledger has a charge of it, and then it is the total of all of them. */
  lemma JobCostIsTotal(entries: seq<Entry>, job: string)
    ensures JobCost(entries, job).Some? <==>
      exists e <- entries :: e.bucket == "calibration" && e.status.Settled? && e.job == job
    ensures JobCost(entries, job) ==
      if ChargesOf(entries, job) == [] then None else Some(Total(ChargesOf(entries, job)))
  {
    CostFromCharges(entries, job);
    ChargesAreExact(entries, job);
    var charges := ChargesOf(entries, job);
    if charges != [] {
      assert charges[0] in charges && multiset(charges)[charges[0]] > 0;
    }
  }

  lemma {:induction false} CostFromCharges(entries: seq<Entry>, job: string)
    ensures JobCost(entries, job) ==
      if ChargesOf(entries, job) == [] then None else Some(Total(ChargesOf(entries, job)))
  {
    if entries == [] {
    } else {
      var n := |entries| - 1;
      var before := ChargesOf(entries[..n], job);
      CostFromCharges(entries[..n], job);
      if IsCharge(entries[n], job) {
        SumsAfterAppend(before, entries[n], "");
        assert Total([]) == 0.0;
      } else {
        assert before + [] == before;
      }
    }
  }

  /** The order of the ledger does not matter. */
  lemma JobCostPermutes(a: seq<Entry>, b: seq<Entry>, job: string)
    requires multiset(a) == multiset(b)
    ensures JobCost(a, job) == JobCost(b, job)
  {
    CostFromCharges(a, job);
    CostFromCharges(b, job);
    SameCharges(a, b, job);
    TotalPermutes(ChargesOf(a, job), ChargesOf(b, job));
  }

  lemma SameCharges(a: seq<Entry>, b: seq<Entry>, job: string)
    requires multiset(a) == multiset(b)
    ensures multiset(ChargesOf(a, job)) == multiset(ChargesOf(b, job))
    ensures |ChargesOf(a, job)| == |ChargesOf(b, job)|
  {
    var x, y := ChargesOf(a, job), ChargesOf(b, job);
    forall e: Entry ensures multiset(x)[e] == multiset(y)[e] {
      ChargesAreExact(a, job);
      ChargesAreExact(b, job);
      assert e in multiset(a) <==> e in multiset(b);
    }
    assert |multiset(x)| == |x| && |multiset(y)| == |y|;
  }

  lemma {:induction false} TotalPermutes(a: seq<Entry>, b: seq<Entry>)
    requires multiset(a) == multiset(b)
    ensures Total(a) == Total(b)
    decreases |a|
  {
    assert |multiset(a)| == |a| && |multiset(b)| == |b|;
    if a == [] {
    } else {
      var n := |a| - 1;
      assert a[n] in multiset(b);
      var k :| 0 <= k < |b| && b[k] == a[n];
      WithoutOne(a, n);
      WithoutOne(b, k);
      assert a[..n] + a[n + 1..] == a[..n];
      TotalPermutes(a[..n], b[..k] + b[k + 1..]);
    }
  }

  lemma WithoutOne(entries: seq<Entry>, k: nat)
    requires k < |entries|
    ensures var rest := entries[..k] + entries[k + 1..];
      Total(entries) == Total(rest) + Charged(entries[k]) && multiset(rest) == multiset(entries) - multiset{entries[k]}
  {
    var before, after := entries[..k], entries[k + 1..];
    assert entries == before + [entries[k]] + after;
    TotalConcat(before + [entries[k]], after);
    SumsAfterAppend(before, entries[k], "");
    TotalConcat(before, after);
  }

  lemma {:induction false} TotalConcat(a: seq<Entry>, b: seq<Entry>)
    ensures Total(a + b) == Total(a) + Total(b)
  {
    if b == [] {
      assert a + b == a;
    } else {
      var n := |b| - 1;
      assert (a + b)[..|a + b| - 1] == a + b[..n];
      TotalConcat(a, b[..n]);
    }
  }

  /** The charges of both arms. */
  function PairCharges(entries: seq<Entry>, jobId: Job -> string, item: Item): seq<Entry> {
    ChargesOf(entries, jobId(Job(item, Baseline))) + ChargesOf(entries, jobId(Job(item, Defended)))
  }

  /** Each arm has a charge. */
  predicate IsMeasured(entries: seq<Entry>, jobId: Job -> string, item: Item) {
    forall arm :: ChargesOf(entries, jobId(Job(item, arm))) != []
  }

  lemma PairCostIsTotal(entries: seq<Entry>, jobId: Job -> string, item: Item)
    ensures PairCost(entries, jobId, item).Some? <==> IsMeasured(entries, jobId, item)
    ensures PairCost(entries, jobId, item).Some? ==>
      PairCost(entries, jobId, item).value == Total(PairCharges(entries, jobId, item))
  {
    var baseline, defended := jobId(Job(item, Baseline)), jobId(Job(item, Defended));
    JobCostIsTotal(entries, baseline);
    JobCostIsTotal(entries, defended);
    TotalConcat(ChargesOf(entries, baseline), ChargesOf(entries, defended));
    if PairCost(entries, jobId, item).Some? {
      forall arm ensures ChargesOf(entries, jobId(Job(item, arm))) != [] {
        match arm
        case Baseline =>
        case Defended =>
      }
    }
  }

  /** `d` is the total of the dearest calibration pair of a stratum, or zero if nothing was charged for one. */
  ghost predicate DearestTotal(p: Plan, entries: seq<Entry>, jobId: Job -> string, benchmark: Benchmark,
                               stratum: string, d: real)
  {
    && d >= 0.0
    && (forall item <- p.universe :: InStratum(p, item, benchmark, stratum) ==>
          Total(PairCharges(entries, jobId, item)) <= d)
    && (d == 0.0 || exists item <- p.universe ::
          InStratum(p, item, benchmark, stratum) && Total(PairCharges(entries, jobId, item)) == d)
  }

  predicate InStratum(p: Plan, item: Item, benchmark: Benchmark, stratum: string) {
    item.key in p.calibration && item.benchmark == benchmark && item.stratum == stratum
  }

  /** Every estimate is the safety multiplier times the dearest measured pair of its stratum. */
  ghost predicate IsEstimate(p: Plan, entries: seq<Entry>, jobId: Job -> string, e: Estimates) {
    && e.r2.Keys == (set s <- p.suites)
    && (forall s <- p.suites :: Estimated(p, entries, jobId, AgentDojo, s, e.r2[s]))
    && Estimated(p, entries, jobId, InjecAgent, "ds/base", e.r3)
  }

  ghost predicate Estimated(p: Plan, entries: seq<Entry>, jobId: Job -> string, benchmark: Benchmark, stratum: string,
                            estimate: real)
  {
    exists d :: DearestTotal(p, entries, jobId, benchmark, stratum, d) && estimate == d * p.multiplier
  }

  lemma PriceIsDearest(p: Plan, entries: seq<Entry>, jobId: Job -> string, prices: Prices, benchmark: Benchmark,
                       stratum: string)
    requires IsDearest(p, entries, jobId, p.universe, prices)
    ensures DearestTotal(p, entries, jobId, benchmark, stratum, PriceOf(prices, benchmark, stratum))
  {
    var d := PriceOf(prices, benchmark, stratum);
    forall item <- p.universe | InStratum(p, item, benchmark, stratum)
      ensures Total(PairCharges(entries, jobId, item)) <= d
    {
      PairCostIsTotal(entries, jobId, item);
    }
    if d != 0.0 {
      var item :| item in p.universe && item.key in p.calibration
        && (item.benchmark, item.stratum) == (benchmark, stratum)
        && PairCost(entries, jobId, item) == Some(d);
      PairCostIsTotal(entries, jobId, item);
      assert InStratum(p, item, benchmark, stratum);
    }
  }

  lemma ConservativeIsEstimate(p: Plan, entries: seq<Entry>, jobId: Job -> string, prices: Prices)
    requires IsDearest(p, entries, jobId, p.universe, prices)
    ensures IsEstimate(p, entries, jobId, Conservative(p, prices))
  {
    var e := Conservative(p, prices);
    ConservativePrices(p, prices);
    forall s <- p.suites ensures Estimated(p, entries, jobId, AgentDojo, s, e.r2[s]) {
      EstimateOfPrice(p, entries, jobId, prices, AgentDojo, s, e.r2[s]);
    }
    EstimateOfPrice(p, entries, jobId, prices, InjecAgent, "ds/base", e.r3);
  }

  /** `estimate` is `price` with the safety margin. */
  predicate Padded(p: Plan, price: real, estimate: real) {
    estimate == price * p.multiplier
  }

  lemma ConservativePrices(p: Plan, prices: Prices)
    ensures Conservative(p, prices).r2.Keys == set s <- p.suites
    ensures forall s <- p.suites :: Padded(p, PriceOf(prices, AgentDojo, s), Conservative(p, prices).r2[s])
    ensures Padded(p, PriceOf(prices, InjecAgent, "ds/base"), Conservative(p, prices).r3)
  {
  }

  lemma EstimateOfPrice(p: Plan, entries: seq<Entry>, jobId: Job -> string, prices: Prices, benchmark: Benchmark,
                        stratum: string, estimate: real)
    requires IsDearest(p, entries, jobId, p.universe, prices)
    requires Padded(p, PriceOf(prices, benchmark, stratum), estimate)
    ensures Estimated(p, entries, jobId, benchmark, stratum, estimate)
  {
    PriceIsDearest(p, entries, jobId, prices, benchmark, stratum);
  }

  type Prices = map<(Benchmark, string), real>

  function PriceOf(prices: Prices, benchmark: Benchmark, stratum: string): real {
    if (benchmark, stratum) in prices then prices[(benchmark, stratum)] else 0.0
  }

  lemma MeasuredExactly(entries: seq<Entry>, jobId: Job -> string)
    ensures forall item :: PairCost(entries, jobId, item).Some? <==> IsMeasured(entries, jobId, item)
  {
    forall item ensures PairCost(entries, jobId, item).Some? <==> IsMeasured(entries, jobId, item) {
      PairCostIsTotal(entries, jobId, item);
    }
  }

  lemma DearestStep(p: Plan, entries: seq<Entry>, jobId: Job -> string, items: seq<Item>, item: Item, prices: Prices)
    requires IsDearest(p, entries, jobId, items, prices) && PairCost(entries, jobId, item).Some?
    ensures var stratum := (item.benchmark, item.stratum);
      IsDearest(p, entries, jobId, items + [item],
        if item.key !in p.calibration then prices
        else prices[stratum := Max(PriceOf(prices, item.benchmark, item.stratum),
                                   PairCost(entries, jobId, item).value)])
  {
  }

  lemma PricesAreDearest(p: Plan, entries: seq<Entry>, jobId: Job -> string, prices: Prices)
    requires IsDearest(p, entries, jobId, p.universe, prices)
    ensures forall benchmark, stratum ::
      DearestTotal(p, entries, jobId, benchmark, stratum, PriceOf(prices, benchmark, stratum))
  {
    forall benchmark, stratum
      ensures DearestTotal(p, entries, jobId, benchmark, stratum, PriceOf(prices, benchmark, stratum))
    {
      PriceIsDearest(p, entries, jobId, prices, benchmark, stratum);
    }
  }

  /** `_calibration_pair_costs`: the dearest measured pair of each stratum. */
  method MeasurePrices(p: Plan, entries: seq<Entry>, jobId: Job -> string) returns (r: Result<Prices, Item>)
    ensures r.Ok? <==> forall item <- p.universe :: item.key in p.calibration ==> IsMeasured(entries, jobId, item)
    ensures r.Err? ==> r.error in p.universe && r.error.key in p.calibration && !IsMeasured(entries, jobId, r.error)
    ensures r.Ok? ==> IsDearest(p, entries, jobId, p.universe, r.value)
    ensures r.Ok? ==> forall benchmark, stratum ::
      DearestTotal(p, entries, jobId, benchmark, stratum, PriceOf(r.value, benchmark, stratum))
  {
    var costs := JobCosts(entries);
    var prices: Prices := map[];
    for i := 0 to |p.universe|
      invariant IsDearest(p, entries, jobId, p.universe[..i], prices)
    {
      var item := p.universe[i];
      assert p.universe[..i + 1] == p.universe[..i] + [item];
      if item.key in p.calibration {
        var baseline, defended := jobId(Job(item, Baseline)), jobId(Job(item, Defended));
        if baseline !in costs || defended !in costs {
          PairCostIsTotal(entries, jobId, item);
          return Err(item);
        }
        var stratum := (item.benchmark, item.stratum);
        var pair := costs[baseline] + costs[defended];
        DearestStep(p, entries, jobId, p.universe[..i], item, prices);
        prices := prices[stratum := Max(PriceOf(prices, item.benchmark, item.stratum), pair)];
      }
    }
    assert p.universe[..|p.universe|] == p.universe;
    MeasuredExactly(entries, jobId);
    PricesAreDearest(p, entries, jobId, prices);
    return Ok(prices);
  }

  /** The loop over the ledger that adds up the charges of each job. */
  method JobCosts(entries: seq<Entry>) returns (costs: map<string, real>)
    ensures forall job :: JobCost(entries, job) == if job in costs then Some(costs[job]) else None
  {
    costs := map[];
    for i := 0 to |entries|
      invariant forall job :: JobCost(entries[..i], job) == if job in costs then Some(costs[job]) else None
    {
      var e := entries[i];
      assert entries[..i + 1][..i] == entries[..i];
      if e.bucket == "calibration" && e.status.Settled? {
        costs := costs[e.job := (if e.job in costs then costs[e.job] else 0.0) + e.status.charged];
      }
    }
    assert entries[..|entries|] == entries;
  }

  /** Each price bounds every measured pair of its stratum, and is zero or one of those pairs. */
  ghost predicate IsDearest(p: Plan, entries: seq<Entry>, jobId: Job -> string, items: seq<Item>, prices: Prices) {
    && (forall item <- items :: item.key in p.calibration ==>
          && (item.benchmark, item.stratum) in prices
          && PairCost(entries, jobId, item).Some?
          && PairCost(entries, jobId, item).value <= prices[(item.benchmark, item.stratum)])
    && (forall k <- prices :: prices[k] >= 0.0)
    && (forall k <- prices :: prices[k] == 0.0
          || exists item <- items :: item.key in p.calibration && (item.benchmark, item.stratum) == k
               && PairCost(entries, jobId, item) == Some(prices[k]))
  }

  function Conservative(p: Plan, prices: Prices): Estimates {
    Estimates(map s <- p.suites :: PriceOf(prices, AgentDojo, s) * p.multiplier,
              PriceOf(prices, InjecAgent, "ds/base") * p.multiplier)
  }

  // ---------------------------------------------------------------- the InjecAgent slice

  function R3Candidates(p: Plan): seq<Item> {
    Candidates(p, p.universe, InjecAgent, None)
  }

  function R3Selected(p: Plan, e: Estimates): seq<Item>
    requires e.r3 > 0.0
  {
    var affordable := (p.r3Main / e.r3).Floor;
    SliceTo(R3Candidates(p), if |R3Candidates(p)| < affordable then |R3Candidates(p)| else affordable)
  }

  lemma FloorQuotient(budget: real, price: real)
    requires price > 0.0
    ensures (budget / price).Floor as real * price <= budget
    ensures budget < ((budget / price).Floor as real + 1.0) * price
    ensures budget >= 0.0 <==> (budget / price).Floor >= 0
  {
    var q := budget / price;
    assert q * price == budget;
    assert q.Floor as real <= q < q.Floor as real + 1.0;
    TimesMonotone(q.Floor as real, q, price);
    var next := q.Floor as real + 1.0;
    TimesStrict(q, next, price);
    assert budget < next * price;
    assert next == (budget / price).Floor as real + 1.0;
  }

  lemma TimesMonotone(a: real, b: real, price: real)
    requires a <= b && price > 0.0
    ensures a * price <= b * price
  {
  }

  lemma TimesStrict(a: real, b: real, price: real)
    requires a < b && price > 0.0
    ensures a * price < b * price
  {
  }

  /**
   The InjecAgent slice stays within its budget exactly when that budget is not negative: a negative
   quotient becomes a negative slice bound, which drops cases from the end instead of taking none.
   With a non-negative budget the slice cannot be extended.
   */
  lemma R3WithinBudgetExactly(p: Plan, e: Estimates)
    requires e.r3 > 0.0
    ensures |R3Selected(p, e)| as real * e.r3 <= p.r3Main <==> p.r3Main >= 0.0
    ensures p.r3Main >= 0.0 ==>
      R3Selected(p, e) == R3Candidates(p) || (|R3Selected(p, e)| + 1) as real * e.r3 > p.r3Main
  {
    FloorQuotient(p.r3Main, e.r3);
    var k, taken := (p.r3Main / e.r3).Floor, |R3Selected(p, e)|;
    if p.r3Main >= 0.0 {
      TimesMonotone(taken as real, k as real, e.r3);
    } else {
      TimesMonotone(0.0, taken as real, e.r3);
    }
  }

  // ---------------------------------------------------------------- the manifest

  function JobsOf(items: seq<Item>): seq<Job> {
    if items == [] then [] else JobsOf(items[..|items| - 1]) + CaseJobs(items[|items| - 1])
  }

  /** Every selected case has exactly its two arms, side by side. */
  lemma {:induction false} BothArms(items: seq<Item>)
    ensures |JobsOf(items)| == 2 * |items|
    ensures forall k :: 0 <= k < |items| ==>
      JobsOf(items)[2 * k] == Job(items[k], Baseline) && JobsOf(items)[2 * k + 1] == Job(items[k], Defended)
  {
    if items == [] {
    } else {
      BothArms(items[..|items| - 1]);
    }
  }

  function R2Errors(p: Plan, e: Estimates): seq<Problem> {
    FloorErrors(p, e, |p.suites|)
    + if FloorCost(p, e, |p.suites|) > p.r2Main + TOLERANCE then [FloorExceedsBudget] else []
  }

  function R2Selected(p: Plan, e: Estimates): seq<Item> {
    if R2Errors(p, e) == [] then Finish(p, e, Start(p, e)).selected else Start(p, e).selected
  }

  function Freeze(p: Plan, e: Estimates): Manifest {
    var errors := R2Errors(p, e) + if e.r3 <= 0.0 then [R3CostUnavailable] else [];
    if errors != [] then Manifest(false, errors, [], [])
    else
      var selected := R2Selected(p, e) + R3Selected(p, e);
      Manifest(true, [], selected, JobsOf(selected))
  }

  /** The manifest is frozen exactly when every floor is available, affordable together, and R3 has a price. */
  lemma FrozenExactly(p: Plan, e: Estimates)
    ensures Freeze(p, e).frozen <==>
      AllFloorsAvailable(p, e) && FloorCost(p, e, |p.suites|) <= p.r2Main + TOLERANCE && e.r3 > 0.0
    ensures !Freeze(p, e).frozen ==> Freeze(p, e).jobs == []
  {
    FloorErrorsExact(p, e, |p.suites|);
    assert p.suites[..|p.suites|] == p.suites;
  }

  /** The manifest lists exactly the floors, the budget and the price that stood in the way. */
  lemma ReasonsExactly(p: Plan, e: Estimates, x: Problem)
    ensures x in Freeze(p, e).errors <==>
      match x
      case FloorUnavailable(s) => s in p.suites && !FloorAvailable(p, e, s)
      case FloorExceedsBudget => FloorCost(p, e, |p.suites|) > p.r2Main + TOLERANCE
      case R3CostUnavailable => e.r3 <= 0.0
  {
    FloorErrorsName(p, e, |p.suites|, x);
    assert p.suites[..|p.suites|] == p.suites;
  }

  /** The state in which the allocation loop of a frozen manifest ends. */
  lemma FinalState(p: Plan, e: Estimates) returns (end: State)
    requires AllFloorsAvailable(p, e) && FloorCost(p, e, |p.suites|) <= p.r2Main + TOLERANCE
    ensures end.selected == R2Selected(p, e) && FloorSelected(p, e, |p.suites|) <= end.selected
    ensures Sound(p, e, end) && NothingDropped(p, end)
    ensures Distinct(p.universe) && (p.floor == 0 || Distinct(p.suites)) ==> Distinct(end.selected)
    ensures forall s :: !Eligible(p, e, end, s)
  {
    FloorErrorsExact(p, e, |p.suites|);
    assert p.suites[..|p.suites|] == p.suites;
    StartIsSound(p, e);
    StartDropsNothing(p, e);
    StartIsFresh(p, e);
    var n := FinishIsSomeRound(p, e, Start(p, e));
    EveryRoundIsFair(p, e, Start(p, e), n);
    end := Finish(p, e, Start(p, e));
  }

  /** The fairness of every round, for the allocation of a feasible plan. */
  lemma AllocationIsFairThroughout(p: Plan, e: Estimates, n: nat)
    requires AllFloorsAvailable(p, e) && FloorCost(p, e, |p.suites|) <= p.r2Main + TOLERANCE
    ensures Sound(p, e, After(p, e, Start(p, e), n))
    ensures Fair(p, e, After(p, e, Start(p, e), n))
  {
    StartIsSound(p, e);
    EveryRoundIsFair(p, e, Start(p, e), n);
  }

  lemma R3Members(p: Plan, e: Estimates)
    requires e.r3 > 0.0
    ensures forall item <- R3Selected(p, e) ::
      item in p.universe && item.key !in p.calibration && item.benchmark.InjecAgent?
    ensures Distinct(p.universe) ==> Distinct(R3Selected(p, e))
  {
    CandidatesExact(p, p.universe, InjecAgent, None);
    var r3 := R3Selected(p, e);
    assert R3Candidates(p) == r3 + R3Candidates(p)[|r3|..];
    DistinctConcat(r3, R3Candidates(p)[|r3|..]);
  }

  /** A frozen manifest leaves out the calibration cases and takes R3 cases after R2 cases. */
  lemma FrozenManifestMembers(p: Plan, e: Estimates)
    requires Freeze(p, e).frozen
    ensures Freeze(p, e).selected == R2Selected(p, e) + R3Selected(p, e)
    ensures forall item <- R2Selected(p, e) :: FromUniverse(p, item) && item.benchmark.AgentDojo?
    ensures forall item <- R3Selected(p, e) :: FromUniverse(p, item) && item.benchmark.InjecAgent?
  {
    FrozenExactly(p, e);
    var end := FinalState(p, e);
    R3Members(p, e);
  }

  /**
   A frozen manifest meets every suite floor, keeps the AgentDojo estimate within its budget, and is
   maximal: one more case of any suite that has one left would not fit.
   */
  lemma FrozenManifestIsMaximal(p: Plan, e: Estimates)
    requires Freeze(p, e).frozen
    ensures forall s <- p.suites :: CountIn(R2Selected(p, e), s) >= p.floor
    ensures EstimatedCost(e, R2Selected(p, e)) <= p.r2Main + TOLERANCE
    ensures forall s, item :: s in p.suites && item in SuiteCandidates(p, s) && item !in R2Selected(p, e) ==>
      EstimatedCost(e, R2Selected(p, e)) + R2Estimate(e, s) > p.r2Main + TOLERANCE
  {
    FrozenExactly(p, e);
    var end := FinalState(p, e);
    MaximalAtTheEnd(p, e, end);
  }

  lemma MaximalAtTheEnd(p: Plan, e: Estimates, end: State)
    requires Sound(p, e, end) && NothingDropped(p, end) && forall s :: !Eligible(p, e, end, s)
    ensures forall s <- p.suites :: CountIn(end.selected, s) >= p.floor
    ensures EstimatedCost(e, end.selected) <= p.r2Main + TOLERANCE
    ensures forall s, item :: s in p.suites && item in SuiteCandidates(p, s) && item !in end.selected ==>
      EstimatedCost(e, end.selected) + R2Estimate(e, s) > p.r2Main + TOLERANCE
  {
    forall s, item | s in p.suites && item in SuiteCandidates(p, s) && item !in end.selected
      ensures !Affordable(p, e, end, s)
    {
      assert item in end.remaining[s];
      assert !Eligible(p, e, end, s);
    }
  }

  /** No case is selected twice, exactly when no suite name is configured twice (or floors are zero). */
  lemma FrozenManifestRepeatsExactly(p: Plan, e: Estimates)
    requires Freeze(p, e).frozen && Distinct(p.universe)
    ensures Distinct(Freeze(p, e).selected) <==> p.floor == 0 || Distinct(p.suites)
  {
    FrozenExactly(p, e);
    var end := FinalState(p, e);
    R3Members(p, e);
    FrozenManifestMembers(p, e);
    DistinctConcat(R2Selected(p, e), R3Selected(p, e));
    FloorDistinct(p, e, |p.suites|);
    assert p.suites[..|p.suites|] == p.suites;
    if Distinct(R2Selected(p, e)) {
      PrefixDistinct(FloorSelected(p, e, |p.suites|), R2Selected(p, e));
    }
  }

  lemma PrefixDistinct<T>(a: seq<T>, b: seq<T>)
    requires a <= b && Distinct(b)
    ensures Distinct(a)
  {
    assert b == a + b[|a|..];
    DistinctConcat(a, b[|a|..]);
  }

  // ---------------------------------------------------------------- the code

  /** One scan over the suites for the next one to serve. */
  method ChooseSuite(p: Plan, e: Estimates, st: State) returns (chosen: Option<string>)
    ensures chosen == Next(p, e, st)
  {
    chosen := None;
    for i := 0 to |p.suites|
      invariant chosen == Choice(p, e, st, i)
    {
      var suite := p.suites[i];
      if Eligible(p, e, st, suite) && (chosen.None? || !Before(p, st, chosen.value, suite)) {
        chosen := Some(suite);
      }
    }
  }

  ghost predicate FloorPassed(p: Plan, e: Estimates, k: nat, errors: seq<Problem>, selected: seq<Item>, spent: real,
                              remaining: map<string, seq<Item>>)
    requires k <= |p.suites|
  {
    && errors == FloorErrors(p, e, k) && selected == FloorSelected(p, e, k) && spent == FloorCost(p, e, k)
    && remaining == FloorRest(p, e, p.suites[..k])
  }

  lemma FloorTaken(p: Plan, e: Estimates, k: nat)
    requires k < |p.suites| && FloorAvailable(p, e, p.suites[k])
    ensures FloorErrors(p, e, k + 1) == FloorErrors(p, e, k)
    ensures FloorSelected(p, e, k + 1) == FloorSelected(p, e, k) + SuiteCandidates(p, p.suites[k])[..p.floor]
    ensures FloorCost(p, e, k + 1) == FloorCost(p, e, k) + p.floor as real * R2Estimate(e, p.suites[k])
  {
  }

  lemma FloorMissing(p: Plan, e: Estimates, k: nat)
    requires k < |p.suites| && !FloorAvailable(p, e, p.suites[k])
    ensures FloorErrors(p, e, k + 1) == FloorErrors(p, e, k) + [FloorUnavailable(p.suites[k])]
    ensures FloorSelected(p, e, k + 1) == FloorSelected(p, e, k) && FloorCost(p, e, k + 1) == FloorCost(p, e, k)
  {
  }

  lemma FloorPassStep(p: Plan, e: Estimates, k: nat, errors: seq<Problem>, selected: seq<Item>, spent: real,
                      remaining: map<string, seq<Item>>)
    requires k < |p.suites| && FloorPassed(p, e, k, errors, selected, spent, remaining)
    ensures var suite := p.suites[k];
      if FloorAvailable(p, e, suite) then
        FloorPassed(p, e, k + 1, errors, selected + SuiteCandidates(p, suite)[..p.floor],
                    spent + p.floor as real * R2Estimate(e, suite),
                    remaining[suite := SuiteCandidates(p, suite)[p.floor..]])
      else FloorPassed(p, e, k + 1, errors + [FloorUnavailable(suite)], selected, spent, remaining)
  {
    assert p.suites[..k + 1] == p.suites[..k] + [p.suites[k]];
    FloorRestStep(p, e, p.suites[..k], p.suites[k]);
    if FloorAvailable(p, e, p.suites[k]) {
      FloorTaken(p, e, k);
    } else {
      FloorMissing(p, e, k);
    }
  }

  method FloorPass(p: Plan, e: Estimates) returns (errors: seq<Problem>, st: State)
    ensures errors == FloorErrors(p, e, |p.suites|) && st == Start(p, e)
  {
    errors := [];
    var selected, spent := [], 0.0;
    var remaining: map<string, seq<Item>> := map[];
    for i := 0 to |p.suites|
      invariant FloorPassed(p, e, i, errors, selected, spent, remaining)
    {
      var suite := p.suites[i];
      var cases := SuiteCandidates(p, suite);
      FloorPassStep(p, e, i, errors, selected, spent, remaining);
      if R2Estimate(e, suite) <= 0.0 || |cases| < p.floor {
        errors := errors + [FloorUnavailable(suite)];
      } else {
        selected := selected + cases[..p.floor];
        remaining := remaining[suite := cases[p.floor..]];
        spent := spent + p.floor as real * R2Estimate(e, suite);
      }
    }
    assert p.suites[..|p.suites|] == p.suites;
    st := State(spent, map s <- p.suites :: p.floor, remaining, selected);
  }

  method Allocate(p: Plan, e: Estimates, start: State) returns (st: State)
    ensures st == Finish(p, e, start)
  {
    st := start;
    var chosen := ChooseSuite(p, e, st);
    while chosen.Some?
      invariant chosen == Next(p, e, st)
      invariant Finish(p, e, st) == Finish(p, e, start)
      decreases Left(p, st, |p.suites|)
    {
      GiveShrinksLeft(p, e, st, chosen.value, |p.suites|);
      assert p.suites[..|p.suites|] == p.suites;
      st := Give(p, e, st, chosen.value);
      chosen := ChooseSuite(p, e, st);
    }
  }

  method ExpandJobs(selected: seq<Item>) returns (jobs: seq<Job>)
    ensures jobs == JobsOf(selected)
  {
    jobs := [];
    for i := 0 to |selected|
      invariant jobs == JobsOf(selected[..i])
    {
      assert selected[..i + 1][..i] == selected[..i];
      jobs := jobs + CaseJobs(selected[i]);
    }
    assert selected[..|selected|] == selected;
  }

  method FreezeSampleManifest(p: Plan, entries: seq<Entry>, jobId: Job -> string) returns (r: Result<Manifest, Item>)
    ensures r.Err? <==> exists item <- p.universe :: item.key in p.calibration && !IsMeasured(entries, jobId, item)
    ensures r.Ok? ==> exists e: Estimates :: IsEstimate(p, entries, jobId, e) && r.value == Freeze(p, e)
  {
    var measured := MeasurePrices(p, entries, jobId);
    if measured.Err? {
      return Err(measured.error);
    }
    var e := Conservative(p, measured.value);
    ConservativeIsEstimate(p, entries, jobId, measured.value);
    var errors, st := FloorPass(p, e);
    if st.spent > p.r2Main + TOLERANCE {
      errors := errors + [FloorExceedsBudget];
    }
    if errors == [] {
      st := Allocate(p, e, st);
    }
    var selected := st.selected;
    if e.r3 <= 0.0 {
      errors := errors + [R3CostUnavailable];
    } else {
      selected := selected + R3Selected(p, e);
    }
    if errors != [] {
      return Ok(Manifest(false, errors, [], []));
    }
    var jobs := ExpandJobs(selected);
    return Ok(Manifest(true, [], selected, jobs));
  }

  /** The key of place `i` did not occur before. */
  predicate IsFirst(jobs: seq<Item>, i: nat)
    requires i < |jobs|
  {
    forall k :: 0 <= k < i ==> jobs[k].key != jobs[i].key
  }

  /** `at` lists, in order, the places of the first case of every key. */
  predicate AreFirsts(jobs: seq<Item>, at: seq<nat>) {
    && (forall a, b :: 0 <= a < b < |at| ==> at[a] < at[b])
    && (forall a :: 0 <= a < |at| ==> at[a] < |jobs| && IsFirst(jobs, at[a]))
    && forall i :: 0 <= i < |jobs| && IsFirst(jobs, i) ==> i in at
  }

  function FirstPlaces(jobs: seq<Item>, n: nat): seq<nat>
    requires n <= |jobs|
  {
    if n == 0 then [] else FirstPlaces(jobs, n - 1) + if IsFirst(jobs, n - 1) then [n - 1] else []
  }

  lemma {:induction false} FirstPlacesBelow(jobs: seq<Item>, n: nat)
    requires n <= |jobs|
    ensures forall i <- FirstPlaces(jobs, n) :: i < n && IsFirst(jobs, i)
    ensures forall i :: 0 <= i < n && IsFirst(jobs, i) ==> i in FirstPlaces(jobs, n)
  {
    if n == 0 {
    } else {
      FirstPlacesBelow(jobs, n - 1);
    }
  }

  lemma FirstPlacesExact(jobs: seq<Item>)
    ensures AreFirsts(jobs, FirstPlaces(jobs, |jobs|))
  {
    var at := FirstPlaces(jobs, |jobs|);
    FirstPlacesBelow(jobs, |jobs|);
    FirstPlacesIncrease(jobs, |jobs|);
    forall a | 0 <= a < |at| ensures at[a] < |jobs| && IsFirst(jobs, at[a]) {
      assert at[a] in at;
    }
  }

  lemma {:induction false} FirstPlacesIncrease(jobs: seq<Item>, n: nat)
    requires n <= |jobs|
    ensures forall a, b :: 0 <= a < b < |FirstPlaces(jobs, n)| ==> FirstPlaces(jobs, n)[a] < FirstPlaces(jobs, n)[b]
  {
    if n == 0 {
    } else {
      FirstPlacesIncrease(jobs, n - 1);
      FirstPlacesBelow(jobs, n - 1);
      var before, at := FirstPlaces(jobs, n - 1), FirstPlaces(jobs, n);
      forall a, b | 0 <= a < b < |at| ensures at[a] < at[b] {
        assert before[a] in before;
      }
    }
  }

  /** `_unique_cases`: keeps the first case of every key, and no other, in their order. */
  method UniqueCases(jobs: seq<Item>) returns (cases: seq<Item>)
    ensures var at := FirstPlaces(jobs, |jobs|);
      AreFirsts(jobs, at) && |cases| == |at| && forall a :: 0 <= a < |at| ==> cases[a] == jobs[at[a]]
    ensures forall i, j :: 0 <= i < j < |cases| ==> cases[i].key != cases[j].key
    ensures (set c <- cases :: c.key) == (set j <- jobs :: j.key)
  {
    cases := [];
    var seen: set<string> := {};
    for i := 0 to |jobs|
      invariant seen == set j <- jobs[..i] :: j.key
      invariant seen == set c <- cases :: c.key
      invariant |cases| == |FirstPlaces(jobs, i)|
      invariant forall a :: 0 <= a < |cases| ==>
        FirstPlaces(jobs, i)[a] < i && cases[a] == jobs[FirstPlaces(jobs, i)[a]]
    {
      FirstMeansUnseen(jobs, i);
      assert jobs[..i + 1] == jobs[..i] + [jobs[i]];
      if jobs[i].key !in seen {
        seen := seen + {jobs[i].key};
        cases := cases + [jobs[i]];
      }
    }
    assert jobs[..|jobs|] == jobs;
    FirstPlacesExact(jobs);
    forall a, b | 0 <= a < b < |cases| ensures cases[a].key != cases[b].key {
      assert IsFirst(jobs, FirstPlaces(jobs, |jobs|)[b]);
    }
  }

  lemma FirstMeansUnseen(jobs: seq<Item>, i: nat)
    requires i < |jobs|
    ensures IsFirst(jobs, i) <==> jobs[i].key !in set j <- jobs[..i] :: j.key
  {
    var seen := set j <- jobs[..i] :: j.key;
    forall k | 0 <= k < i ensures jobs[k].key in seen {
      assert jobs[..i][k] == jobs[k];
    }
    if jobs[i].key in seen {
      var j :| j in jobs[..i] && j.key == jobs[i].key;
      var k :| 0 <= k < i && jobs[..i][k] == j;
    }
  }
}
