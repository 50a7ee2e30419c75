/**
 The stratified, budget-bounded sample allocator of scripts/run_r2_r3_acceptance.py: every AgentDojo
 suite first gets its floor of cases, then the least covered suite that is still affordable gets the
 next one, and InjecAgent cases fill a budget of their own.
 */
module SampleAllocator {
  import opened Common
  import opened BudgetLedger

  datatype Benchmark = AgentDojo | InjecAgent

  /** A case; InjecAgent cases all belong to the stratum "ds/base". */
  datatype Item = Item(benchmark: Benchmark, stratum: string, key: string)

  datatype Arm = Baseline | Defended

  datatype Job = Job(item: Item, arm: Arm)

  datatype Plan = Plan(
    universe: seq<Item>, calibration: set<string>, suites: seq<string>,
    floor: nat, r2Main: real, r3Main: real, multiplier: real)

  /** The conservative price of one pair of jobs, by suite and for InjecAgent. */
  datatype Estimates = Estimates(r2: map<string, real>, r3: real)

  datatype Problem = FloorUnavailable(suite: string) | FloorExceedsBudget | R3CostUnavailable

  datatype Manifest = Manifest(frozen: bool, errors: seq<Problem>, selected: seq<Item>, jobs: seq<Job>)

  /** Progress of the allocation loop. */
  datatype State = State(
    spent: real, counts: map<string, nat>, remaining: map<string, seq<Item>>, selected: seq<Item>)

  // ---------------------------------------------------------------- order of the suites

  function Ratio(count: int, size: nat): real {
    if size == 0 then 0.0 else count as real / size as real
  }

  lemma RatioMonotone(a: int, b: int, size: nat)
    requires a <= b
    ensures Ratio(a, size) <= Ratio(b, size)
  {
    if size > 0 {
      var d := (b - a) as real / size as real;
      assert Ratio(b, size) == Ratio(a, size) + d;
    }
  }

  // ---------------------------------------------------------------- the allocation

  function Candidates(p: Plan, universe: seq<Item>, benchmark: Benchmark, stratum: Option<string>): seq<Item> {
    if universe == [] then []
    else
      var n := |universe| - 1;
      var item := universe[n];
      Candidates(p, universe[..n], benchmark, stratum)
      + if item.benchmark == benchmark && (stratum == None || stratum == Some(item.stratum))
        && item.key !in p.calibration
        then [item] else []
  }

  function SuiteCandidates(p: Plan, suite: string): seq<Item> {
    Candidates(p, p.universe, AgentDojo, Some(suite))
  }

  function SuiteSize(universe: seq<Item>, suite: string): nat {
    if universe == [] then 0
    else
      var item := universe[|universe| - 1];
      SuiteSize(universe[..|universe| - 1], suite) + if item.benchmark.AgentDojo? && item.stratum == suite then 1 else 0
  }

  function R2Estimate(e: Estimates, suite: string): real {
    if suite in e.r2 then e.r2[suite] else 0.0
  }

  predicate FloorAvailable(p: Plan, e: Estimates, suite: string) {
    R2Estimate(e, suite) > 0.0 && |SuiteCandidates(p, suite)| >= p.floor
  }

  // The floor pass over the first `k` suites. A suite whose floor is unavailable is an error.

  function FloorErrors(p: Plan, e: Estimates, k: nat): seq<Problem>
    requires k <= |p.suites|
  {
    if k == 0 then []
    else
      FloorErrors(p, e, k - 1)
      + if FloorAvailable(p, e, p.suites[k - 1]) then [] else [FloorUnavailable(p.suites[k - 1])]
  }

  function FloorCost(p: Plan, e: Estimates, k: nat): real
    requires k <= |p.suites|
  {
    if k == 0 then 0.0
    else
      var suite := p.suites[k - 1];
      FloorCost(p, e, k - 1) + if FloorAvailable(p, e, suite) then p.floor as real * R2Estimate(e, suite) else 0.0
  }

  function FloorSelected(p: Plan, e: Estimates, k: nat): seq<Item>
    requires k <= |p.suites|
  {
    if k == 0 then []
    else
      var suite := p.suites[k - 1];
      FloorSelected(p, e, k - 1) + if FloorAvailable(p, e, suite) then Floor(p, suite) else []
  }

  function Floor(p: Plan, suite: string): seq<Item> {
    SliceTo(SuiteCandidates(p, suite), p.floor)
  }

  /** What the floor pass leaves on offer in the given suites. */
  function FloorRest(p: Plan, e: Estimates, suites: seq<string>): map<string, seq<Item>> {
    map s <- suites | FloorAvailable(p, e, s) :: SuiteCandidates(p, s)[p.floor..]
  }

  lemma FloorRestStep(p: Plan, e: Estimates, suites: seq<string>, suite: string)
    ensures FloorRest(p, e, suites + [suite])
         == if FloorAvailable(p, e, suite) then FloorRest(p, e, suites)[suite := SuiteCandidates(p, suite)[p.floor..]]
            else FloorRest(p, e, suites)
  {
  }

  /** The state in which the allocation loop starts. */
  function Start(p: Plan, e: Estimates): State {
    State(FloorCost(p, e, |p.suites|),
          map s <- p.suites :: p.floor,
          FloorRest(p, e, p.suites),
          FloorSelected(p, e, |p.suites|))
  }

  predicate Affordable(p: Plan, e: Estimates, st: State, suite: string) {
    st.spent + R2Estimate(e, suite) <= p.r2Main + TOLERANCE
  }

  /** The suite has candidates left and one more of them fits the budget. */
  predicate Eligible(p: Plan, e: Estimates, st: State, suite: string) {
    && suite in p.suites && suite in st.remaining && st.remaining[suite] != [] && suite in st.counts
    && Affordable(p, e, st, suite)
  }

  function Coverage(p: Plan, st: State, suite: string): real
    requires suite in st.counts
  {
    Ratio(st.counts[suite], SuiteSize(p.universe, suite))
  }

  /** The sort key of the loop: coverage first, then the suite's name. */
  predicate Before(p: Plan, st: State, s: string, t: string)
    requires s in st.counts && t in st.counts
  {
    || Coverage(p, st, s) < Coverage(p, st, t)
    || (Coverage(p, st, s) == Coverage(p, st, t) && LexLe(s, t))
  }

  /** The eligible suite among the first `k` that comes first in the sort order. */
  function Choice(p: Plan, e: Estimates, st: State, k: nat): (r: Option<string>)
    requires k <= |p.suites|
    ensures r.Some? ==> Eligible(p, e, st, r.value)
  {
    if k == 0 then None
    else
      var best := Choice(p, e, st, k - 1);
      var suite := p.suites[k - 1];
      if Eligible(p, e, st, suite) && (best.None? || !Before(p, st, best.value, suite)) then Some(suite) else best
  }

  function Next(p: Plan, e: Estimates, st: State): Option<string> {
    Choice(p, e, st, |p.suites|)
  }

  function Give(p: Plan, e: Estimates, st: State, suite: string): State
    requires Eligible(p, e, st, suite)
  {
    State(st.spent + R2Estimate(e, suite),
          st.counts[suite := st.counts[suite] + 1],
          st.remaining[suite := st.remaining[suite][1..]],
          st.selected + [st.remaining[suite][0]])
  }

  /** The state at the head of the loop after `n` rounds (or when the loop has already ended). */
  function After(p: Plan, e: Estimates, st: State, n: nat): State {
    if n == 0 then st
    else
      Round(p, e, After(p, e, st, n - 1))
  }

  /** One turn of the loop; nothing changes once no suite is eligible. */
  function Round(p: Plan, e: Estimates, st: State): State {
    var next := Next(p, e, st);
    if next.None? then st else Give(p, e, st, next.value)
  }

  // ---------------------------------------------------------------- which suite a round takes

  lemma {:induction false} ChoiceIsFirst(p: Plan, e: Estimates, st: State, k: nat)
    requires k <= |p.suites|
    ensures Choice(p, e, st, k).None? ==> forall i :: 0 <= i < k ==> !Eligible(p, e, st, p.suites[i])
    ensures Choice(p, e, st, k).Some? ==>
      forall i :: 0 <= i < k && Eligible(p, e, st, p.suites[i])
        ==> Before(p, st, Choice(p, e, st, k).value, p.suites[i])
  {
    if k == 0 {
    } else {
      ChoiceIsFirst(p, e, st, k - 1);
      var best, r, suite := Choice(p, e, st, k - 1), Choice(p, e, st, k), p.suites[k - 1];
      if r.Some? {
        forall i | 0 <= i < k && Eligible(p, e, st, p.suites[i]) ensures Before(p, st, r.value, p.suites[i]) {
          LexTotal(r.value, p.suites[i]);
          if i < k - 1 && r != best {
            LexTotal(best.value, suite);
            BeforeTransitive(p, st, suite, best.value, p.suites[i]);
          }
        }
      }
    }
  }

  lemma BeforeTransitive(p: Plan, st: State, a: string, b: string, c: string)
    requires a in st.counts && b in st.counts && c in st.counts
    requires Before(p, st, a, b) && Before(p, st, b, c)
    ensures Before(p, st, a, c)
  {
    if Coverage(p, st, a) == Coverage(p, st, b) == Coverage(p, st, c) {
      LexTransitive(a, b, c);
    }
  }

  /**
   The source sorts the suites that have candidates left and takes the first affordable one. Any
   sorted list of those suites gives the same choice.
   */
  lemma SortedScanAgrees(p: Plan, e: Estimates, st: State, options: seq<string>)
    requires forall s :: s in options <==> s in p.suites && s in st.remaining && st.remaining[s] != []
    requires forall s <- options :: s in st.counts
    requires forall i, j :: 0 <= i < j < |options| ==> Before(p, st, options[i], options[j])
    ensures Next(p, e, st).None? <==> forall s <- options :: !Affordable(p, e, st, s)
    ensures forall i :: 0 <= i < |options| && Affordable(p, e, st, options[i])
              && (forall j :: 0 <= j < i ==> !Affordable(p, e, st, options[j]))
              ==> Next(p, e, st) == Some(options[i])
  {
    ChoiceIsFirst(p, e, st, |p.suites|);
    var next := Next(p, e, st);
    forall i | 0 <= i < |options| && Affordable(p, e, st, options[i])
             && (forall j :: 0 <= j < i ==> !Affordable(p, e, st, options[j]))
      ensures next == Some(options[i])
    {
      assert Eligible(p, e, st, options[i]);
      var j :| 0 <= j < |options| && options[j] == next.value;
      LexTotal(options[i], options[j]);
    }
  }

  // ---------------------------------------------------------------- what every round keeps

  function EstimatedCost(e: Estimates, items: seq<Item>): real {
    if items == [] then 0.0
    else EstimatedCost(e, items[..|items| - 1]) + R2Estimate(e, items[|items| - 1].stratum)
  }

  function CountIn(items: seq<Item>, suite: string): nat {
    if items == [] then 0
    else CountIn(items[..|items| - 1], suite) + if items[|items| - 1].stratum == suite then 1 else 0
  }

  predicate FromUniverse(p: Plan, item: Item) {
    item in p.universe && item.key !in p.calibration
  }

  predicate CountsSound(p: Plan, st: State) {
    forall s <- p.suites ::
      s in st.counts && s in st.remaining && st.counts[s] >= p.floor && CountIn(st.selected, s) >= st.counts[s]
  }

  predicate TakenSound(p: Plan, st: State) {
    forall item <- st.selected :: FromUniverse(p, item) && item.benchmark.AgentDojo? && item.stratum in p.suites
  }

  predicate OffersSound(p: Plan, st: State) {
    forall s, item :: s in p.suites && s in st.remaining && item in st.remaining[s] ==>
      FromUniverse(p, item) && item.benchmark.AgentDojo? && item.stratum == s
  }

  /** Holds whatever the configured suite names are, repeated ones included. */
  predicate Sound(p: Plan, e: Estimates, st: State) {
    && CountsSound(p, st) && TakenSound(p, st) && OffersSound(p, st)
    && (forall s <- p.suites :: R2Estimate(e, s) > 0.0)
    && st.spent == EstimatedCost(e, st.selected)
    && st.spent <= p.r2Main + TOLERANCE
  }

  /** No case is taken twice, and none that is still on offer has been taken. */
  predicate Fresh(p: Plan, st: State) {
    && Distinct(st.selected)
    && forall s :: s in p.suites && s in st.remaining ==>
         Distinct(st.remaining[s]) && forall item <- st.remaining[s] :: item !in st.selected
  }

  /** Every candidate has been taken or is still on offer. */
  predicate NothingDropped(p: Plan, st: State) {
    forall s, item :: s in p.suites && item in SuiteCandidates(p, s) ==>
      item in st.selected || (s in st.remaining && item in st.remaining[s])
  }

  /** No suite was raised above its floor while one with less coverage was left waiting. */
  ghost predicate Fair(p: Plan, e: Estimates, st: State) {
    forall s, t :: s in p.suites && s in st.counts && st.counts[s] > p.floor && Eligible(p, e, st, t) ==>
      Ratio(st.counts[s] - 1, SuiteSize(p.universe, s)) <= Coverage(p, st, t)
  }

  lemma DistinctAppend<T>(s: seq<T>, x: T)
    requires Distinct(s) && x !in s
    ensures Distinct(s + [x])
  {
  }

  lemma AppendFacts(e: Estimates, items: seq<Item>, item: Item, suite: string)
    ensures EstimatedCost(e, items + [item]) == EstimatedCost(e, items) + R2Estimate(e, item.stratum)
    ensures CountIn(items + [item], suite) == CountIn(items, suite) + if item.stratum == suite then 1 else 0
  {
    assert (items + [item])[..|items|] == items;
  }

  lemma {:induction false} ConcatFacts(e: Estimates, a: seq<Item>, b: seq<Item>, suite: string)
    ensures EstimatedCost(e, a + b) == EstimatedCost(e, a) + EstimatedCost(e, b)
    ensures CountIn(a + b, suite) == CountIn(a, suite) + CountIn(b, suite)
  {
    if b == [] {
      assert a + b == a;
    } else {
      var n := |b| - 1;
      ConcatFacts(e, a, b[..n], suite);
      assert b == b[..n] + [b[n]];
      assert a + (b[..n] + [b[n]]) == (a + b[..n]) + [b[n]];
      AppendFacts(e, a + b[..n], b[n], suite);
    }
  }

  lemma GiveKeepsSound(p: Plan, e: Estimates, st: State, suite: string)
    requires Sound(p, e, st) && Eligible(p, e, st, suite)
    ensures Sound(p, e, Give(p, e, st, suite))
  {
    GiveKeepsCounts(p, e, st, suite);
    GiveKeepsOffers(p, e, st, suite);
    AppendFacts(e, st.selected, st.remaining[suite][0], suite);
  }

  lemma GiveKeepsCounts(p: Plan, e: Estimates, st: State, suite: string)
    requires CountsSound(p, st) && Eligible(p, e, st, suite) && OffersSound(p, st)
    ensures CountsSound(p, Give(p, e, st, suite))
  {
    var st', item := Give(p, e, st, suite), st.remaining[suite][0];
    assert item in st.remaining[suite];
    forall s <- p.suites ensures CountIn(st'.selected, s) >= st'.counts[s] {
      AppendFacts(e, st.selected, item, s);
    }
  }

  lemma GiveKeepsOffers(p: Plan, e: Estimates, st: State, suite: string)
    requires TakenSound(p, st) && OffersSound(p, st) && Eligible(p, e, st, suite)
    ensures TakenSound(p, Give(p, e, st, suite)) && OffersSound(p, Give(p, e, st, suite))
    ensures st.remaining[suite][0].stratum == suite
  {
    var st', item := Give(p, e, st, suite), st.remaining[suite][0];
    assert item in st.remaining[suite];
    forall s, i | s in p.suites && s in st'.remaining && i in st'.remaining[s] ensures i in st.remaining[s] {
    }
  }

  lemma GiveKeepsFresh(p: Plan, e: Estimates, st: State, suite: string)
    requires Sound(p, e, st) && Eligible(p, e, st, suite)
    ensures Fresh(p, st) ==> Fresh(p, Give(p, e, st, suite))
    ensures NothingDropped(p, st) ==> NothingDropped(p, Give(p, e, st, suite))
  {
    var st', item := Give(p, e, st, suite), st.remaining[suite][0];
    assert st.remaining[suite] == [item] + st.remaining[suite][1..];
    if Fresh(p, st) {
      DistinctAppend(st.selected, item);
      forall s | s in p.suites && s in st'.remaining
        ensures Distinct(st'.remaining[s]) && forall i <- st'.remaining[s] :: i !in st'.selected
      {
        forall i <- st'.remaining[s] ensures i !in st'.selected {
          assert i in st.remaining[s] && i.stratum == s && item.stratum == suite;
          if s == suite {
            var k :| 0 <= k < |st'.remaining[s]| && st'.remaining[s][k] == i;
            assert st.remaining[s][k + 1] == i && st.remaining[s][0] == item;
          }
        }
      }
    }
  }

  /** Once a suite is out of candidates or money it stays so. */
  lemma EligibleBefore(p: Plan, e: Estimates, st: State, suite: string, t: string)
    requires Eligible(p, e, st, suite) && R2Estimate(e, suite) > 0.0
    requires Eligible(p, e, Give(p, e, st, suite), t)
    ensures Eligible(p, e, st, t) && st.counts[t] <= Give(p, e, st, suite).counts[t]
  {
  }

  lemma GiveKeepsFair(p: Plan, e: Estimates, st: State, suite: string)
    requires Sound(p, e, st) && Fair(p, e, st) && Next(p, e, st) == Some(suite)
    ensures Fair(p, e, Give(p, e, st, suite))
  {
    var st' := Give(p, e, st, suite);
    forall s, t | s in p.suites && s in st'.counts && st'.counts[s] > p.floor && Eligible(p, e, st', t)
      ensures Ratio(st'.counts[s] - 1, SuiteSize(p.universe, s)) <= Coverage(p, st', t)
    {
      EligibleBefore(p, e, st, suite, t);
      FairPair(p, e, st, suite, s, t);
      RatioMonotone(st.counts[t], st'.counts[t], SuiteSize(p.universe, t));
    }
  }

  lemma FairPair(p: Plan, e: Estimates, st: State, suite: string, s: string, t: string)
    requires Fair(p, e, st) && Next(p, e, st) == Some(suite)
    requires s in p.suites && s in st.counts && Eligible(p, e, st, t)
    requires s != suite ==> st.counts[s] > p.floor
    ensures Ratio(if s == suite then st.counts[s] else st.counts[s] - 1, SuiteSize(p.universe, s)) <= Coverage(p, st, t)
  {
    if s == suite {
      ChoiceIsFirst(p, e, st, |p.suites|);
      assert Before(p, st, s, t);
    }
  }

  /**
   At every loop head: the counts, costs and remaining candidates are consistent, no case has been
   taken twice or lost, and the allocation is fair to every suite that could still be served.
   */
  lemma {:induction false} EveryRoundIsFair(p: Plan, e: Estimates, st: State, n: nat)
    requires Sound(p, e, st) && Fair(p, e, st)
    ensures var st' := After(p, e, st, n);
      && Sound(p, e, st') && Fair(p, e, st')
      && (Fresh(p, st) ==> Fresh(p, st'))
      && (NothingDropped(p, st) ==> NothingDropped(p, st'))
      && st.selected <= st'.selected
  {
    if n == 0 {
    } else {
      EveryRoundIsFair(p, e, st, n - 1);
      RoundKeeps(p, e, After(p, e, st, n - 1));
    }
  }

  lemma RoundKeeps(p: Plan, e: Estimates, st: State)
    requires Sound(p, e, st) && Fair(p, e, st)
    ensures var st' := Round(p, e, st);
      && Sound(p, e, st') && Fair(p, e, st')
      && (Fresh(p, st) ==> Fresh(p, st'))
      && (NothingDropped(p, st) ==> NothingDropped(p, st'))
      && st.selected <= st'.selected
  {
    var next := Next(p, e, st);
    if next.Some? {
      GiveKeeps(p, e, st, next.value);
    }
  }

  lemma GiveKeeps(p: Plan, e: Estimates, st: State, suite: string)
    requires Sound(p, e, st) && Fair(p, e, st) && Next(p, e, st) == Some(suite)
    ensures Sound(p, e, Give(p, e, st, suite)) && Fair(p, e, Give(p, e, st, suite))
    ensures Fresh(p, st) ==> Fresh(p, Give(p, e, st, suite))
    ensures NothingDropped(p, st) ==> NothingDropped(p, Give(p, e, st, suite))
  {
    GiveKeepsSound(p, e, st, suite);
    GiveKeepsFresh(p, e, st, suite);
    GiveKeepsFair(p, e, st, suite);
  }

  // ---------------------------------------------------------------- the order within a suite

  /** The cases of a suite in a selection, in order. */
  function OfSuite(items: seq<Item>, suite: string): seq<Item> {
    if items == [] then []
    else
      var n := |items| - 1;
      OfSuite(items[..n], suite) + if items[n].stratum == suite then [items[n]] else []
  }

  /** The cases that the loop has added after the floors. */
  function Added(p: Plan, e: Estimates, st: State): seq<Item>
    requires FloorSelected(p, e, |p.suites|) <= st.selected
  {
    st.selected[|FloorSelected(p, e, |p.suites|)|..]
  }

  /**
   Behind the floors every suite has taken its candidates from the front, without a gap, and its
   count grew by one with each of them.
   */
  ghost predicate InOrder(p: Plan, e: Estimates, st: State) {
    && FloorSelected(p, e, |p.suites|) <= st.selected
    && forall s <- p.suites ::
         && |SuiteCandidates(p, s)| >= p.floor && s in st.counts && s in st.remaining
         && OfSuite(Added(p, e, st), s) + st.remaining[s] == SuiteCandidates(p, s)[p.floor..]
         && st.counts[s] == p.floor + |OfSuite(Added(p, e, st), s)|
  }

  lemma StartIsInOrder(p: Plan, e: Estimates)
    requires AllFloorsAvailable(p, e)
    ensures InOrder(p, e, Start(p, e))
  {
    var st := Start(p, e);
    assert Added(p, e, st) == [];
    forall s <- p.suites ensures s in st.remaining && st.remaining[s] == SuiteCandidates(p, s)[p.floor..] {
      assert FloorAvailable(p, e, s);
    }
  }

  lemma GiveAdds(p: Plan, e: Estimates, st: State, suite: string)
    requires FloorSelected(p, e, |p.suites|) <= st.selected && Eligible(p, e, st, suite)
    ensures FloorSelected(p, e, |p.suites|) <= Give(p, e, st, suite).selected
    ensures Added(p, e, Give(p, e, st, suite)) == Added(p, e, st) + [st.remaining[suite][0]]
  {
  }

  lemma OfSuiteAppend(items: seq<Item>, item: Item, suite: string)
    ensures OfSuite(items + [item], suite) == OfSuite(items, suite) + if item.stratum == suite then [item] else []
  {
    assert (items + [item])[..|items|] == items;
  }

  lemma TakeFirst(taken: seq<Item>, rest: seq<Item>)
    requires rest != []
    ensures (taken + [rest[0]]) + rest[1..] == taken + rest
  {
  }

  lemma GiveKeepsInOrder(p: Plan, e: Estimates, st: State, suite: string)
    requires InOrder(p, e, st) && OffersSound(p, st) && Eligible(p, e, st, suite)
    ensures InOrder(p, e, Give(p, e, st, suite))
  {
    var st', item, before := Give(p, e, st, suite), st.remaining[suite][0], Added(p, e, st);
    assert item in st.remaining[suite];
    GiveAdds(p, e, st, suite);
    forall s <- p.suites
      ensures OfSuite(before + [item], s) + st'.remaining[s] == SuiteCandidates(p, s)[p.floor..]
      ensures st'.counts[s] == p.floor + |OfSuite(before + [item], s)|
    {
      OfSuiteAppend(before, item, s);
      if s == suite {
        TakeFirst(OfSuite(before, s), st.remaining[s]);
      }
    }
  }

  lemma RoundKeepsInOrder(p: Plan, e: Estimates, st: State)
    requires InOrder(p, e, st) && OffersSound(p, st)
    ensures InOrder(p, e, Round(p, e, st))
  {
    var next := Next(p, e, st);
    if next.Some? {
      GiveKeepsInOrder(p, e, st, next.value);
    }
  }

  lemma StateIsSound(p: Plan, e: Estimates, n: nat)
    requires AllFloorsAvailable(p, e) && FloorCost(p, e, |p.suites|) <= p.r2Main + TOLERANCE
    ensures OffersSound(p, After(p, e, Start(p, e), n))
  {
    StartIsSound(p, e);
    EveryRoundIsFair(p, e, Start(p, e), n);
  }

  /** At every loop head the suites have been served in the order of the universe. */
  lemma {:induction false} ServedInOrder(p: Plan, e: Estimates, n: nat)
    requires AllFloorsAvailable(p, e) && FloorCost(p, e, |p.suites|) <= p.r2Main + TOLERANCE
    ensures InOrder(p, e, After(p, e, Start(p, e), n))
  {
    if n == 0 {
      StartIsInOrder(p, e);
    } else {
      ServedInOrder(p, e, n - 1);
      StateIsSound(p, e, n - 1);
      RoundKeepsInOrder(p, e, After(p, e, Start(p, e), n - 1));
    }
  }

  // ---------------------------------------------------------------- the end of the loop

  /** Candidates still on offer in the first `k` suites. */
  function Left(p: Plan, st: State, k: nat): nat
    requires k <= |p.suites|
  {
    if k == 0 then 0
    else Left(p, st, k - 1) + if p.suites[k - 1] in st.remaining then |st.remaining[p.suites[k - 1]]| else 0
  }

  lemma {:induction false} GiveShrinksLeft(p: Plan, e: Estimates, st: State, suite: string, k: nat)
    requires k <= |p.suites| && Eligible(p, e, st, suite)
    ensures Left(p, Give(p, e, st, suite), k) <= Left(p, st, k)
    ensures suite in p.suites[..k] ==> Left(p, Give(p, e, st, suite), k) < Left(p, st, k)
  {
    if k == 0 {
    } else {
      GiveShrinksLeft(p, e, st, suite, k - 1);
      assert p.suites[..k] == p.suites[..k - 1] + [p.suites[k - 1]];
    }
  }

  /** Rounds until no suite is eligible; every round uses up a candidate. */
  function Finish(p: Plan, e: Estimates, st: State): State
    decreases Left(p, st, |p.suites|)
  {
    var next := Next(p, e, st);
    if next.None? then st
    else
      GiveShrinksLeft(p, e, st, next.value, |p.suites|);
      assert p.suites[..|p.suites|] == p.suites;
      Finish(p, e, Give(p, e, st, next.value))
  }

  lemma {:induction false} AfterOneMore(p: Plan, e: Estimates, st: State, suite: string, n: nat)
    requires Next(p, e, st) == Some(suite)
    ensures After(p, e, st, n + 1) == After(p, e, Give(p, e, st, suite), n)
  {
    if n > 0 {
      AfterOneMore(p, e, st, suite, n - 1);
    } else {
      assert After(p, e, st, 0) == st;
    }
  }

  lemma {:induction false} FinishIsSomeRound(p: Plan, e: Estimates, st: State) returns (n: nat)
    ensures Finish(p, e, st) == After(p, e, st, n)
    ensures forall s :: !Eligible(p, e, Finish(p, e, st), s)
    decreases Left(p, st, |p.suites|)
  {
    var next := Next(p, e, st);
    if next.None? {
      n := 0;
      ChoiceIsFirst(p, e, st, |p.suites|);
    } else {
      GiveShrinksLeft(p, e, st, next.value, |p.suites|);
      assert p.suites[..|p.suites|] == p.suites;
      n := FinishIsSomeRound(p, e, Give(p, e, st, next.value));
      AfterOneMore(p, e, st, next.value, n);
      n := n + 1;
    }
  }

  // ---------------------------------------------------------------- the floor pass

  /** Candidates come in the order of the universe. */
  lemma {:induction false} CandidatesInOrder(p: Plan, universe: seq<Item>, benchmark: Benchmark,
                                             stratum: Option<string>, i: nat, j: nat)
    requires i < j < |Candidates(p, universe, benchmark, stratum)|
    ensures var found := Candidates(p, universe, benchmark, stratum);
      exists a, b :: 0 <= a < b < |universe| && universe[a] == found[i] && universe[b] == found[j]
  {
    var n := |universe| - 1;
    var before := Candidates(p, universe[..n], benchmark, stratum);
    if j < |before| {
      CandidatesInOrder(p, universe[..n], benchmark, stratum, i, j);
      var a, b :| 0 <= a < b < n && universe[..n][a] == before[i] && universe[..n][b] == before[j];
      assert universe[a] == before[i] && universe[b] == before[j];
    } else {
      CandidatesExact(p, universe[..n], benchmark, stratum);
      assert before[i] in before;
      var a :| 0 <= a < n && universe[..n][a] == before[i];
      assert universe[a] == before[i] && universe[n] == Candidates(p, universe, benchmark, stratum)[j];
    }
  }

  /** The places of the universe that belong to a suite, and those of them that are on offer. */
  function SuitePlaces(universe: seq<Item>, suite: string): set<nat> {
    set i: nat | i < |universe| && universe[i].benchmark == AgentDojo && universe[i].stratum == suite
  }

  function OfferedPlaces(universe: seq<Item>, suite: string, calibration: set<string>): set<nat> {
    set i: nat | i < |universe| && universe[i].benchmark == AgentDojo && universe[i].stratum == suite
              && universe[i].key !in calibration
  }

  /** Sizes and candidates count places of the universe, each once. */
  lemma {:induction false} SizesArePlaces(p: Plan, universe: seq<Item>, suite: string)
    ensures SuiteSize(universe, suite) == |SuitePlaces(universe, suite)|
    ensures |Candidates(p, universe, AgentDojo, Some(suite))| == |OfferedPlaces(universe, suite, p.calibration)|
  {
    if universe == [] {
    } else {
      var n := |universe| - 1;
      var item := universe[n];
      var inSuite := item.benchmark == AgentDojo && item.stratum == suite;
      SizesArePlaces(p, universe[..n], suite);
      OneMorePlace(SuitePlaces(universe[..n], suite), SuitePlaces(universe, suite), n, inSuite);
      OneMorePlace(OfferedPlaces(universe[..n], suite, p.calibration), OfferedPlaces(universe, suite, p.calibration), n,
                   inSuite && item.key !in p.calibration);
    }
  }

  /** A suite with a case on offer is not empty, so its coverage is a quotient. */
  lemma OfferedSuiteHasSize(p: Plan, st: State, suite: string)
    requires OffersSound(p, st) && suite in p.suites && suite in st.remaining && st.remaining[suite] != []
    ensures SuiteSize(p.universe, suite) > 0
  {
    var item := st.remaining[suite][0];
    assert item in st.remaining[suite] && FromUniverse(p, item);
    var i :| 0 <= i < |p.universe| && p.universe[i] == item;
    assert i in SuitePlaces(p.universe, suite);
    SizesArePlaces(p, p.universe, suite);
  }

  /** A floor is available exactly if the suite has a positive price and enough cases on offer. */
  lemma FloorsExactly(p: Plan, e: Estimates)
    ensures AllFloorsAvailable(p, e) <==>
      forall s <- p.suites ::
        s in e.r2 && e.r2[s] > 0.0 && |OfferedPlaces(p.universe, s, p.calibration)| >= p.floor
  {
    forall s <- p.suites ensures |SuiteCandidates(p, s)| == |OfferedPlaces(p.universe, s, p.calibration)| {
      SizesArePlaces(p, p.universe, s);
    }
  }

  lemma {:induction false} CandidatesExact(p: Plan, universe: seq<Item>, benchmark: Benchmark, stratum: Option<string>)
    ensures forall item :: item in Candidates(p, universe, benchmark, stratum) <==>
      item in universe && item.benchmark == benchmark && (stratum == None || stratum == Some(item.stratum))
      && item.key !in p.calibration
    ensures Distinct(universe) ==> Distinct(Candidates(p, universe, benchmark, stratum))
  {
    if universe == [] {
    } else {
      var n := |universe| - 1;
      CandidatesExact(p, universe[..n], benchmark, stratum);
      assert universe == universe[..n] + [universe[n]];
      if Distinct(universe) {
        assert universe[n] !in universe[..n];
        if |Candidates(p, universe, benchmark, stratum)| > |Candidates(p, universe[..n], benchmark, stratum)| {
          DistinctAppend(Candidates(p, universe[..n], benchmark, stratum), universe[n]);
        }
      }
    }
  }

  lemma {:induction false} UniformCost(e: Estimates, items: seq<Item>, suite: string)
    requires forall item <- items :: item.stratum == suite
    ensures EstimatedCost(e, items) == |items| as real * R2Estimate(e, suite)
    ensures CountIn(items, suite) == |items|
  {
    if items == [] {
    } else {
      var n := |items| - 1;
      UniformCost(e, items[..n], suite);
    }
  }

  predicate AllFloorsAvailable(p: Plan, e: Estimates) {
    forall s <- p.suites :: FloorAvailable(p, e, s)
  }

  lemma {:induction false} FloorErrorsExact(p: Plan, e: Estimates, k: nat)
    requires k <= |p.suites|
    ensures FloorErrors(p, e, k) == [] <==> forall s <- p.suites[..k] :: FloorAvailable(p, e, s)
  {
    if k == 0 {
    } else {
      FloorErrorsExact(p, e, k - 1);
      assert p.suites[..k] == p.suites[..k - 1] + [p.suites[k - 1]];
    }
  }

  /** The suites that are reported are those whose floor is unavailable. */
  lemma {:induction false} FloorErrorsName(p: Plan, e: Estimates, k: nat, x: Problem)
    requires k <= |p.suites|
    ensures x in FloorErrors(p, e, k) <==>
      x.FloorUnavailable? && x.suite in p.suites[..k] && !FloorAvailable(p, e, x.suite)
  {
    if k > 0 {
      FloorErrorsName(p, e, k - 1, x);
      assert p.suites[..k] == p.suites[..k - 1] + [p.suites[k - 1]];
    }
  }

  lemma FloorMembers(p: Plan, suite: string)
    requires |SuiteCandidates(p, suite)| >= p.floor
    ensures forall item <- Floor(p, suite) ::
      FromUniverse(p, item) && item.benchmark.AgentDojo? && item.stratum == suite
    ensures Distinct(p.universe) ==> Distinct(Floor(p, suite)) && Distinct(SuiteCandidates(p, suite)[p.floor..])
    ensures Distinct(p.universe) ==> forall item <- SuiteCandidates(p, suite)[p.floor..] :: item !in Floor(p, suite)
  {
    var cases := SuiteCandidates(p, suite);
    CandidatesExact(p, p.universe, AgentDojo, Some(suite));
    assert cases == Floor(p, suite) + cases[p.floor..];
    if Distinct(p.universe) {
      DistinctConcat(Floor(p, suite), cases[p.floor..]);
    }
  }

  lemma FloorPrice(p: Plan, e: Estimates, suite: string)
    requires FloorAvailable(p, e, suite)
    ensures EstimatedCost(e, Floor(p, suite)) == p.floor as real * R2Estimate(e, suite)
  {
    FloorMembers(p, suite);
    UniformCost(e, Floor(p, suite), suite);
    assert |Floor(p, suite)| == p.floor;
  }

  lemma {:induction false} FloorCostStep(p: Plan, e: Estimates, k: nat)
    requires 0 < k <= |p.suites| && FloorAvailable(p, e, p.suites[k - 1])
    ensures FloorCost(p, e, k) == FloorCost(p, e, k - 1) + EstimatedCost(e, Floor(p, p.suites[k - 1]))
  {
    FloorPrice(p, e, p.suites[k - 1]);
  }

  lemma {:induction false} FloorCostMatches(p: Plan, e: Estimates, k: nat)
    requires k <= |p.suites| && AllFloorsAvailable(p, e)
    ensures FloorCost(p, e, k) == EstimatedCost(e, FloorSelected(p, e, k))
  {
    if k == 0 {
    } else {
      var last := p.suites[k - 1];
      FloorCostMatches(p, e, k - 1);
      assert FloorAvailable(p, e, last);
      assert EstimatedCost(e, FloorSelected(p, e, k))
          == EstimatedCost(e, FloorSelected(p, e, k - 1)) + EstimatedCost(e, Floor(p, last)) by {
        ConcatFacts(e, FloorSelected(p, e, k - 1), Floor(p, last), last);
      }
      FloorCostStep(p, e, k);
    }
  }

  lemma {:induction false} FloorsMet(p: Plan, e: Estimates, k: nat, suite: string)
    requires k <= |p.suites| && AllFloorsAvailable(p, e)
    ensures suite in p.suites[..k] ==> CountIn(FloorSelected(p, e, k), suite) >= p.floor
  {
    if k == 0 {
    } else {
      var last := p.suites[k - 1];
      assert FloorAvailable(p, e, last);
      FloorsMet(p, e, k - 1, suite);
      var before := FloorSelected(p, e, k - 1);
      assert FloorSelected(p, e, k) == before + Floor(p, last);
      FloorCounts(p, e, before, last, suite);
      assert p.suites[..k] == p.suites[..k - 1] + [last];
    }
  }

  lemma FloorCounts(p: Plan, e: Estimates, before: seq<Item>, last: string, suite: string)
    requires FloorAvailable(p, e, last)
    ensures CountIn(before + Floor(p, last), suite) >= CountIn(before, suite)
    ensures last == suite ==> CountIn(before + Floor(p, last), suite) >= p.floor
  {
    FloorCount(p, e, last);
    ConcatFacts(e, before, Floor(p, last), suite);
  }

  lemma FloorCount(p: Plan, e: Estimates, suite: string)
    requires FloorAvailable(p, e, suite)
    ensures CountIn(Floor(p, suite), suite) == p.floor
  {
    FloorMembers(p, suite);
    UniformCost(e, Floor(p, suite), suite);
  }

  lemma {:induction false} FloorSelectedExact(p: Plan, e: Estimates, k: nat, item: Item)
    requires k <= |p.suites| && AllFloorsAvailable(p, e)
    ensures item in FloorSelected(p, e, k) <==> item.stratum in p.suites[..k] && item in Floor(p, item.stratum)
  {
    if k == 0 {
    } else {
      FloorSelectedExact(p, e, k - 1, item);
      assert FloorAvailable(p, e, p.suites[k - 1]);
      FloorMembers(p, p.suites[k - 1]);
      assert p.suites[..k] == p.suites[..k - 1] + [p.suites[k - 1]];
    }
  }

  /** A suite name configured twice gets its floor cases twice. */
  lemma {:induction false} FloorDistinct(p: Plan, e: Estimates, k: nat)
    requires k <= |p.suites| && AllFloorsAvailable(p, e) && Distinct(p.universe)
    ensures Distinct(FloorSelected(p, e, k)) <==> p.floor == 0 || Distinct(p.suites[..k])
  {
    if k == 0 {
    } else {
      var earlier, last := FloorSelected(p, e, k - 1), p.suites[k - 1];
      FloorDistinct(p, e, k - 1);
      assert FloorAvailable(p, e, last);
      assert FloorSelected(p, e, k) == earlier + Floor(p, last);
      assert p.suites[..k] == p.suites[..k - 1] + [last];
      DistinctConcat(p.suites[..k - 1], [last]);
      FloorTakenBefore(p, e, k - 1, last);
      DistinctConcat(earlier, Floor(p, last));
    }
  }

  /** The floor cases of a suite are among those selected exactly if its name came before. */
  lemma FloorTakenBefore(p: Plan, e: Estimates, k: nat, suite: string)
    requires k <= |p.suites| && AllFloorsAvailable(p, e) && suite in p.suites && Distinct(p.universe)
    ensures Distinct(Floor(p, suite)) && |Floor(p, suite)| == p.floor
    ensures (forall item <- Floor(p, suite) :: item !in FloorSelected(p, e, k))
      <==> p.floor == 0 || suite !in p.suites[..k]
  {
    FloorMembers(p, suite);
    forall item <- Floor(p, suite) ensures item in FloorSelected(p, e, k) <==> suite in p.suites[..k] {
      FloorSelectedExact(p, e, k, item);
    }
    if p.floor > 0 {
      assert Floor(p, suite)[0] in Floor(p, suite);
    }
  }

  lemma DistinctConcat<T>(a: seq<T>, b: seq<T>)
    ensures Distinct(a + b) <==> Distinct(a) && Distinct(b) && forall x <- b :: x !in a
  {
    var c := a + b;
    if Distinct(c) {
      forall i, j | 0 <= i < j < |a| ensures a[i] != a[j] {
        assert c[i] != c[j];
      }
      forall i, j | 0 <= i < j < |b| ensures b[i] != b[j] {
        assert c[|a| + i] != c[|a| + j];
      }
      forall i, j | 0 <= i < |a| && 0 <= j < |b| ensures a[i] != b[j] {
        assert c[i] != c[|a| + j];
      }
    } else {
      var i, j :| 0 <= i < j < |c| && c[i] == c[j];
      if j < |a| {
        assert a[i] == a[j];
      } else if |a| <= i {
        assert b[i - |a|] == b[j - |a|];
      } else {
        assert b[j - |a|] in b && a[i] in a;
      }
    }
  }

  lemma StartIsSound(p: Plan, e: Estimates)
    requires AllFloorsAvailable(p, e) && FloorCost(p, e, |p.suites|) <= p.r2Main + TOLERANCE
    ensures Sound(p, e, Start(p, e)) && Fair(p, e, Start(p, e))
  {
    var n, st := |p.suites|, Start(p, e);
    assert p.suites[..n] == p.suites;
    FloorCostMatches(p, e, n);
    forall s <- p.suites
      ensures CountIn(st.selected, s) >= p.floor
      ensures forall item <- st.remaining[s] :: FromUniverse(p, item) && item.benchmark.AgentDojo? && item.stratum == s
    {
      FloorsMet(p, e, n, s);
      CandidatesExact(p, p.universe, AgentDojo, Some(s));
    }
    forall item <- st.selected
      ensures FromUniverse(p, item) && item.benchmark.AgentDojo? && item.stratum in p.suites
    {
      FloorSelectedExact(p, e, n, item);
      FloorMembers(p, item.stratum);
    }
  }

  lemma StartDropsNothing(p: Plan, e: Estimates)
    requires AllFloorsAvailable(p, e)
    ensures NothingDropped(p, Start(p, e))
  {
    var st := Start(p, e);
    assert p.suites[..|p.suites|] == p.suites;
    forall s, item | s in p.suites && item in SuiteCandidates(p, s)
      ensures item in st.selected || (s in st.remaining && item in st.remaining[s])
    {
      if item in Floor(p, s) {
        CandidatesExact(p, p.universe, AgentDojo, Some(s));
        FloorSelectedExact(p, e, |p.suites|, item);
      } else {
        FloorSplits(p, s);
      }
    }
  }

  lemma FloorSplits(p: Plan, suite: string)
    requires |SuiteCandidates(p, suite)| >= p.floor
    ensures SuiteCandidates(p, suite) == Floor(p, suite) + SuiteCandidates(p, suite)[p.floor..]
  {
  }

  lemma StartIsFresh(p: Plan, e: Estimates)
    requires AllFloorsAvailable(p, e)
    ensures Distinct(p.universe) && (p.floor == 0 || Distinct(p.suites)) ==> Fresh(p, Start(p, e))
  {
    var n, st := |p.suites|, Start(p, e);
    assert p.suites[..n] == p.suites;
    if Distinct(p.universe) && (p.floor == 0 || Distinct(p.suites)) {
      FloorDistinct(p, e, n);
      forall s | s in p.suites && s in st.remaining
        ensures Distinct(st.remaining[s]) && forall item <- st.remaining[s] :: item !in st.selected
      {
        FloorMembers(p, s);
        CandidatesExact(p, p.universe, AgentDojo, Some(s));
        forall item <- st.remaining[s] ensures item !in st.selected {
          FloorSelectedExact(p, e, n, item);
        }
      }
    }
  }
}
