/**
 The bounded retry loops of the two model adapters over one budgeted call: reserve, call the model,
 settle. Between and during its calls other processes may do anything to the ledger; what the model
 does is an arbitrary report.
 */
module RetryLoop {
  import opened Common
  import opened BudgetLedger
  import opened LedgerFiles

  datatype Adapter = AgentDojo | InjecAgent

  /** What one external call left behind; `usable` is what InjecAgent's own output check finds. */
  datatype Report = Report(exitOk: bool, stepCosts: seq<Option<real>>, quotaMarker: bool, parsed: bool, usable: bool)

  datatype Turn = Turn(
    before: seq<Op>, id: string, reserveTimesOut: bool,
    during: seq<Op>, report: Report, settleTimesOut: bool)

  datatype Config = Config(
    adapter: Adapter, maxTurnRetries: int,
    primary: Option<string>, retry: Option<string>, job: Option<string>, reserve: Option<real>)

  datatype Event = Took(id: string, bucket: string) | Called | Paid(id: string, cost: Option<real>) | Unpaid(id: string)

  /** How an attempt ends: an answer, an exception that is passed on, or one that is retried. */
  datatype End = Answered | BudgetStop | QuotaPaused | Failed

  function Attempts(cfg: Config): (n: int)
    ensures n >= 1
  {
    if cfg.maxTurnRetries < 1 then 1 else cfg.maxTurnRetries
  }

  function BucketForAttempt(attempt: int, primary: Option<string>, retry: Option<string>): Option<string> {
    if attempt <= 1 || retry.None? || retry.value == "" then primary else retry
  }

  function Sum(costs: seq<Option<real>>): real
    requires forall c <- costs :: c.Some?
  {
    if costs == [] then 0.0 else Sum(costs[..|costs| - 1]) + costs[|costs| - 1].value
  }

  /** The reported cost is known only when there was a step and every step reported one. */
  function ReportedCost(r: Report): Option<real> {
    if r.stepCosts != [] && forall c <- r.stepCosts :: c.Some? then Some(Sum(r.stepCosts)) else None
  }

  predicate Paused(r: Report) {
    !r.exitOk && r.stepCosts == [] && r.quotaMarker
  }

  function CostToSettle(r: Report): Option<real> {
    if Paused(r) then Some(0.0) else ReportedCost(r)
  }

  function AfterCall(adapter: Adapter, r: Report): End {
    if Paused(r) then QuotaPaused
    else if r.exitOk && r.parsed && (adapter.InjecAgent? ==> r.usable) then Answered
    else Failed
  }

  /** `parse_opencode_usage`: the cost from one pass over the reported steps. */
  method ParseUsage(r: Report) returns (cost: Option<real>)
    ensures cost == ReportedCost(r)
  {
    var stepCosts := r.stepCosts;
    var total, known := 0.0, 0;
    for i := 0 to |stepCosts|
      invariant 0 <= known <= i
      invariant known == i <==> forall c <- stepCosts[..i] :: c.Some?
      invariant known == i ==> total == Sum(stepCosts[..i])
    {
      assert stepCosts[..i + 1] == stepCosts[..i] + [stepCosts[i]];
      if stepCosts[i].Some? {
        total, known := total + stepCosts[i].value, known + 1;
      }
    }
    assert stepCosts[..|stepCosts|] == stepCosts;
    cost := if stepCosts != [] && known == |stepCosts| then Some(total) else None;
  }

  /** One attempt: `invoke_opencode_json` with a ledger, then the adapter's handling of its result. */
  function OneAttempt(l: Ledger, cfg: Config, attempt: int, turn: Turn): (Ledger, seq<Event>, End) {
    var bucket := BucketForAttempt(attempt, cfg.primary, cfg.retry);
    var l := Run(l, turn.before);
    if bucket.None? || cfg.job.None? || cfg.reserve.None? then (l, [], Failed)
    else if turn.reserveTimesOut then (l, [], BudgetStop)
    else
      var reserved := Reserve(l, turn.id, cfg.job.value, bucket.value, cfg.reserve.value);
      if reserved.Err? then (l, [], BudgetStop)
      else
        var trace := [Took(turn.id, bucket.value), Called];
        var l := Run(reserved.value, turn.during);
        var cost := CostToSettle(turn.report);
        var settled := Settle(l, turn.id, cost);
        if turn.settleTimesOut || settled.Err? then (l, trace + [Unpaid(turn.id)], BudgetStop)
        else (settled.value, trace + [Paid(turn.id, cost)], AfterCall(cfg.adapter, turn.report))
  }

  /** The loop from a given attempt on. */
  function Loop(l: Ledger, cfg: Config, attempt: int, turns: seq<Turn>): (Ledger, seq<Event>, End)
    requires 1 <= attempt <= Attempts(cfg) == |turns|
    decreases |turns| - attempt
  {
    var (l', trace, end) := OneAttempt(l, cfg, attempt, turns[attempt - 1]);
    if end.Failed? && attempt < |turns| then
      var (l'', rest, last) := Loop(l', cfg, attempt + 1, turns);
      (l'', trace + rest, last)
    else (l', trace, end)
  }

  // ---------------------------------------------------------------- what a loop can do

  /**
   A trace is whole rounds of reserve, call, settle. Round k is attempt k: its reservation carries
   that attempt's identifier and bucket, what is paid is what its report says, and every round but the
   last settled a known cost and was not paused by the provider's quota.
   */
  predicate Rounds(trace: seq<Event>, cfg: Config, attempt: int, turns: seq<Turn>)
    requires 1 <= attempt
  {
    && |trace| % 3 == 0
    && attempt - 1 + |trace| / 3 <= |turns|
    && forall k :: 0 <= k < |trace| / 3 ==> Round(trace, k, cfg, attempt, turns)
  }

  /** The first attempt is paid from the primary bucket, later ones from the retry bucket if one is named. */
  predicate RightBucket(cfg: Config, attempt: int, bucket: string) {
    if attempt > 1 && cfg.retry.Some? && |cfg.retry.value| > 0 then bucket == cfg.retry.value
    else cfg.primary == Some(bucket)
  }

  predicate Round(trace: seq<Event>, k: int, cfg: Config, attempt: int, turns: seq<Turn>)
    requires 1 <= attempt && 0 <= k < |trace| / 3 && attempt - 1 + |trace| / 3 <= |turns|
  {
    var turn := turns[attempt - 1 + k];
    var id := turn.id;
    && trace[3 * k].Took? && trace[3 * k].id == id && RightBucket(cfg, attempt + k, trace[3 * k].bucket)
    && trace[3 * k + 1] == Called
    && !turn.reserveTimesOut && (trace[3 * k + 2].Paid? ==> !turn.settleTimesOut)
    && (trace[3 * k + 2] == Unpaid(id) || trace[3 * k + 2] == Paid(id, CostToSettle(turns[attempt - 1 + k].report)))
    && (k + 1 < |trace| / 3 ==>
         trace[3 * k + 2].Paid? && trace[3 * k + 2].cost.Some? && !Paused(turns[attempt - 1 + k].report))
  }

  lemma RoundsPrepend(first: seq<Event>, rest: seq<Event>, cfg: Config, attempt: int, turns: seq<Turn>)
    requires 1 <= attempt < |turns|
    requires Rounds(first, cfg, attempt, turns) && |first| == 3 && first[2].Paid? && first[2].cost.Some?
    requires !Paused(turns[attempt - 1].report)
    requires Rounds(rest, cfg, attempt + 1, turns)
    ensures Rounds(first + rest, cfg, attempt, turns)
  {
    var trace := first + rest;
    forall k | 0 <= k < |trace| / 3 ensures Round(trace, k, cfg, attempt, turns) {
      if k == 0 {
        assert Round(first, 0, cfg, attempt, turns);
        assert trace[..3] == first;
      } else {
        assert Round(rest, k - 1, cfg, attempt + 1, turns);
        assert trace[3 * k] == rest[3 * (k - 1)];
        assert trace[3 * k + 1] == rest[3 * (k - 1) + 1];
        assert trace[3 * k + 2] == rest[3 * (k - 1) + 2];
      }
    }
  }

  /** A halted ledger grants no reservation, whatever other processes do to it. */
  lemma HaltedGrantsNothing(l: Ledger, cfg: Config, attempt: int, turns: seq<Turn>)
    requires l.halted && 1 <= attempt <= Attempts(cfg) == |turns|
    ensures Loop(l, cfg, attempt, turns).1 == []
    decreases |turns| - attempt
  {
    EntriesSettleOnce(l, turns[attempt - 1].before);
    var (l', _, end) := OneAttempt(l, cfg, attempt, turns[attempt - 1]);
    if !end.Failed? || attempt == |turns| {
    } else {
      HaltedGrantsNothing(l', cfg, attempt + 1, turns);
    }
  }

  /** The first attempt that has a bucket: without a primary bucket the first attempt reserves nothing. */
  function FirstBudgeted(cfg: Config): (attempt: int)
    ensures 1 <= attempt <= 2
  {
    if cfg.primary.Some? then 1 else 2
  }

  /** With incomplete budget arguments every attempt fails before it reserves or calls anything. */
  lemma {:induction false} IncompleteArgumentsSpendNothing(l: Ledger, cfg: Config, attempt: int, turns: seq<Turn>)
    requires 1 <= attempt <= Attempts(cfg) == |turns|
    requires Incomplete(cfg)
    ensures Loop(l, cfg, attempt, turns).1 == [] && Loop(l, cfg, attempt, turns).2.Failed?
    decreases |turns| - attempt
  {
    if attempt == |turns| {
    } else {
      IncompleteArgumentsSpendNothing(OneAttempt(l, cfg, attempt, turns[attempt - 1]).0, cfg, attempt + 1, turns);
    }
  }

  /** The last round was paused by the quota, and was settled at no cost. */
  predicate EndsInQuotaPause(trace: seq<Event>, attempt: int, turns: seq<Turn>)
    requires 1 <= attempt && attempt - 1 + |trace| / 3 <= |turns|
  {
    var rounds := |trace| / 3;
    && rounds > 0 && Paused(turns[attempt - 1 + rounds - 1].report)
    && trace[|trace| - 1].Paid? && trace[|trace| - 1].cost == Some(0.0)
  }

  predicate Incomplete(cfg: Config) {
    cfg.job.None? || cfg.reserve.None? || (cfg.primary.None? && BucketForAttempt(2, cfg.primary, cfg.retry).None?)
  }

  /** What one attempt can leave behind, without a look into the ledger. */
  predicate Shape(cfg: Config, attempt: int, turn: Turn, l: Ledger, trace: seq<Event>, end: End) {
    var bucket := BucketForAttempt(attempt, cfg.primary, cfg.retry);
    var cost := CostToSettle(turn.report);
    if bucket.None? || cfg.job.None? || cfg.reserve.None? then trace == [] && end.Failed?
    else if trace == [] then end.BudgetStop?
    else
      && |trace| == 3 && trace[0] == Took(turn.id, bucket.value) && trace[1] == Called && !turn.reserveTimesOut
      && if trace[2] == Unpaid(turn.id) then end.BudgetStop?
         else
           && trace[2] == Paid(turn.id, cost) && !turn.settleTimesOut
           && (cost.None? ==> l.halted) && end == AfterCall(cfg.adapter, turn.report)
  }

  lemma AttemptHasShape(l: Ledger, cfg: Config, attempt: int, turn: Turn)
    ensures var (l', trace, end) := OneAttempt(l, cfg, attempt, turn); Shape(cfg, attempt, turn, l', trace, end)
  {
    var reserved := Run(l, turn.before);
    var bucket := BucketForAttempt(attempt, cfg.primary, cfg.retry);
    if bucket.Some? && cfg.job.Some? && cfg.reserve.Some? {
      var granted := Reserve(reserved, turn.id, cfg.job.value, bucket.value, cfg.reserve.value);
      if granted.Ok? {
        UnknownCostHalts(Run(granted.value, turn.during), turn.id, CostToSettle(turn.report));
      }
    }
  }

  lemma UnknownCostHalts(l: Ledger, id: string, cost: Option<real>)
    ensures Settle(l, id, cost).Ok? && cost.None? ==> Settle(l, id, cost).value.halted
  {
  }

  lemma AttemptIsARound(l: Ledger, cfg: Config, attempt: int, turns: seq<Turn>)
    requires FirstBudgeted(cfg) <= attempt <= |turns|
    ensures var (l', trace, end) := OneAttempt(l, cfg, attempt, turns[attempt - 1]);
      AttemptRound(cfg, attempt, turns, l', trace, end)
  {
    var (l', trace, end) := OneAttempt(l, cfg, attempt, turns[attempt - 1]);
    AttemptHasShape(l, cfg, attempt, turns[attempt - 1]);
    ShapeIsARound(cfg, attempt, turns, l', trace, end);
  }

  predicate AttemptRound(cfg: Config, attempt: int, turns: seq<Turn>, l: Ledger, trace: seq<Event>, end: End)
    requires 1 <= attempt <= |turns|
  {
    && Rounds(trace, cfg, attempt, turns)
    && (|trace| == 0 || |trace| == 3)
    && (end.QuotaPaused? <==> EndsInQuotaPause(trace, attempt, turns))
    && (end.Failed? && trace == [] ==> Incomplete(cfg))
    && (end.Failed? && trace != [] ==>
         trace[2].Paid? && (trace[2].cost.None? ==> l.halted) && !Paused(turns[attempt - 1].report))
  }

  lemma ShapeIsARound(cfg: Config, attempt: int, turns: seq<Turn>, l: Ledger, trace: seq<Event>, end: End)
    requires FirstBudgeted(cfg) <= attempt <= |turns| && Shape(cfg, attempt, turns[attempt - 1], l, trace, end)
    ensures AttemptRound(cfg, attempt, turns, l, trace, end)
  {
    if |trace| == 3 {
      assert Round(trace, 0, cfg, attempt, turns);
    }
  }

  lemma {:induction false} RoundsFrom(l: Ledger, cfg: Config, attempt: int, turns: seq<Turn>)
    requires FirstBudgeted(cfg) <= attempt <= Attempts(cfg) == |turns|
    ensures var (_, trace, end) := Loop(l, cfg, attempt, turns);
      Rounds(trace, cfg, attempt, turns) && (end.QuotaPaused? <==> EndsInQuotaPause(trace, attempt, turns))
    decreases |turns| - attempt
  {
    var (l', trace, end) := OneAttempt(l, cfg, attempt, turns[attempt - 1]);
    AttemptIsARound(l, cfg, attempt, turns);
    if !end.Failed? || attempt == |turns| {
    } else {
      RoundsFrom(l', cfg, attempt + 1, turns);
      var (_, rest, last) := Loop(l', cfg, attempt + 1, turns);
      Joined(l, l', trace, rest, last, cfg, attempt, turns);
      assert Loop(l, cfg, attempt, turns).1 == trace + rest && Loop(l, cfg, attempt, turns).2 == last;
    }
  }

  /** A failed attempt in front of a disciplined rest. */
  lemma Joined(l: Ledger, l': Ledger, trace: seq<Event>, rest: seq<Event>, last: End,
               cfg: Config, attempt: int, turns: seq<Turn>)
    requires FirstBudgeted(cfg) <= attempt < Attempts(cfg) == |turns|
    requires Rounds(trace, cfg, attempt, turns) && (|trace| == 0 || |trace| == 3)
    requires trace == [] ==> Incomplete(cfg)
    requires trace != [] ==> trace[2].Paid? && (trace[2].cost.None? ==> l'.halted) && !Paused(turns[attempt - 1].report)
    requires Loop(l', cfg, attempt + 1, turns).1 == rest && Loop(l', cfg, attempt + 1, turns).2 == last
    requires Rounds(rest, cfg, attempt + 1, turns)
      && (last.QuotaPaused? <==> EndsInQuotaPause(rest, attempt + 1, turns))
    ensures Rounds(trace + rest, cfg, attempt, turns)
    ensures last.QuotaPaused? <==> EndsInQuotaPause(trace + rest, attempt, turns)
  {
    if trace == [] {
      IncompleteArgumentsSpendNothing(l', cfg, attempt + 1, turns);
      assert trace + rest == [];
    } else if trace[2].cost.None? {
      HaltedGrantsNothing(l', cfg, attempt + 1, turns);
      assert trace + rest == trace;
    } else {
      RoundsPrepend(trace, rest, cfg, attempt, turns);
      PausePrepend(trace, rest, attempt, turns);
    }
  }

  lemma PausePrepend(first: seq<Event>, rest: seq<Event>, attempt: int, turns: seq<Turn>)
    requires 1 <= attempt && |first| == 3 && |rest| % 3 == 0 && attempt + |rest| / 3 <= |turns|
    requires !Paused(turns[attempt - 1].report)
    ensures EndsInQuotaPause(first + rest, attempt, turns) <==> EndsInQuotaPause(rest, attempt + 1, turns)
  {
    var trace := first + rest;
    assert |trace| / 3 == 1 + |rest| / 3;
    assert rest != [] ==> trace[|trace| - 1] == rest[|rest| - 1];
  }

  /**
   Whatever the model reports and other processes do: at most `max_turn_retries` reservations, the
   first in the primary bucket and later ones in the retry bucket (all of them there when no primary
   bucket is given); every call comes straight after its own reservation; a call whose cost stayed
   unknown, whose settlement failed or that hit the quota is the last.
   */
  lemma LoopIsDisciplined(l: Ledger, cfg: Config, turns: seq<Turn>)
    requires Attempts(cfg) == |turns|
    ensures var (_, trace, end) := Loop(l, cfg, 1, turns);
      && Rounds(trace, cfg, FirstBudgeted(cfg), turns)
      && |trace| / 3 <= Attempts(cfg)
      && (end.QuotaPaused? <==> EndsInQuotaPause(trace, FirstBudgeted(cfg), turns))
  {
    if cfg.primary.Some? {
      RoundsFrom(l, cfg, 1, turns);
    } else if |turns| > 1 {
      var l' := OneAttempt(l, cfg, 1, turns[0]).0;
      RoundsFrom(l', cfg, 2, turns);
      assert [] + Loop(l', cfg, 2, turns).1 == Loop(l', cfg, 2, turns).1;
    }
  }

  // ---------------------------------------------------------------- what the reports decide

  predicate EndsPaid(trace: seq<Event>) {
    trace != [] && trace[|trace| - 1].Paid?
  }

  /** The run succeeded, its output could be read, and InjecAgent finds it usable. */
  predicate HasAnswer(adapter: Adapter, r: Report) {
    match adapter
    case AgentDojo => r.exitOk && r.parsed
    case InjecAgent => r.exitOk && r.parsed && r.usable
  }

  predicate HitQuota(r: Report) {
    r.quotaMarker && !r.exitOk && |r.stepCosts| == 0
  }

  /**
   How the loop ends is decided by the reports. It ends with an answer exactly if the last round was paid and its
   report has one; no round follows an answer. It ends in a pause exactly if the last round was paid and hit the
   quota. Otherwise it goes on: it fails only after the last attempt, and it is stopped only where a settlement or
   the next reservation is refused.
   */
  predicate Decided(cfg: Config, attempt: int, turns: seq<Turn>, l: Ledger, trace: seq<Event>, end: End)
    requires 1 <= attempt && attempt - 1 + |trace| / 3 <= |turns| && (trace != [] ==> |trace| >= 3)
  {
    var next := attempt - 1 + |trace| / 3;
    && (forall k :: attempt - 1 <= k < next - 1 ==> !HasAnswer(cfg.adapter, turns[k].report))
    && (end.Answered? <==> EndsPaid(trace) && HasAnswer(cfg.adapter, turns[next - 1].report))
    && (end.QuotaPaused? <==> EndsPaid(trace) && HitQuota(turns[next - 1].report))
    && (end.Failed? ==> if trace == [] then Incomplete(cfg) else next == |turns| && EndsPaid(trace))
    && (end.BudgetStop? ==> if trace != [] && !EndsPaid(trace) then SettleRefused(l, turns[next - 1])
                            else next < |turns| && ReserveRefused(l, cfg, next + 1, turns[next]))
  }

  predicate SettleRefused(l: Ledger, turn: Turn) {
    turn.settleTimesOut || Settle(l, turn.id, CostToSettle(turn.report)).Err?
  }

  predicate ReserveRefused(l: Ledger, cfg: Config, attempt: int, turn: Turn) {
    var bucket := BucketForAttempt(attempt, cfg.primary, cfg.retry);
    && bucket.Some? && cfg.job.Some? && cfg.reserve.Some?
    && (turn.reserveTimesOut || Reserve(l, turn.id, cfg.job.value, bucket.value, cfg.reserve.value).Err?)
  }

  lemma {:induction false} DecidedFrom(l: Ledger, cfg: Config, attempt: int, turns: seq<Turn>)
    requires FirstBudgeted(cfg) <= attempt <= Attempts(cfg) == |turns|
    ensures var (l', trace, end) := Loop(l, cfg, attempt, turns);
      Rounds(trace, cfg, attempt, turns) && Decided(cfg, attempt, turns, l', trace, end)
    decreases |turns| - attempt
  {
    var (l', trace, end) := OneAttempt(l, cfg, attempt, turns[attempt - 1]);
    RoundsFrom(l, cfg, attempt, turns);
    AttemptIsDecided(l, cfg, attempt, turns);
    if !end.Failed? || attempt == |turns| {
    } else {
      DecidedFrom(l', cfg, attempt + 1, turns);
      var (l'', rest, last) := Loop(l', cfg, attempt + 1, turns);
      if trace == [] {
        IncompleteArgumentsSpendNothing(l', cfg, attempt + 1, turns);
        assert trace + rest == [];
      } else {
        DecidedLater(cfg, attempt, turns, l'', trace, rest, last);
      }
    }
  }

  lemma AttemptIsDecided(l: Ledger, cfg: Config, attempt: int, turns: seq<Turn>)
    requires FirstBudgeted(cfg) <= attempt <= |turns|
    ensures var (l', trace, end) := OneAttempt(l, cfg, attempt, turns[attempt - 1]);
      && (|trace| == 0 || |trace| == 3)
      && (end.Failed? || Decided(cfg, attempt, turns, l', trace, end))
      && (end.Failed? && attempt == |turns| ==> Decided(cfg, attempt, turns, l', trace, end))
      && (end.Failed? ==> if trace == [] then Incomplete(cfg)
                          else EndsPaid(trace) && !HasAnswer(cfg.adapter, turns[attempt - 1].report)
                               && !HitQuota(turns[attempt - 1].report))
  {
  }

  lemma DecidedLater(cfg: Config, attempt: int, turns: seq<Turn>, l: Ledger, first: seq<Event>, rest: seq<Event>,
                     end: End)
    requires 1 <= attempt < |turns| && |first| == 3 && |rest| % 3 == 0 && attempt + |rest| / 3 <= |turns|
    requires EndsPaid(first) && !HasAnswer(cfg.adapter, turns[attempt - 1].report)
      && !HitQuota(turns[attempt - 1].report)
    requires Decided(cfg, attempt + 1, turns, l, rest, end) && (end.Failed? ==> rest != [])
    ensures Decided(cfg, attempt, turns, l, first + rest, end)
  {
    var trace := first + rest;
    assert |trace| / 3 == 1 + |rest| / 3;
    assert rest != [] ==> trace[|trace| - 1] == rest[|rest| - 1];
    assert rest == [] ==> trace == first;
    assert attempt - 1 + |trace| / 3 == attempt + 1 - 1 + |rest| / 3;
  }

  /** Whatever other processes do, how the loop ends is decided by the reports and by refusals of the ledger. */
  lemma ReportsDecide(l: Ledger, cfg: Config, turns: seq<Turn>)
    requires Attempts(cfg) == |turns|
    ensures |turns| == cfg.maxTurnRetries || (|turns| == 1 && cfg.maxTurnRetries <= 0)
    ensures var (l', trace, end) := Loop(l, cfg, 1, turns);
      if FirstBudgeted(cfg) > |turns| then trace == [] && end.Failed?
      else Rounds(trace, cfg, FirstBudgeted(cfg), turns) && Decided(cfg, FirstBudgeted(cfg), turns, l', trace, end)
  {
    if cfg.primary.Some? {
      DecidedFrom(l, cfg, 1, turns);
    } else if |turns| > 1 {
      var l' := OneAttempt(l, cfg, 1, turns[0]).0;
      DecidedFrom(l', cfg, 2, turns);
      assert [] + Loop(l', cfg, 2, turns).1 == Loop(l', cfg, 2, turns).1;
    }
  }

  /**
   What is paid for a report: nothing for a failed run without steps that shows the quota marker, and otherwise
   what all of its steps cost together, if there are steps and each of them reports a cost.
   */
  lemma PaidForReport(r: Report)
    ensures !r.exitOk && r.stepCosts == [] && r.quotaMarker ==> CostToSettle(r) == Some(0.0)
    ensures r.stepCosts != [] && (forall c <- r.stepCosts :: c.Some?) ==> CostToSettle(r) == Some(Sum(r.stepCosts))
    ensures CostToSettle(r).Some? ==>
      if r.stepCosts == [] then !r.exitOk && r.quotaMarker else forall c <- r.stepCosts :: c.Some?
  {
  }

  /** `Sum` adds up the costs of all steps, in whatever parts. */
  lemma {:induction false} SumOfSteps(a: seq<Option<real>>, b: seq<Option<real>>, x: real)
    requires (forall c <- a :: c.Some?) && forall c <- b :: c.Some?
    ensures Sum([Some(x)]) == x
    ensures forall c <- a + b :: c.Some?
    ensures Sum(a + b) == Sum(a) + Sum(b)
  {
    assert [Some(x)][..0] == [];
    if b == [] {
      assert a + b == a;
    } else {
      var n := |b| - 1;
      assert (a + b)[..|a + b| - 1] == a + b[..n];
      SumOfSteps(a, b[..n], x);
    }
  }

  predicate LeftAlone(turn: Turn) {
    turn.before == [] && turn.during == []
  }

  /** Whole rounds, and one more entry for each. */
  predicate OneEach(l: Ledger, l': Ledger, trace: seq<Event>) {
    |trace| % 3 == 0 && |l'.entries| == |l.entries| + |trace| / 3
  }

  /** Left alone, the loop adds one ledger entry for each of its calls and no other. */
  lemma {:induction false} OneEntryPerCall(l: Ledger, cfg: Config, attempt: int, turns: seq<Turn>)
    requires 1 <= attempt <= Attempts(cfg) == |turns|
    requires forall t <- turns :: LeftAlone(t)
    ensures var (l', trace, _) := Loop(l, cfg, attempt, turns); OneEach(l, l', trace)
    decreases |turns| - attempt
  {
    assert LeftAlone(turns[attempt - 1]);
    AttemptAddsOneEntry(l, cfg, attempt, turns[attempt - 1]);
    var first := OneAttempt(l, cfg, attempt, turns[attempt - 1]);
    if !first.2.Failed? || attempt == |turns| {
      assert Loop(l, cfg, attempt, turns) == first;
    } else {
      OneEntryPerCall(first.0, cfg, attempt + 1, turns);
      LoopGoesOn(l, cfg, attempt, turns);
      var rest := Loop(first.0, cfg, attempt + 1, turns);
      OneEachAddsUp(l, first.0, rest.0, first.1, rest.1);
    }
  }

  lemma LoopGoesOn(l: Ledger, cfg: Config, attempt: int, turns: seq<Turn>)
    requires 1 <= attempt < Attempts(cfg) == |turns| && OneAttempt(l, cfg, attempt, turns[attempt - 1]).2.Failed?
    ensures var first := OneAttempt(l, cfg, attempt, turns[attempt - 1]);
      var rest := Loop(first.0, cfg, attempt + 1, turns);
      Loop(l, cfg, attempt, turns) == (rest.0, first.1 + rest.1, rest.2)
  {
  }

  lemma AttemptAddsOneEntry(l: Ledger, cfg: Config, attempt: int, turn: Turn)
    requires LeftAlone(turn)
    ensures var (l', trace, _) := OneAttempt(l, cfg, attempt, turn); OneEach(l, l', trace)
  {
  }

  /** The entries that the rounds of a trace leave behind. */
  function Booked(trace: seq<Event>, job: string, reserve: real): seq<Entry> {
    if |trace| < 3 || !trace[0].Took? then []
    else
      [Entry(trace[0].id, job, trace[0].bucket, reserve, BookedStatus(trace[2], reserve))]
      + Booked(trace[3..], job, reserve)
  }

  function BookedStatus(last: Event, reserve: real): Status {
    match last
    case Paid(_, cost) => if cost.Some? then Settled(cost.value) else CostUnknown(reserve)
    case _ => Reserved
  }

  predicate NotIn(entries: seq<Entry>, id: string) {
    forall e <- entries :: e.id != id
  }

  predicate Fresh(entries: seq<Entry>, turns: seq<Turn>, attempt: int)
    requires 1 <= attempt
  {
    && (forall k :: attempt - 1 <= k < |turns| ==> NotIn(entries, turns[k].id))
    && forall j, k :: attempt - 1 <= j < k < |turns| ==> turns[j].id != turns[k].id
  }

  /** Left alone and with fresh identifiers, the loop books its rounds, each at what was paid, and nothing else. */
  lemma {:induction false} RoundsAreBooked(l: Ledger, cfg: Config, attempt: int, turns: seq<Turn>)
    requires 1 <= attempt <= Attempts(cfg) == |turns| && cfg.job.Some? && cfg.reserve.Some?
    requires Fresh(l.entries, turns, attempt) && forall t <- turns :: LeftAlone(t)
    ensures var (l', trace, _) := Loop(l, cfg, attempt, turns);
      l'.entries == l.entries + Booked(trace, cfg.job.value, cfg.reserve.value)
    decreases |turns| - attempt
  {
    assert LeftAlone(turns[attempt - 1]) && NotIn(l.entries, turns[attempt - 1].id);
    AttemptIsBooked(l, cfg, attempt, turns[attempt - 1]);
    var first := OneAttempt(l, cfg, attempt, turns[attempt - 1]);
    if !first.2.Failed? || attempt == |turns| {
      assert Loop(l, cfg, attempt, turns) == first;
    } else {
      StaysFresh(l.entries, first.0.entries, turns, attempt);
      RoundsAreBooked(first.0, cfg, attempt + 1, turns);
      LoopGoesOn(l, cfg, attempt, turns);
      BookedConcat(l.entries, first.1, Loop(first.0, cfg, attempt + 1, turns).1, cfg.job.value, cfg.reserve.value);
    }
  }

  lemma StaysFresh(entries: seq<Entry>, longer: seq<Entry>, turns: seq<Turn>, attempt: int)
    requires 1 <= attempt < |turns| && Fresh(entries, turns, attempt)
    requires forall e <- longer :: e in entries || e.id == turns[attempt - 1].id
    ensures Fresh(longer, turns, attempt + 1)
  {
    forall k | attempt <= k < |turns| ensures NotIn(longer, turns[k].id) {
      assert NotIn(entries, turns[k].id) && turns[attempt - 1].id != turns[k].id;
    }
  }

  lemma AttemptIsBooked(l: Ledger, cfg: Config, attempt: int, turn: Turn)
    requires LeftAlone(turn) && cfg.job.Some? && cfg.reserve.Some? && NotIn(l.entries, turn.id)
    ensures var (l', trace, end) := OneAttempt(l, cfg, attempt, turn);
      && l'.entries == l.entries + Booked(trace, cfg.job.value, cfg.reserve.value)
      && (trace == [] || (|trace| == 3 && trace[0].Took?))
      && forall e <- l'.entries :: e in l.entries || e.id == turn.id
  {
    NoneMatch(l.entries, turn.id);
    BookedOnce(OneAttempt(l, cfg, attempt, turn).1, cfg.job.value, cfg.reserve.value);
    var bucket := BucketForAttempt(attempt, cfg.primary, cfg.retry);
    if bucket.Some? {
      OneBooking(l, cfg, attempt, turn, bucket.value);
    }
  }

  lemma OneBooking(l: Ledger, cfg: Config, attempt: int, turn: Turn, bucket: string)
    requires LeftAlone(turn) && cfg.job.Some? && cfg.reserve.Some? && Matching(l.entries, turn.id) == []
    requires BucketForAttempt(attempt, cfg.primary, cfg.retry) == Some(bucket)
    ensures var (l', trace, end) := OneAttempt(l, cfg, attempt, turn);
      if trace == [] then l'.entries == l.entries
      else
        |trace| == 3 && trace[0] == Took(turn.id, bucket)
        && l'.entries == l.entries
             + [Entry(turn.id, cfg.job.value, bucket, cfg.reserve.value, BookedStatus(trace[2], cfg.reserve.value))]
  {
    var granted := Reserve(l, turn.id, cfg.job.value, bucket, cfg.reserve.value);
    if granted.Ok? {
      SettlesTheNewEntry(l, turn.id, cfg.job.value, bucket, cfg.reserve.value, CostToSettle(turn.report));
      GrantedExactly(l, turn.id, cfg.job.value, bucket, cfg.reserve.value);
      assert granted.value.entries == l.entries + [Entry(turn.id, cfg.job.value, bucket, cfg.reserve.value, Reserved)];
    }
  }

  lemma BookedOnce(trace: seq<Event>, job: string, reserve: real)
    requires trace == [] || (|trace| == 3 && trace[0].Took?)
    ensures Booked(trace, job, reserve) ==
      if trace == [] then [] else [Entry(trace[0].id, job, trace[0].bucket, reserve, BookedStatus(trace[2], reserve))]
  {
    assert trace != [] ==> trace[3..] == [];
  }

  lemma {:induction false} NoneMatch(entries: seq<Entry>, id: string)
    requires NotIn(entries, id)
    ensures Matching(entries, id) == []
  {
    if entries == [] {
    } else {
      var n := |entries| - 1;
      assert entries[n] in entries && forall e <- entries[..n] :: e in entries;
      NoneMatch(entries[..n], id);
    }
  }

  lemma BookedConcat(entries: seq<Entry>, first: seq<Event>, rest: seq<Event>, job: string, reserve: real)
    requires first == [] || (|first| == 3 && first[0].Took?)
    ensures entries + Booked(first, job, reserve) + Booked(rest, job, reserve)
         == entries + Booked(first + rest, job, reserve)
  {
    BookedOnce(first, job, reserve);
    if first == [] {
      assert first + rest == rest;
    } else {
      assert (first + rest)[3..] == rest;
    }
  }

  lemma OneEachAddsUp(l: Ledger, l': Ledger, l'': Ledger, a: seq<Event>, b: seq<Event>)
    requires OneEach(l, l', a) && OneEach(l', l'', b)
    ensures OneEach(l, l'', a + b)
  {
    assert (|a| + |b|) % 3 == 0 && (|a| + |b|) / 3 == |a| / 3 + |b| / 3;
  }

  // ---------------------------------------------------------------- the loop as it is written

  /** What other processes do between two steps of the loop. */
  method Others(file: LedgerFile, ops: seq<Op>)
    modifies file
    ensures file.Value() == Run(old(file.Value()), ops)
  {
    for i := 0 to |ops|
      invariant file.Value() == Run(old(file.Value()), ops[..i])
    {
      assert ops[..i + 1][..i] == ops[..i];
      match ops[i]
      case ReserveOp(id, job, bucket, amount) =>
        var _ := file.TakeReservation(id, job, bucket, amount);
      case SettleOp(id, actual) =>
        var _ := file.SettleReservation(id, actual);
    }
    assert ops[..|ops|] == ops;
  }

  method Invoke(file: LedgerFile, cfg: Config, attempt: int, turn: Turn) returns (trace: seq<Event>, end: End)
    modifies file
    ensures (file.Value(), trace, end) == OneAttempt(old(file.Value()), cfg, attempt, turn)
  {
    Others(file, turn.before);
    var bucket := BucketForAttempt(attempt, cfg.primary, cfg.retry);
    if bucket.None? || cfg.job.None? || cfg.reserve.None? {
      return [], Failed;
    }
    if turn.reserveTimesOut {
      return [], BudgetStop;
    }
    var refused := file.TakeReservation(turn.id, cfg.job.value, bucket.value, cfg.reserve.value);
    if refused.Some? {
      return [], BudgetStop;
    }
    trace := [Took(turn.id, bucket.value), Called];
    Others(file, turn.during);
    var cost := ParseUsage(turn.report);
    if Paused(turn.report) {
      cost := Some(0.0);
    }
    if turn.settleTimesOut {
      return trace + [Unpaid(turn.id)], BudgetStop;
    }
    var unsettled := file.SettleReservation(turn.id, cost);
    if unsettled.Some? {
      return trace + [Unpaid(turn.id)], BudgetStop;
    }
    return trace + [Paid(turn.id, cost)], AfterCall(cfg.adapter, turn.report);
  }

  /** `query` and `call_model`: answer, pass the exception on, or try again while attempts are left. */
  method Query(file: LedgerFile, cfg: Config, turns: seq<Turn>) returns (trace: seq<Event>, end: End)
    requires |turns| == Attempts(cfg)
    modifies file
    ensures (file.Value(), trace, end) == Loop(old(file.Value()), cfg, 1, turns)
  {
    trace, end := [], Failed;
    var attempt := 1;
    assert [] + Loop(file.Value(), cfg, 1, turns).1 == Loop(file.Value(), cfg, 1, turns).1;
    while true
      invariant 1 <= attempt <= |turns|
      invariant var (l, rest, last) := Loop(file.Value(), cfg, attempt, turns);
        (l, trace + rest, last) == Loop(old(file.Value()), cfg, 1, turns)
      decreases |turns| - attempt
    {
      ghost var sofar := trace;
      var events, result := Invoke(file, cfg, attempt, turns[attempt - 1]);
      trace := trace + events;
      if !result.Failed? || attempt >= |turns| {
        return trace, result;
      }
      attempt := attempt + 1;
      ghost var rest := Loop(file.Value(), cfg, attempt, turns).1;
      assert sofar + (events + rest) == trace + rest;
    }
  }
}
