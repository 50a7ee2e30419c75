/**
 The resumable scheduler `run_jobs` of scripts/run_r2_r3_acceptance.py. Each invocation looks at the
 state and result files of every job, runs a prefix of the pending ones, and may be stopped by the
 execution locks, the budget or the provider's quota. Invocations repeat until nothing is pending.
 */
module JobScheduler {
  import opened Common

  /** The `status` of a state file and the number of attempts it lists. */
  datatype JobState =
    | InfraError(attempts: nat)
    | FailedTerminal(attempts: nat)
    | Complete(attempts: nat)
    | NotRunBudget(attempts: nat)
    | PausedQuota(attempts: nat)

  /** The output directory: state files, and the jobs whose result file matches the plan. */
  datatype Disk = Disk(states: map<string, JobState>, matching: set<string>)

  datatype Plan = Plan(jobs: seq<string>, budgetSchema: bool, withLedger: bool, maxResume: int, maxAttempts: int)

  /** What one run of the single-case runner does. */
  datatype Outcome = Outcome(exitOk: bool, matches: bool, budgetBlock: bool, quotaPause: bool)

  /** What one invocation meets; jobs are named by their place in the batch. */
  datatype World = World(locksHold: bool, canReserve: nat -> bool, run: (nat, nat) -> Outcome)

  datatype Status = Matched | Terminal | Pending

  datatype End = Succeeded | Failed | BudgetStop | QuotaStop

  function PriorAttempts(d: Disk, job: string): nat {
    if job in d.states && (d.states[job].InfraError? || d.states[job].FailedTerminal?) then d.states[job].attempts
    else 0
  }

  predicate IsFailedTerminal(d: Disk, job: string) {
    job in d.states && d.states[job].FailedTerminal?
  }

  function StatusOf(p: Plan, d: Disk, job: string): Status {
    if job in d.matching then Matched
    else if p.budgetSchema && (IsFailedTerminal(d, job) || PriorAttempts(d, job) >= p.maxResume) then Terminal
    else Pending
  }

  function WithStatus(p: Plan, d: Disk, jobs: seq<string>, status: Status): seq<string> {
    if jobs == [] then []
    else
      var n := |jobs| - 1;
      WithStatus(p, d, jobs[..n], status) + if StatusOf(p, d, jobs[n]) == status then [jobs[n]] else []
  }

  /** Attempts are only carried over from an `infra_error`; every other state starts afresh. */
  function CarriedAttempts(d: Disk, job: string): nat {
    if job in d.states && d.states[job].InfraError? then d.states[job].attempts else 0
  }

  function Wrote(d: Disk, job: string, state: JobState): Disk {
    d.(states := d.states[job := state])
  }

  function Ran(d: Disk, job: string, o: Outcome): Disk {
    d.(matching := if o.matches then d.matching + {job} else d.matching - {job})
  }

  /** The attempts on one job from the `local`-th on: the directory, how often it ran, and the end. */
  function Attempts(p: Plan, d: Disk, job: string, w: World, i: nat, done: nat, local: nat): (Disk, nat, End)
    decreases p.maxAttempts - local
  {
    if local > p.maxAttempts then
      var terminal := p.budgetSchema && done >= p.maxResume;
      (Wrote(d, job, if terminal then FailedTerminal(done) else InfraError(done)), 0, Failed)
    else
      var o := w.run(i, local);
      var d' := Ran(d, job, o);
      if o.exitOk && o.matches then (Wrote(d', job, Complete(done + 1)), 1, Succeeded)
      else if p.withLedger && o.budgetBlock then (Wrote(d', job, NotRunBudget(done + 1)), 1, BudgetStop)
      else if o.quotaPause then (Wrote(d', job, PausedQuota(done + 1)), 1, QuotaStop)
      else
        var (last, runs, end) := Attempts(p, d', job, w, i, done + 1, local + 1);
        (last, runs + 1, end)
  }

  /** `_write_not_run_budget`: jobs without a state file are marked, others keep theirs. */
  function MarkNotRun(d: Disk, jobs: seq<string>): Disk {
    if jobs == [] then d
    else
      var before := MarkNotRun(d, jobs[..|jobs| - 1]);
      var job := jobs[|jobs| - 1];
      if job in before.states then before else Wrote(before, job, NotRunBudget(0))
  }

  function Times(job: string, n: nat): (r: seq<string>)
    ensures |r| == n && forall k :: 0 <= k < n ==> r[k] == job
  {
    seq(n, _ => job)
  }

  datatype Batch = Batch(disk: Disk, runs: seq<string>, stop: Option<int>, failed: nat)

  /** The batch `pending[..n]` from its `i`-th job on. */
  function RunBatch(p: Plan, d: Disk, pending: seq<string>, n: nat, i: nat, w: World, dryRun: bool): Batch
    requires i <= n <= |pending|
    decreases n - i
  {
    if i == n then Batch(d, [], None, 0)
    else
      var job := pending[i];
      if job in d.matching then RunBatch(p, d, pending, n, i + 1, w, dryRun)
      else if p.withLedger && !w.canReserve(i) then Batch(MarkNotRun(d, pending[i..]), [], Some(2), 0)
      else if dryRun then RunBatch(p, d, pending, n, i + 1, w, dryRun)
      else
        var (d', runs, end) := Attempts(p, d, job, w, i, CarriedAttempts(d, job), 1);
        if end.BudgetStop? then Batch(MarkNotRun(d', pending[i + 1..]), Times(job, runs), Some(2), 0)
        else if end.QuotaStop? then Batch(d', Times(job, runs), Some(4), 0)
        else
          var rest := RunBatch(p, d', pending, n, i + 1, w, dryRun);
          rest.(runs := Times(job, runs) + rest.runs, failed := rest.failed + if end.Failed? then 1 else 0)
  }

  function BatchOf(pending: seq<string>, maxJobs: Option<int>): seq<string> {
    if maxJobs.Some? then SliceTo(pending, maxJobs.value) else pending
  }

  datatype Invocation = Invocation(disk: Disk, runs: seq<string>, code: int)

  function Invoke(p: Plan, d: Disk, maxJobs: Option<int>, dryRun: bool, w: World): Invocation {
    var pending, terminal := WithStatus(p, d, p.jobs, Pending), WithStatus(p, d, p.jobs, Terminal);
    var n := |BatchOf(pending, maxJobs)|;
    if n == 0 then Invocation(d, [], if terminal != [] then 1 else 0)
    else if !dryRun && !w.locksHold then Invocation(d, [], 3)
    else
      var batch := RunBatch(p, d, pending, n, 0, w, dryRun);
      Invocation(batch.disk, batch.runs,
                 if batch.stop.Some? then batch.stop.value else if batch.failed > 0 || terminal != [] then 1 else 0)
  }

  // ---------------------------------------------------------------- pending jobs

  lemma {:induction false} WithStatusExact(p: Plan, d: Disk, jobs: seq<string>, status: Status)
    ensures forall j :: j in WithStatus(p, d, jobs, status) <==> j in jobs && StatusOf(p, d, j) == status
    ensures WithStatus(p, d, jobs, status) == [] <==> forall j <- jobs :: StatusOf(p, d, j) != status
  {
    if jobs == [] {
    } else {
      var n := |jobs| - 1;
      WithStatusExact(p, d, jobs[..n], status);
      assert jobs == jobs[..n] + [jobs[n]];
    }
  }

  lemma {:induction false} WithStatusDistinct(p: Plan, d: Disk, jobs: seq<string>, status: Status)
    requires Distinct(jobs)
    ensures Distinct(WithStatus(p, d, jobs, status))
  {
    if jobs == [] {
    } else {
      var n := |jobs| - 1;
      WithStatusDistinct(p, d, jobs[..n], status);
      WithStatusExact(p, d, jobs[..n], status);
      assert jobs[n] !in jobs[..n];
    }
  }

  // ---------------------------------------------------------------- one job

  /** Two directories agree on a job: same state file, same verdict on its result. */
  predicate Same(d: Disk, d': Disk, job: string) {
    && (job in d.matching <==> job in d'.matching)
    && (job in d.states <==> job in d'.states)
    && (job in d.states ==> d.states[job] == d'.states[job])
  }

  /** Resume attempts that a job still has. */
  function Remaining(p: Plan, d: Disk, job: string): nat {
    if StatusOf(p, d, job).Pending? && PriorAttempts(d, job) < p.maxResume then p.maxResume - PriorAttempts(d, job)
    else 0
  }

  /** What the state file says after all attempts of an invocation failed. */
  function FailedState(p: Plan, attempts: nat): JobState {
    if p.budgetSchema && attempts >= p.maxResume then FailedTerminal(attempts) else InfraError(attempts)
  }

  lemma {:induction false} AttemptsFacts(p: Plan, d: Disk, job: string, w: World, i: nat, done: nat, local: nat)
    ensures var (d', runs, end) := Attempts(p, d, job, w, i, done, local);
      && (forall j :: j != job ==> Same(d, d', j))
      && (end.Succeeded? ==> job in d'.matching)
      && (local <= p.maxAttempts ==> runs >= 1)
      && (end.Failed? ==> job in d'.states && d'.states[job] == FailedState(p, done + runs))
    decreases p.maxAttempts - local
  {
    if local > p.maxAttempts {
    } else {
      var o := w.run(i, local);
      if !(o.exitOk && o.matches) && !(p.withLedger && o.budgetBlock) && !o.quotaPause {
        AttemptsFacts(p, Ran(d, job, o), job, w, i, done + 1, local + 1);
        var d' := Attempts(p, d, job, w, i, done, local).0;
        forall j | j != job ensures Same(d, d', j) {
          assert Same(Ran(d, job, o), d', j);
        }
      }
    }
  }

  /** Running a pending job to the end of its attempts uses up at least one resume attempt. */
  lemma RunUsesAnAttempt(p: Plan, d: Disk, job: string, w: World, i: nat)
    requires p.budgetSchema && p.maxAttempts >= 1 && StatusOf(p, d, job).Pending?
    ensures var (d', _, end) := Attempts(p, d, job, w, i, CarriedAttempts(d, job), 1);
      end.Succeeded? || end.Failed? ==> Remaining(p, d', job) < Remaining(p, d, job)
  {
    AttemptsFacts(p, d, job, w, i, CarriedAttempts(d, job), 1);
  }

  lemma {:induction false} MarkNotRunFacts(d: Disk, jobs: seq<string>)
    ensures MarkNotRun(d, jobs).matching == d.matching
    ensures forall j :: j in d.states ==>
      j in MarkNotRun(d, jobs).states && MarkNotRun(d, jobs).states[j] == d.states[j]
    ensures forall j :: j !in jobs ==> Same(d, MarkNotRun(d, jobs), j)
  {
    if jobs == [] {
    } else {
      var n := |jobs| - 1;
      MarkNotRunFacts(d, jobs[..n]);
      forall j | j !in jobs ensures Same(d, MarkNotRun(d, jobs), j) {
        assert j !in jobs[..n] && j != jobs[n];
        assert Same(d, MarkNotRun(d, jobs[..n]), j);
      }
    }
  }

  // ---------------------------------------------------------------- one batch

  /** Only jobs of the rest of the batch run; no other job is touched unless the batch is stopped. */
  lemma {:induction false} BatchRunsOnlyItsJobs(p: Plan, d: Disk, pending: seq<string>, n: nat, i: nat, w: World,
                                                dryRun: bool)
    requires i <= n <= |pending|
    ensures var b := RunBatch(p, d, pending, n, i, w, dryRun);
      && (forall j <- b.runs :: j in pending[i..n] && j !in d.matching && !dryRun)
      && (forall j :: j !in pending[i..] ==> Same(d, b.disk, j))
      && (b.stop.None? ==> forall j :: j !in pending[i..n] ==> Same(d, b.disk, j))
    decreases n - i
  {
    if i == n {
    } else {
      var job := pending[i];
      assert pending[i..n] == [job] + pending[i + 1..n] && pending[i..] == [job] + pending[i + 1..];
      if job in d.matching {
        BatchRunsOnlyItsJobs(p, d, pending, n, i + 1, w, dryRun);
      } else if p.withLedger && !w.canReserve(i) {
        MarkNotRunFacts(d, pending[i..]);
      } else if dryRun {
        BatchRunsOnlyItsJobs(p, d, pending, n, i + 1, w, dryRun);
      } else {
        var (d', _, end) := Attempts(p, d, job, w, i, CarriedAttempts(d, job), 1);
        AttemptsFacts(p, d, job, w, i, CarriedAttempts(d, job), 1);
        if end.BudgetStop? {
          MarkNotRunFacts(d', pending[i + 1..]);
        } else if !end.QuotaStop? {
          BatchRunsOnlyItsJobs(p, d', pending, n, i + 1, w, dryRun);
        }
        var b := RunBatch(p, d, pending, n, i, w, dryRun);
        forall j | j !in pending[i..] ensures Same(d, b.disk, j) {
          assert Same(d, d', j);
          assert !end.QuotaStop? ==> Same(d', b.disk, j);
        }
        forall j | b.stop.None? && j !in pending[i..n] ensures Same(d, b.disk, j) {
          assert Same(d, d', j) && Same(d', b.disk, j);
        }
        forall j <- b.runs ensures j in pending[i..n] && j !in d.matching {
          assert j != job ==> Same(d, d', j);
        }
      }
    }
  }

  predicate Interrupted(code: int) {
    code == 2 || code == 3 || code == 4
  }

  /** A batch that is not stopped runs each of its jobs, and each run costs a resume attempt. */
  lemma {:induction false} BatchProgress(p: Plan, d: Disk, pending: seq<string>, n: nat, i: nat, w: World)
    requires i <= n <= |pending| && Distinct(pending) && p.budgetSchema && p.maxAttempts >= 1
    requires forall k :: i <= k < n ==> StatusOf(p, d, pending[k]).Pending?
    requires RunBatch(p, d, pending, n, i, w, false).stop.None?
    ensures var b := RunBatch(p, d, pending, n, i, w, false);
      forall k :: i <= k < n ==> pending[k] in b.runs && Remaining(p, b.disk, pending[k]) < Remaining(p, d, pending[k])
    decreases n - i
  {
    if i == n {
    } else {
      var job := pending[i];
      var d' := Attempts(p, d, job, w, i, CarriedAttempts(d, job), 1).0;
      BatchStep(p, d, pending, n, i, w);
      var b := RunBatch(p, d, pending, n, i, w, false);
      forall k | i < k < n ensures Same(d, d', pending[k]) && StatusOf(p, d', pending[k]).Pending? {
        assert pending[k] != job;
        SameStatus(p, d, d', pending[k]);
      }
      BatchProgress(p, d', pending, n, i + 1, w);
      BatchRunsOnlyItsJobs(p, d', pending, n, i + 1, w, false);
      assert job !in pending[i + 1..n];
      SameStatus(p, d', b.disk, job);
      forall k | i < k < n ensures Remaining(p, b.disk, pending[k]) < Remaining(p, d, pending[k]) {
        SameStatus(p, d, d', pending[k]);
      }
    }
  }

  lemma SameStatus(p: Plan, d: Disk, d': Disk, job: string)
    requires Same(d, d', job)
    ensures StatusOf(p, d, job) == StatusOf(p, d', job) && Remaining(p, d, job) == Remaining(p, d', job)
  {
  }

  /** The first job of an uninterrupted batch. */
  lemma BatchStep(p: Plan, d: Disk, pending: seq<string>, n: nat, i: nat, w: World)
    requires i < n <= |pending| && p.budgetSchema && p.maxAttempts >= 1 && StatusOf(p, d, pending[i]).Pending?
    requires RunBatch(p, d, pending, n, i, w, false).stop.None?
    ensures var (b, d') := (RunBatch(p, d, pending, n, i, w, false),
                            Attempts(p, d, pending[i], w, i, CarriedAttempts(d, pending[i]), 1).0);
      && RunBatch(p, d', pending, n, i + 1, w, false).stop.None?
      && b.disk == RunBatch(p, d', pending, n, i + 1, w, false).disk
      && pending[i] in b.runs && (forall j <- RunBatch(p, d', pending, n, i + 1, w, false).runs :: j in b.runs)
      && Remaining(p, d', pending[i]) < Remaining(p, d, pending[i])
      && forall j :: j != pending[i] ==> Same(d, d', j)
  {
    var job := pending[i];
    var runs := Attempts(p, d, job, w, i, CarriedAttempts(d, job), 1).1;
    AttemptsFacts(p, d, job, w, i, CarriedAttempts(d, job), 1);
    RunUsesAnAttempt(p, d, job, w, i);
    assert Times(job, runs)[0] == job;
  }

  /** Without a failure and without a stop, every job of the batch has its result. */
  lemma {:induction false} BatchWithoutFailure(p: Plan, d: Disk, pending: seq<string>, n: nat, i: nat, w: World)
    requires i <= n <= |pending|
    requires RunBatch(p, d, pending, n, i, w, false).stop.None? && RunBatch(p, d, pending, n, i, w, false).failed == 0
    ensures forall k :: i <= k < n ==> pending[k] in RunBatch(p, d, pending, n, i, w, false).disk.matching
    ensures d.matching <= RunBatch(p, d, pending, n, i, w, false).disk.matching
    decreases n - i
  {
    if i == n {
    } else {
      var job := pending[i];
      if job in d.matching {
        BatchWithoutFailure(p, d, pending, n, i + 1, w);
      } else {
        var (d', _, _) := Attempts(p, d, job, w, i, CarriedAttempts(d, job), 1);
        AttemptsFacts(p, d, job, w, i, CarriedAttempts(d, job), 1);
        BatchWithoutFailure(p, d', pending, n, i + 1, w);
        forall j <- d.matching ensures j in d'.matching {
          assert Same(d, d', j);
        }
      }
    }
  }

  /** The directory says something about the job: a result, or a state. */
  predicate Explained(d: Disk, job: string) {
    job in d.matching || job in d.states
  }

  lemma {:induction false} MarkNotRunExplains(d: Disk, jobs: seq<string>)
    ensures forall j <- jobs ::
      j in MarkNotRun(d, jobs).states && (j !in d.states ==> MarkNotRun(d, jobs).states[j] == NotRunBudget(0))
    ensures forall j :: Explained(d, j) ==> Explained(MarkNotRun(d, jobs), j)
  {
    if jobs == [] {
    } else {
      var n := |jobs| - 1;
      MarkNotRunExplains(d, jobs[..n]);
      MarkNotRunFacts(d, jobs[..n]);
      assert jobs == jobs[..n] + [jobs[n]];
    }
  }

  lemma {:induction false} AttemptsExplain(p: Plan, d: Disk, job: string, w: World, i: nat, done: nat, local: nat,
                                           j: string)
    ensures job in Attempts(p, d, job, w, i, done, local).0.states
    ensures Explained(d, j) ==> Explained(Attempts(p, d, job, w, i, done, local).0, j)
    decreases p.maxAttempts - local
  {
    if local > p.maxAttempts {
    } else {
      var o := w.run(i, local);
      if !(o.exitOk && o.matches) && !(p.withLedger && o.budgetBlock) && !o.quotaPause {
        AttemptsExplain(p, Ran(d, job, o), job, w, i, done + 1, local + 1, j);
      }
    }
  }

  lemma {:induction false} BatchKeepsExplained(p: Plan, d: Disk, pending: seq<string>, n: nat, i: nat, w: World,
                                               j: string)
    requires i <= n <= |pending| && Explained(d, j)
    ensures Explained(RunBatch(p, d, pending, n, i, w, false).disk, j)
    decreases n - i
  {
    if i == n {
    } else {
      var job := pending[i];
      if job in d.matching {
        BatchKeepsExplained(p, d, pending, n, i + 1, w, j);
      } else if p.withLedger && !w.canReserve(i) {
        MarkNotRunExplains(d, pending[i..]);
      } else {
        var d' := Attempts(p, d, job, w, i, CarriedAttempts(d, job), 1).0;
        AttemptsExplain(p, d, job, w, i, CarriedAttempts(d, job), 1, j);
        MarkNotRunExplains(d', pending[i + 1..]);
        BatchKeepsExplained(p, d', pending, n, i + 1, w, j);
      }
    }
  }

  /** A batch that the budget stops leaves no pending job, of the batch or after it, without an explanation. */
  lemma {:induction false} BudgetStopExplains(p: Plan, d: Disk, pending: seq<string>, n: nat, i: nat, w: World)
    requires i <= n <= |pending|
    requires RunBatch(p, d, pending, n, i, w, false).stop == Some(2)
    ensures forall j <- pending[i..] :: Explained(RunBatch(p, d, pending, n, i, w, false).disk, j)
    decreases n - i
  {
    var job := pending[i];
    assert pending[i..] == [job] + pending[i + 1..];
    if job in d.matching {
      BudgetStopExplains(p, d, pending, n, i + 1, w);
      BatchKeepsExplained(p, d, pending, n, i + 1, w, job);
    } else if p.withLedger && !w.canReserve(i) {
      MarkNotRunExplains(d, pending[i..]);
    } else {
      var (d', _, end) := Attempts(p, d, job, w, i, CarriedAttempts(d, job), 1);
      AttemptsExplain(p, d, job, w, i, CarriedAttempts(d, job), 1, job);
      if end.BudgetStop? {
        MarkNotRunExplains(d', pending[i + 1..]);
      } else {
        BudgetStopExplains(p, d', pending, n, i + 1, w);
        BatchKeepsExplained(p, d', pending, n, i + 1, w, job);
      }
    }
  }

  // ---------------------------------------------------------------- one invocation

  /** A job is settled when its result matches the plan or its state is FAILED_TERMINAL. */
  predicate Settled(d: Disk, job: string) {
    job in d.matching || IsFailedTerminal(d, job)
  }

  /** A settled job is never run by a later invocation, whatever that meets, and stays settled. */
  lemma SettledIsNeverRun(p: Plan, d: Disk, maxJobs: Option<int>, dryRun: bool, w: World, job: string)
    requires p.budgetSchema && Settled(d, job)
    ensures var r := Invoke(p, d, maxJobs, dryRun, w);
      job !in r.runs && Settled(r.disk, job) && Same(d, r.disk, job)
  {
    var pending := WithStatus(p, d, p.jobs, Pending);
    var n := |BatchOf(pending, maxJobs)|;
    WithStatusExact(p, d, p.jobs, Pending);
    assert Same(d, d, job);
    if n > 0 && (dryRun || w.locksHold) {
      BatchRunsOnlyItsJobs(p, d, pending, n, 0, w, dryRun);
      assert job !in pending;
      assert job !in pending[0..] && job !in pending[0..n];
      assert Same(d, Invoke(p, d, maxJobs, dryRun, w).disk, job);
    }
  }

  function Measure(p: Plan, d: Disk, jobs: seq<string>): nat {
    if jobs == [] then 0 else Measure(p, d, jobs[..|jobs| - 1]) + Remaining(p, d, jobs[|jobs| - 1])
  }

  function CountRun(jobs: seq<string>, runs: seq<string>): nat {
    if jobs == [] then 0 else CountRun(jobs[..|jobs| - 1], runs) + if jobs[|jobs| - 1] in runs then 1 else 0
  }

  lemma {:induction false} MeasureDrops(p: Plan, d: Disk, d': Disk, jobs: seq<string>, runs: seq<string>)
    requires forall j <- jobs :: Remaining(p, d', j) + (if j in runs then 1 else 0) <= Remaining(p, d, j)
    ensures Measure(p, d', jobs) + CountRun(jobs, runs) <= Measure(p, d, jobs)
    ensures (exists j <- jobs :: j in runs) ==> CountRun(jobs, runs) >= 1
  {
    if jobs == [] {
    } else {
      var n := |jobs| - 1;
      assert jobs == jobs[..n] + [jobs[n]];
      MeasureDrops(p, d, d', jobs[..n], runs);
    }
  }

  predicate AllowsWork(maxJobs: Option<int>) {
    maxJobs.Some? ==> maxJobs.value >= 1
  }

  /**
   An invocation that no lock, budget or quota interrupts lowers the resume attempts left over all jobs
   by at least one for each job that it runs, and runs some job when one is pending.
   */
  lemma InvocationUsesAttempts(p: Plan, d: Disk, maxJobs: Option<int>, w: World)
    requires Distinct(p.jobs) && p.budgetSchema && p.maxAttempts >= 1
    requires !Interrupted(Invoke(p, d, maxJobs, false, w).code)
    ensures var r := Invoke(p, d, maxJobs, false, w);
      && Measure(p, r.disk, p.jobs) + CountRun(p.jobs, r.runs) <= Measure(p, d, p.jobs)
      && (AllowsWork(maxJobs) && WithStatus(p, d, p.jobs, Pending) != [] ==> CountRun(p.jobs, r.runs) >= 1)
  {
    var pending := WithStatus(p, d, p.jobs, Pending);
    var n, r := |BatchOf(pending, maxJobs)|, Invoke(p, d, maxJobs, false, w);
    WithStatusExact(p, d, p.jobs, Pending);
    WithStatusDistinct(p, d, p.jobs, Pending);
    if n == 0 {
      MeasureDrops(p, d, d, p.jobs, []);
    } else {
      BatchCodes(p, d, pending, n, 0, w, false);
      BatchRunsOnlyItsJobs(p, d, pending, n, 0, w, false);
      BatchProgress(p, d, pending, n, 0, w);
      forall j <- p.jobs ensures Remaining(p, r.disk, j) + (if j in r.runs then 1 else 0) <= Remaining(p, d, j) {
        if j !in pending[0..n] {
          assert Same(d, r.disk, j);
        }
      }
      MeasureDrops(p, d, r.disk, p.jobs, r.runs);
      assert pending[0] in p.jobs;
    }
  }

  lemma {:induction false} BatchCodes(p: Plan, d: Disk, pending: seq<string>, n: nat, i: nat, w: World, dryRun: bool)
    requires i <= n <= |pending|
    ensures var b := RunBatch(p, d, pending, n, i, w, dryRun); b.stop.Some? ==> Interrupted(b.stop.value)
    decreases n - i
  {
    if i == n {
    } else {
      BatchCodes(p, d, pending, n, i + 1, w, dryRun);
      BatchCodes(p, Attempts(p, d, pending[i], w, i, CarriedAttempts(d, pending[i]), 1).0, pending, n, i + 1, w,
                 dryRun);
    }
  }

  /** The batch limit leaves no pending job out. */
  predicate TakesAll(maxJobs: Option<int>, pending: seq<string>) {
    pending == [] || maxJobs.None? || maxJobs.value >= |pending|
  }

  /**
   After exit code 0 of a real invocation every job of the plan has its matching result exactly if the
   batch limit left no pending job out; a limit that cuts the list reports success with work left.
   */
  lemma ExitZeroMeansCompleteExactly(p: Plan, d: Disk, maxJobs: Option<int>, w: World)
    requires Distinct(p.jobs) && Invoke(p, d, maxJobs, false, w).code == 0
    ensures (forall j <- p.jobs :: j in Invoke(p, d, maxJobs, false, w).disk.matching)
      <==> TakesAll(maxJobs, WithStatus(p, d, p.jobs, Pending))
  {
    if TakesAll(maxJobs, WithStatus(p, d, p.jobs, Pending)) {
      WholeBatchCompletes(p, d, maxJobs, w);
    } else {
      CutBatchLeavesWork(p, d, maxJobs, w);
    }
  }

  lemma WholeBatchCompletes(p: Plan, d: Disk, maxJobs: Option<int>, w: World)
    requires Invoke(p, d, maxJobs, false, w).code == 0 && TakesAll(maxJobs, WithStatus(p, d, p.jobs, Pending))
    ensures forall j <- p.jobs :: j in Invoke(p, d, maxJobs, false, w).disk.matching
  {
    var pending := WithStatus(p, d, p.jobs, Pending);
    WithStatusExact(p, d, p.jobs, Pending);
    WithStatusExact(p, d, p.jobs, Terminal);
    var r := Invoke(p, d, maxJobs, false, w);
    if pending != [] {
      BatchCodes(p, d, pending, |pending|, 0, w, false);
      BatchWithoutFailure(p, d, pending, |pending|, 0, w);
    }
    forall j <- p.jobs ensures j in r.disk.matching {
      assert StatusOf(p, d, j).Matched? || StatusOf(p, d, j).Terminal? || StatusOf(p, d, j).Pending?;
      assert StatusOf(p, d, j).Terminal? ==> j in WithStatus(p, d, p.jobs, Terminal);
    }
  }

  /** The last pending job is not in the batch, and stays as it was. */
  lemma CutBatchLeavesWork(p: Plan, d: Disk, maxJobs: Option<int>, w: World)
    requires Distinct(p.jobs) && Invoke(p, d, maxJobs, false, w).code == 0
    requires !TakesAll(maxJobs, WithStatus(p, d, p.jobs, Pending))
    ensures exists j <- p.jobs :: j !in Invoke(p, d, maxJobs, false, w).disk.matching
  {
    var pending := WithStatus(p, d, p.jobs, Pending);
    var n, last := |BatchOf(pending, maxJobs)|, pending[|pending| - 1];
    WithStatusExact(p, d, p.jobs, Pending);
    WithStatusDistinct(p, d, p.jobs, Pending);
    assert last in pending && n < |pending| && last !in pending[0..n];
    if n > 0 {
      BatchCodes(p, d, pending, n, 0, w, false);
      BatchRunsOnlyItsJobs(p, d, pending, n, 0, w, false);
      assert Same(d, Invoke(p, d, maxJobs, false, w).disk, last);
    }
  }

  /** After exit code 2 every job of the plan has a matching result or a state that says why it has none. */
  lemma BudgetExitExplainsEveryJob(p: Plan, d: Disk, maxJobs: Option<int>, w: World)
    requires Invoke(p, d, maxJobs, false, w).code == 2
    ensures forall j <- p.jobs :: Explained(Invoke(p, d, maxJobs, false, w).disk, j)
  {
    var pending := WithStatus(p, d, p.jobs, Pending);
    var n := |BatchOf(pending, maxJobs)|;
    BudgetStopExplains(p, d, pending, n, 0, w);
    WithStatusExact(p, d, p.jobs, Pending);
    forall j <- p.jobs ensures Explained(Invoke(p, d, maxJobs, false, w).disk, j) {
      if StatusOf(p, d, j).Pending? {
        assert j in pending && j in pending[0..];
      } else {
        BatchKeepsExplained(p, d, pending, n, 0, w, j);
      }
    }
  }

  /** Asked for zero jobs, an invocation does nothing, and reports success exactly if no job is terminal. */
  lemma ZeroJobsReportsSuccess(p: Plan, d: Disk, dryRun: bool, w: World)
    ensures var r := Invoke(p, d, Some(0), dryRun, w);
      && r.disk == d && r.runs == []
      && (r.code == 0 <==> forall j <- p.jobs :: !StatusOf(p, d, j).Terminal?)
  {
    WithStatusExact(p, d, p.jobs, Terminal);
  }

  /** For example with a single job that never ran. */
  lemma ZeroJobsLeaveWork(w: World)
    ensures var p := Plan(["a"], true, true, 2, 1);
      Invoke(p, Disk(map[], {}), Some(0), false, w).code == 0
        && WithStatus(p, Disk(map[], {}), p.jobs, Pending) == ["a"]
  {
    var p, d := Plan(["a"], true, true, 2, 1), Disk(map[], {});
    ZeroJobsReportsSuccess(p, d, false, w);
    assert StatusOf(p, d, "a").Pending?;
    assert p.jobs[..0] == [];
    assert WithStatus(p, d, p.jobs[..0], Pending) == [];
  }

  // ---------------------------------------------------------------- terminal jobs inside one invocation

  /** Some place of the batch runs its job while the state of that job is FAILED_TERMINAL. */
  predicate RunsTerminal(p: Plan, d: Disk, pending: seq<string>, n: nat, i: nat, w: World)
    requires i <= n <= |pending|
    decreases n - i
  {
    if i == n then false
    else
      var job := pending[i];
      if job in d.matching then RunsTerminal(p, d, pending, n, i + 1, w)
      else if p.withLedger && !w.canReserve(i) then false
      else
        var (d', _, end) := Attempts(p, d, job, w, i, CarriedAttempts(d, job), 1);
        IsFailedTerminal(d, job) || (!end.BudgetStop? && !end.QuotaStop? && RunsTerminal(p, d', pending, n, i + 1, w))
  }

  predicate InvokeRunsTerminal(p: Plan, d: Disk, maxJobs: Option<int>, w: World) {
    var pending := WithStatus(p, d, p.jobs, Pending);
    w.locksHold && RunsTerminal(p, d, pending, |BatchOf(pending, maxJobs)|, 0, w)
  }

  function Occurrences(jobs: seq<string>, job: string): nat {
    if jobs == [] then 0 else (if jobs[0] == job then 1 else 0) + Occurrences(jobs[1..], job)
  }

  /** How often a job runs before it counts as failed in one place of a batch. */
  function AttemptsPerPlace(p: Plan): nat {
    if p.maxAttempts > 0 then p.maxAttempts else 0
  }

  /** The failures that a job has on record, and those of `times` more places of the batch. */
  function FailuresAfter(p: Plan, d: Disk, job: string, times: nat): nat {
    CarriedAttempts(d, job) + AttemptsPerPlace(p) * times
  }

  /** The job at place `b` is terminal by the time the batch gets there, if everything fails from place `i` on. */
  predicate TerminalByThen(p: Plan, d: Disk, pending: seq<string>, i: nat, b: nat)
    requires i <= b < |pending|
  {
    && pending[b] !in d.matching
    && (IsFailedTerminal(d, pending[b])
        || FailuresAfter(p, d, pending[b], Occurrences(pending[i..b], pending[b])) >= p.maxResume)
  }

  /** The repetitions of an identifier in the batch are enough to reach the limit before its last place. */
  predicate RepeatedToTheLimit(p: Plan, d: Disk, pending: seq<string>, n: nat)
    requires n <= |pending|
  {
    exists b :: 0 <= b < n && FailuresAfter(p, d, pending[b], Occurrences(pending[..b], pending[b])) >= p.maxResume
  }

  lemma OneMoreFailure(p: Plan, d: Disk, d': Disk, job: string, times: nat)
    requires job in d'.states && d'.states[job] == InfraError(CarriedAttempts(d, job) + AttemptsPerPlace(p))
    ensures FailuresAfter(p, d', job, times) == FailuresAfter(p, d, job, times + 1)
  {
    assert AttemptsPerPlace(p) * (times + 1) == AttemptsPerPlace(p) * times + AttemptsPerPlace(p);
  }

  lemma MoreTimesMoreFailures(p: Plan, d: Disk, job: string, times: nat)
    requires times >= 1
    ensures FailuresAfter(p, d, job, times) >= CarriedAttempts(d, job) + AttemptsPerPlace(p)
  {
    assert AttemptsPerPlace(p) * times == AttemptsPerPlace(p) + AttemptsPerPlace(p) * (times - 1);
  }

  /** A place that ends in failure has run its job as often as it could. */
  lemma {:induction false} FailedPlaceRanOut(p: Plan, d: Disk, job: string, w: World, i: nat, done: nat, local: nat)
    requires local >= 1 && Attempts(p, d, job, w, i, done, local).2.Failed?
    ensures Attempts(p, d, job, w, i, done, local).1 == if p.maxAttempts >= local then p.maxAttempts - local + 1 else 0
    decreases p.maxAttempts - local
  {
    if local > p.maxAttempts {
    } else {
      FailedPlaceRanOut(p, Ran(d, job, w.run(i, local)), job, w, i, done + 1, local + 1);
    }
  }

  /** What one place of a batch that goes on does to the record of failures. */
  lemma PlaceFacts(p: Plan, d: Disk, job: string, w: World, i: nat)
    requires p.budgetSchema
    ensures var (d', _, end) := Attempts(p, d, job, w, i, CarriedAttempts(d, job), 1);
      && (forall j :: j != job ==> Same(d, d', j))
      && (end.Succeeded? ==> job in d'.matching)
      && (end.Failed? ==>
            job in d'.states && d'.states[job] == FailedState(p, CarriedAttempts(d, job) + AttemptsPerPlace(p)))
  {
    AttemptsFacts(p, d, job, w, i, CarriedAttempts(d, job), 1);
    if Attempts(p, d, job, w, i, CarriedAttempts(d, job), 1).2.Failed? {
      FailedPlaceRanOut(p, d, job, w, i, CarriedAttempts(d, job), 1);
    }
  }

  /** In any world, a terminal job only runs where the repetitions before it reach the limit. */
  lemma {:induction false} TerminalRunNeedsFailures(p: Plan, d: Disk, pending: seq<string>, n: nat, i: nat, w: World)
    returns (b: nat)
    requires i <= n <= |pending| && p.budgetSchema && RunsTerminal(p, d, pending, n, i, w)
    ensures i <= b < n && TerminalByThen(p, d, pending, i, b)
    decreases n - i
  {
    var job := pending[i];
    if job in d.matching {
      b := TerminalRunNeedsFailures(p, d, pending, n, i + 1, w);
      OccurrencesFrom(pending, i, b);
    } else if IsFailedTerminal(d, job) {
      b := i;
    } else {
      var d' := Attempts(p, d, job, w, i, CarriedAttempts(d, job), 1).0;
      b := TerminalRunNeedsFailures(p, d', pending, n, i + 1, w);
      PlaceFacts(p, d, job, w, i);
      TerminalBefore(p, d, d', pending, i, b);
    }
  }

  lemma OccurrencesFrom(pending: seq<string>, i: nat, b: nat)
    requires i < b < |pending|
    ensures Occurrences(pending[i..b], pending[b]) == Occurrences(pending[i + 1..b], pending[b])
      + if pending[i] == pending[b] then 1 else 0
  {
    assert pending[i..b][1..] == pending[i + 1..b];
  }

  /** From after a place back to before it. */
  lemma TerminalBefore(p: Plan, d: Disk, d': Disk, pending: seq<string>, i: nat, b: nat)
    requires i < b < |pending| && p.budgetSchema && pending[i] !in d.matching
      && TerminalByThen(p, d', pending, i + 1, b)
    requires forall j :: j != pending[i] ==> Same(d, d', j)
    requires pending[i] !in d'.matching ==>
      pending[i] in d'.states
        && d'.states[pending[i]] == FailedState(p, CarriedAttempts(d, pending[i]) + AttemptsPerPlace(p))
    ensures TerminalByThen(p, d, pending, i, b)
  {
    var job, times := pending[b], Occurrences(pending[i + 1..b], pending[b]);
    OccurrencesFrom(pending, i, b);
    if job != pending[i] {
      assert Same(d, d', job);
    } else if IsFailedTerminal(d', job) {
      MoreTimesMoreFailures(p, d, job, times + 1);
    } else {
      OneMoreFailure(p, d, d', job, times);
    }
  }

  /** If everything fails, it does run there. */
  lemma {:induction false} FailuresRunTerminal(p: Plan, d: Disk, pending: seq<string>, n: nat, i: nat, b: nat)
    requires i <= b < n <= |pending| && p.budgetSchema && TerminalByThen(p, d, pending, i, b)
    requires forall k :: i <= k < n ==> CarriedAttempts(d, pending[k]) < p.maxResume
    ensures RunsTerminal(p, d, pending, n, i, AllFails())
    decreases n - i
  {
    var job, w := pending[i], AllFails();
    if job in d.matching {
      OccurrencesFrom(pending, i, b);
      FailuresRunTerminal(p, d, pending, n, i + 1, b);
    } else if b == i || IsFailedTerminal(d, job) {
      assert pending[i..i] == [] && AttemptsPerPlace(p) * 0 == 0;
    } else {
      var d' := Attempts(p, d, job, w, i, CarriedAttempts(d, job), 1).0;
      AllFailsFails(p, d, job, i, CarriedAttempts(d, job), 1);
      PlaceFacts(p, d, job, w, i);
      TerminalAfter(p, d, d', pending, i, b);
      forall k | i + 1 <= k < n ensures CarriedAttempts(d', pending[k]) < p.maxResume {
        assert pending[k] != job ==> Same(d, d', pending[k]);
      }
      FailuresRunTerminal(p, d', pending, n, i + 1, b);
    }
  }

  /** Every run fails, and nothing stops the batch. */
  function AllFails(): World {
    World(true, _ => true, (_, _) => Outcome(false, false, false, false))
  }

  lemma {:induction false} AllFailsFails(p: Plan, d: Disk, job: string, i: nat, done: nat, local: nat)
    requires job !in d.matching
    ensures var (d', _, end) := Attempts(p, d, job, AllFails(), i, done, local);
      end.Failed? && d'.matching == d.matching
    decreases p.maxAttempts - local
  {
    if local > p.maxAttempts {
    } else {
      AllFailsFails(p, Ran(d, job, AllFails().run(i, local)), job, i, done + 1, local + 1);
    }
  }

  lemma TerminalAfter(p: Plan, d: Disk, d': Disk, pending: seq<string>, i: nat, b: nat)
    requires i < b < |pending| && p.budgetSchema && TerminalByThen(p, d, pending, i, b)
      && !IsFailedTerminal(d, pending[i])
    requires d'.matching == d.matching && forall j :: j != pending[i] ==> Same(d, d', j)
    requires pending[i] in d'.states
    requires d'.states[pending[i]] == FailedState(p, CarriedAttempts(d, pending[i]) + AttemptsPerPlace(p))
    ensures TerminalByThen(p, d', pending, i + 1, b)
  {
    var job, times := pending[b], Occurrences(pending[i + 1..b], pending[b]);
    OccurrencesFrom(pending, i, b);
    if job != pending[i] {
      assert Same(d, d', job);
    } else if !IsFailedTerminal(d', job) {
      OneMoreFailure(p, d, d', job, times);
    }
  }

  /**
   Under a budget plan some invocation can run a job that is already FAILED_TERMINAL exactly if an
   identifier is repeated in the batch often enough for its failures to reach the limit before its last place.
   */
  lemma TerminalRunsAgainExactly(p: Plan, d: Disk, maxJobs: Option<int>)
    requires p.budgetSchema
    ensures (exists w :: InvokeRunsTerminal(p, d, maxJobs, w)) <==>
      var pending := WithStatus(p, d, p.jobs, Pending); RepeatedToTheLimit(p, d, pending, |BatchOf(pending, maxJobs)|)
  {
    var pending := WithStatus(p, d, p.jobs, Pending);
    var n := |BatchOf(pending, maxJobs)|;
    PendingPlaces(p, d, n, pending);
    if w :| InvokeRunsTerminal(p, d, maxJobs, w) {
      var b := TerminalRunNeedsFailures(p, d, pending, n, 0, w);
      assert pending[0..b] == pending[..b];
    }
    if RepeatedToTheLimit(p, d, pending, n) {
      var b :| 0 <= b < n && FailuresAfter(p, d, pending[b], Occurrences(pending[..b], pending[b])) >= p.maxResume;
      assert pending[0..b] == pending[..b];
      FailuresRunTerminal(p, d, pending, n, 0, b);
      assert InvokeRunsTerminal(p, d, maxJobs, AllFails());
    }
  }

  lemma PendingPlaces(p: Plan, d: Disk, n: nat, pending: seq<string>)
    requires p.budgetSchema && pending == WithStatus(p, d, p.jobs, Pending) && n <= |pending|
    ensures forall k :: 0 <= k < n ==>
      pending[k] !in d.matching && !IsFailedTerminal(d, pending[k]) && CarriedAttempts(d, pending[k]) < p.maxResume
  {
    WithStatusExact(p, d, p.jobs, Pending);
    forall k | 0 <= k < n ensures StatusOf(p, d, pending[k]).Pending? {
      assert pending[k] in pending;
    }
  }

  /** With distinct identifiers no invocation ever does. */
  lemma DistinctJobsNeverRunTerminal(p: Plan, d: Disk, maxJobs: Option<int>, w: World)
    requires p.budgetSchema && Distinct(p.jobs)
    ensures !InvokeRunsTerminal(p, d, maxJobs, w)
  {
    var pending := WithStatus(p, d, p.jobs, Pending);
    var n := |BatchOf(pending, maxJobs)|;
    WithStatusDistinct(p, d, p.jobs, Pending);
    PendingPlaces(p, d, n, pending);
    TerminalRunsAgainExactly(p, d, maxJobs);
    forall b | 0 <= b < n ensures FailuresAfter(p, d, pending[b], Occurrences(pending[..b], pending[b])) < p.maxResume {
      NoOccurrence(pending[..b], pending[b]);
      assert AttemptsPerPlace(p) * 0 == 0;
    }
  }

  lemma {:induction false} NoOccurrence(jobs: seq<string>, job: string)
    requires job !in jobs
    ensures Occurrences(jobs, job) == 0
  {
    if jobs == [] {
    } else {
      NoOccurrence(jobs[1..], job);
    }
  }

  /** Two jobs with one identifier share their files: the second place runs the job that the first one ended. */
  lemma SharedIdentifierRunsTerminalAgain(withLedger: bool)
    ensures var p, d := Plan(["a", "a"], true, withLedger, 1, 1), Disk(map[], {});
      && InvokeRunsTerminal(p, d, None, AllFails())
      && Invoke(p, d, None, false, AllFails()).runs == ["a", "a"]
  {
    var p, d, w := Plan(["a", "a"], true, withLedger, 1, 1), Disk(map[], {}), AllFails();
    TwoPending(p, d);
    var pending := ["a", "a"];
    var d1 := Attempts(p, d, "a", w, 0, 0, 1).0;
    assert Attempts(p, Ran(d, "a", w.run(0, 1)), "a", w, 0, 1, 2).1 == 0;
    assert IsFailedTerminal(d1, "a");
    var d2 := Attempts(p, d1, "a", w, 1, 0, 1).0;
    assert Attempts(p, Ran(d1, "a", w.run(1, 1)), "a", w, 1, 1, 2).1 == 0;
    assert RunBatch(p, d2, pending, 2, 2, w, false).runs == [];
    assert RunBatch(p, d1, pending, 2, 1, w, false).runs == ["a"];
    assert RunsTerminal(p, d1, pending, 2, 1, w);
  }

  lemma TwoPending(p: Plan, d: Disk)
    requires p.jobs == ["a", "a"] && StatusOf(p, d, "a").Pending?
    ensures WithStatus(p, d, p.jobs, Pending) == ["a", "a"]
  {
    assert p.jobs[..1] == ["a"] && ["a"][..0] == [];
    assert WithStatus(p, d, ["a"], Pending) == ["a"];
  }

  // ---------------------------------------------------------------- repeated invocations

  /** One call of the script, and what it meets. */
  datatype Call = Call(maxJobs: Option<int>, dryRun: bool, world: World)

  function Result(p: Plan, d: Disk, c: Call): Invocation {
    Invoke(p, d, c.maxJobs, c.dryRun, c.world)
  }

  /** The directory after a sequence of calls. */
  function Repeat(p: Plan, d: Disk, calls: seq<Call>): Disk {
    if calls == [] then d else Result(p, Repeat(p, d, calls[..|calls| - 1]), calls[|calls| - 1]).disk
  }

  /** A settled job is not run by any later call, whatever the calls ask for and meet, and stays settled. */
  lemma SettledForGood(p: Plan, d: Disk, calls: seq<Call>, job: string)
    requires p.budgetSchema && Settled(d, job)
    ensures forall k :: 0 <= k < |calls| ==> job !in Result(p, Repeat(p, d, calls[..k]), calls[k]).runs
    ensures Settled(Repeat(p, d, calls), job) && Same(d, Repeat(p, d, calls), job)
  {
    forall k | 0 <= k < |calls| ensures job !in Result(p, Repeat(p, d, calls[..k]), calls[k]).runs {
      SettledStays(p, d, calls[..k], job);
      SettledIsNeverRun(p, Repeat(p, d, calls[..k]), calls[k].maxJobs, calls[k].dryRun, calls[k].world, job);
    }
    SettledStays(p, d, calls, job);
  }

  lemma {:induction false} SettledStays(p: Plan, d: Disk, calls: seq<Call>, job: string)
    requires p.budgetSchema && Settled(d, job)
    ensures Settled(Repeat(p, d, calls), job) && Same(d, Repeat(p, d, calls), job)
  {
    if calls == [] {
    } else {
      var n := |calls| - 1;
      SettledStays(p, d, calls[..n], job);
      SettledIsNeverRun(p, Repeat(p, d, calls[..n]), calls[n].maxJobs, calls[n].dryRun, calls[n].world, job);
    }
  }

  /** The call is a real one, may work, and is not stopped. */
  predicate Works(p: Plan, d: Disk, c: Call) {
    !c.dryRun && AllowsWork(c.maxJobs) && !Interrupted(Result(p, d, c).code)
  }

  predicate AllWork(p: Plan, d: Disk, calls: seq<Call>) {
    forall k :: 0 <= k < |calls| ==> Works(p, Repeat(p, d, calls[..k]), calls[k])
  }

  lemma {:induction false} AttemptsRunOut(p: Plan, d: Disk, calls: seq<Call>)
    requires Distinct(p.jobs) && p.budgetSchema && p.maxAttempts >= 1 && AllWork(p, d, calls)
    ensures var d' := Repeat(p, d, calls);
      WithStatus(p, d', p.jobs, Pending) == [] || Measure(p, d', p.jobs) + |calls| <= Measure(p, d, p.jobs)
  {
    if calls == [] {
    } else {
      var n := |calls| - 1;
      AllWorkBefore(p, d, calls);
      AttemptsRunOut(p, d, calls[..n]);
      InvocationUsesAttempts(p, Repeat(p, d, calls[..n]), calls[n].maxJobs, calls[n].world);
    }
  }

  lemma AllWorkBefore(p: Plan, d: Disk, calls: seq<Call>)
    requires calls != [] && AllWork(p, d, calls)
    ensures AllWork(p, d, calls[..|calls| - 1])
    ensures Works(p, Repeat(p, d, calls[..|calls| - 1]), calls[|calls| - 1])
  {
    var n := |calls| - 1;
    forall k | 0 <= k < n ensures Works(p, Repeat(p, d, calls[..n][..k]), calls[..n][k]) {
      assert calls[..n][..k] == calls[..k];
    }
  }

  lemma {:induction false} PendingMeansMeasure(p: Plan, d: Disk, jobs: seq<string>)
    requires p.budgetSchema
    ensures WithStatus(p, d, jobs, Pending) != [] ==> Measure(p, d, jobs) >= 1
  {
    if jobs == [] {
    } else {
      PendingMeansMeasure(p, d, jobs[..|jobs| - 1]);
    }
  }

  /** Failed attempts on record never reach the limit without the state being FAILED_TERMINAL. */
  predicate WellCounted(p: Plan, d: Disk) {
    forall j <- d.states :: d.states[j].InfraError? ==> d.states[j].attempts < p.maxResume
  }

  lemma {:induction false} AttemptsKeepCounted(p: Plan, d: Disk, job: string, w: World, i: nat, done: nat, local: nat)
    requires p.budgetSchema && WellCounted(p, d)
    ensures WellCounted(p, Attempts(p, d, job, w, i, done, local).0)
    decreases p.maxAttempts - local
  {
    if local > p.maxAttempts {
    } else {
      AttemptsKeepCounted(p, Ran(d, job, w.run(i, local)), job, w, i, done + 1, local + 1);
    }
  }

  lemma {:induction false} MarkKeepsCounted(p: Plan, d: Disk, jobs: seq<string>)
    requires WellCounted(p, d)
    ensures WellCounted(p, MarkNotRun(d, jobs))
  {
    if jobs == [] {
    } else {
      MarkKeepsCounted(p, d, jobs[..|jobs| - 1]);
    }
  }

  lemma {:induction false} BatchKeepsCounted(p: Plan, d: Disk, pending: seq<string>, n: nat, i: nat, w: World,
                                             dryRun: bool)
    requires i <= n <= |pending| && p.budgetSchema && WellCounted(p, d)
    ensures WellCounted(p, RunBatch(p, d, pending, n, i, w, dryRun).disk)
    decreases n - i
  {
    if i == n {
    } else {
      var d' := Attempts(p, d, pending[i], w, i, CarriedAttempts(d, pending[i]), 1).0;
      AttemptsKeepCounted(p, d, pending[i], w, i, CarriedAttempts(d, pending[i]), 1);
      MarkKeepsCounted(p, d, pending[i..]);
      MarkKeepsCounted(p, d', pending[i + 1..]);
      BatchKeepsCounted(p, d, pending, n, i + 1, w, dryRun);
      BatchKeepsCounted(p, d', pending, n, i + 1, w, dryRun);
    }
  }

  lemma {:induction false} RepeatKeepsCounted(p: Plan, d: Disk, calls: seq<Call>)
    requires p.budgetSchema && WellCounted(p, d)
    ensures WellCounted(p, Repeat(p, d, calls))
  {
    if calls == [] {
    } else {
      var n := |calls| - 1;
      RepeatKeepsCounted(p, d, calls[..n]);
      var before := Repeat(p, d, calls[..n]);
      var pending := WithStatus(p, before, p.jobs, Pending);
      BatchKeepsCounted(p, before, pending, |BatchOf(pending, calls[n].maxJobs)|, 0, calls[n].world, calls[n].dryRun);
    }
  }

  /** From any directory nothing is pending after as many working calls as there are resume attempts left. */
  lemma NothingStaysPending(p: Plan, d: Disk, calls: seq<Call>)
    requires Distinct(p.jobs) && p.budgetSchema && p.maxAttempts >= 1
    requires AllWork(p, d, calls) && |calls| >= Measure(p, d, p.jobs)
    ensures forall j <- p.jobs :: !StatusOf(p, Repeat(p, d, calls), j).Pending?
  {
    var d' := Repeat(p, d, calls);
    AttemptsRunOut(p, d, calls);
    PendingMeansMeasure(p, d', p.jobs);
    WithStatusExact(p, d', p.jobs, Pending);
  }

  /**
   Whatever calls came before, stopped by locks, budget or quota as they may have been: once calls are no
   longer stopped, every job of a budget plan ends complete or FAILED_TERMINAL, after as many of them as
   there are resume attempts left over all jobs.
   */
  lemma EveryJobEnds(p: Plan, earlier: seq<Call>, calls: seq<Call>)
    requires Distinct(p.jobs) && p.budgetSchema && p.maxAttempts >= 1 && p.maxResume >= 1
    requires var d := Repeat(p, Disk(map[], {}), earlier); AllWork(p, d, calls) && |calls| >= Measure(p, d, p.jobs)
    ensures forall j <- p.jobs :: Settled(Repeat(p, Repeat(p, Disk(map[], {}), earlier), calls), j)
  {
    RepeatKeepsCounted(p, Disk(map[], {}), earlier);
    EveryJobEndsFrom(p, Repeat(p, Disk(map[], {}), earlier), calls);
  }

  /** The same from any directory in which no failures are recorded beyond the limit. */
  lemma EveryJobEndsFrom(p: Plan, d: Disk, calls: seq<Call>)
    requires Distinct(p.jobs) && p.budgetSchema && p.maxAttempts >= 1 && p.maxResume >= 1 && WellCounted(p, d)
    requires AllWork(p, d, calls) && |calls| >= Measure(p, d, p.jobs)
    ensures forall j <- p.jobs :: Settled(Repeat(p, d, calls), j)
  {
    var d' := Repeat(p, d, calls);
    NothingStaysPending(p, d, calls);
    RepeatKeepsCounted(p, d, calls);
    forall j <- p.jobs ensures Settled(d', j) {
      assert !StatusOf(p, d', j).Pending?;
    }
  }

  /** With no resume attempts configured nothing ever runs, and jobs stay without a state. */
  lemma NoResumeAttemptsRunsNothing(p: Plan, d: Disk, maxJobs: Option<int>, dryRun: bool, w: World)
    requires p.budgetSchema && p.maxResume <= 0
    ensures Invoke(p, d, maxJobs, dryRun, w).runs == [] && Invoke(p, d, maxJobs, dryRun, w).disk == d
  {
    WithStatusExact(p, d, p.jobs, Pending);
  }

  // ---------------------------------------------------------------- the code

  class RunDirectory {
    var states: map<string, JobState>
    var matching: set<string>

    function Value(): Disk
      reads this
    {
      Disk(states, matching)
    }

    constructor ()
      ensures Value() == Disk(map[], {})
    {
      states, matching := map[], {};
    }

    method MarkNotRunBudget(jobs: seq<string>)
      modifies this
      ensures Value() == MarkNotRun(old(Value()), jobs)
    {
      for i := 0 to |jobs|
        invariant Value() == MarkNotRun(old(Value()), jobs[..i])
      {
        assert jobs[..i + 1][..i] == jobs[..i];
        if jobs[i] !in states {
          states := states[jobs[i] := NotRunBudget(0)];
        }
      }
      assert jobs[..|jobs|] == jobs;
    }

    method RunJob(p: Plan, job: string, w: World, i: nat) returns (runs: nat, end: End)
      modifies this
      ensures (Value(), runs, end) == Attempts(p, old(Value()), job, w, i, CarriedAttempts(old(Value()), job), 1)
    {
      var attempts: nat := if job in states && states[job].InfraError? then states[job].attempts else 0;
      var local := 1;
      runs := 0;
      while local <= p.maxAttempts
        invariant local >= 1
        invariant var (d, rest, last) := Attempts(p, Value(), job, w, i, attempts, local);
          (d, runs + rest, last) == Attempts(p, old(Value()), job, w, i, CarriedAttempts(old(Value()), job), 1)
        decreases p.maxAttempts - local
      {
        var o := w.run(i, local);
        attempts, runs := attempts + 1, runs + 1;
        matching := if o.matches then matching + {job} else matching - {job};
        if o.exitOk && o.matches {
          states := states[job := Complete(attempts)];
          return runs, Succeeded;
        }
        if p.withLedger && o.budgetBlock {
          states := states[job := NotRunBudget(attempts)];
          return runs, BudgetStop;
        }
        if o.quotaPause {
          states := states[job := PausedQuota(attempts)];
          return runs, QuotaStop;
        }
        local := local + 1;
      }
      var terminal := p.budgetSchema && attempts >= p.maxResume;
      states := states[job := if terminal then FailedTerminal(attempts) else InfraError(attempts)];
      return runs, Failed;
    }

    /** The loops over all jobs that pick the pending and the terminal ones. */
    method Classify(p: Plan) returns (pending: seq<string>, terminal: seq<string>)
      ensures pending == WithStatus(p, Value(), p.jobs, Pending) && terminal == WithStatus(p, Value(), p.jobs, Terminal)
    {
      pending, terminal := [], [];
      for k := 0 to |p.jobs|
        invariant pending == WithStatus(p, Value(), p.jobs[..k], Pending)
        invariant terminal == WithStatus(p, Value(), p.jobs[..k], Terminal)
      {
        assert p.jobs[..k + 1][..k] == p.jobs[..k];
        var status := StatusOf(p, Value(), p.jobs[k]);
        if status.Terminal? {
          terminal := terminal + [p.jobs[k]];
        } else if status.Pending? {
          pending := pending + [p.jobs[k]];
        }
      }
      assert p.jobs[..|p.jobs|] == p.jobs;
    }

    /** The job at one place of the batch; `next` is false where the loop returns. */
    method RunOne(p: Plan, pending: seq<string>, n: nat, i: nat, dryRun: bool, w: World)
      returns (runs: seq<string>, stop: Option<int>, failed: nat)
      requires i < n <= |pending|
      modifies this
      ensures var rest := RunBatch(p, Value(), pending, n, i + 1, w, dryRun);
        RunBatch(p, old(Value()), pending, n, i, w, dryRun)
        == if stop.Some? then Batch(Value(), runs, stop, 0)
           else Batch(rest.disk, runs + rest.runs, rest.stop, failed + rest.failed)
    {
      runs, stop, failed := [], None, 0;
      var job := pending[i];
      if job in matching {
        assert forall s: seq<string> :: [] + s == s;
        return;
      }
      if p.withLedger && !w.canReserve(i) {
        MarkNotRunBudget(pending[i..]);
        stop := Some(2);
        return;
      }
      if dryRun {
        assert forall s: seq<string> :: [] + s == s;
        return;
      }
      var times, end := RunJob(p, job, w, i);
      runs := Times(job, times);
      if end.BudgetStop? {
        MarkNotRunBudget(pending[i + 1..]);
        stop := Some(2);
      } else if end.QuotaStop? {
        stop := Some(4);
      } else if end.Failed? {
        failed := 1;
      }
    }

    method RunAll(p: Plan, pending: seq<string>, n: nat, dryRun: bool, w: World)
      returns (runs: seq<string>, stop: Option<int>, failed: nat)
      requires n <= |pending|
      modifies this
      ensures var b := RunBatch(p, old(Value()), pending, n, 0, w, dryRun);
        Value() == b.disk && runs == b.runs && stop == b.stop && (stop.None? ==> failed == b.failed)
    {
      ghost var batch := RunBatch(p, Value(), pending, n, 0, w, dryRun);
      runs, failed := [], 0;
      assert [] + batch.runs == batch.runs;
      var i := 0;
      while i < n
        invariant 0 <= i <= n
        invariant var rest := RunBatch(p, Value(), pending, n, i, w, dryRun);
          batch.disk == rest.disk && batch.runs == runs + rest.runs && batch.stop == rest.stop
          && (batch.stop.None? ==> batch.failed == failed + rest.failed)
      {
        ghost var sofar := runs;
        var more, stopped, failure := RunOne(p, pending, n, i, dryRun, w);
        runs, failed := runs + more, failed + failure;
        if stopped.Some? {
          return runs, stopped, failed;
        }
        i := i + 1;
        ghost var rest := RunBatch(p, Value(), pending, n, i, w, dryRun);
        assert sofar + (more + rest.runs) == runs + rest.runs;
      }
      assert runs + [] == runs;
      stop := None;
    }

    method RunJobs(p: Plan, maxJobs: Option<int>, dryRun: bool, w: World) returns (runs: seq<string>, code: int)
      modifies this
      ensures Invocation(Value(), runs, code) == Invoke(p, old(Value()), maxJobs, dryRun, w)
    {
      var pending, terminal := Classify(p);
      var jobs := BatchOf(pending, maxJobs);
      if jobs == [] {
        return [], if terminal != [] then 1 else 0;
      }
      if !dryRun && !w.locksHold {
        return [], 3;
      }
      var stop, failed;
      runs, stop, failed := RunAll(p, pending, |jobs|, dryRun, w);
      code := if stop.Some? then stop.value else if failed > 0 || terminal != [] then 1 else 0;
    }
  }
}
