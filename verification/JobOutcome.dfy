/**
 What one invocation of the scheduler leaves behind, told job by job: every job of a batch fares as if it were
 alone, up to the first place that stops the batch, and the exit code follows from that.
 */
module JobOutcomes {
  import opened Common
  import opened JobScheduler

  // ---------------------------------------------------------------- the attempts on one job

  predicate Success(o: Outcome) {
    o.exitOk && o.matches
  }

  predicate Decisive(p: Plan, o: Outcome) {
    Success(o) || (p.withLedger && o.budgetBlock) || o.quotaPause
  }

  predicate HasState(d: Disk, job: string, state: JobState) {
    job in d.states && d.states[job] == state
  }

  /**
   All runs before the last one failed without deciding anything. The last one decides, or it is the last that is
   allowed; the state file counts all of them, and the result is the one that the last run left.
   */
  predicate AttemptsOk(p: Plan, d: Disk, job: string, w: World, i: nat, done: nat, local: nat, r: (Disk, nat, End))
    requires local >= 1
  {
    var (d', runs, end) := r;
    var last := w.run(i, local + runs - 1);
    && (forall k: nat :: local <= k < local + runs - 1 ==> !Decisive(p, w.run(i, k)))
    && (runs > 0 ==> local + runs - 1 <= p.maxAttempts)
    && (job in d'.matching <==> if runs == 0 then job in d.matching else last.matches)
    && match end
       case Succeeded => runs > 0 && Success(last) && HasState(d', job, Complete(done + runs))
       case BudgetStop =>
         runs > 0 && !Success(last) && p.withLedger && last.budgetBlock && HasState(d', job, NotRunBudget(done + runs))
       case QuotaStop =>
         && runs > 0 && !Success(last) && !(p.withLedger && last.budgetBlock) && last.quotaPause
         && HasState(d', job, PausedQuota(done + runs))
       case Failed =>
         && local + runs > p.maxAttempts && (runs > 0 ==> !Decisive(p, last))
         && HasState(d', job, FailedState(p, done + runs))
  }

  lemma {:induction false} AttemptsOutcome(p: Plan, d: Disk, job: string, w: World, i: nat, done: nat, local: nat)
    requires local >= 1
    ensures AttemptsOk(p, d, job, w, i, done, local, Attempts(p, d, job, w, i, done, local))
    decreases p.maxAttempts - local
  {
    if local > p.maxAttempts {
    } else {
      var o := w.run(i, local);
      if Decisive(p, o) {
      } else {
        AttemptsOutcome(p, Ran(d, job, o), job, w, i, done + 1, local + 1);
      }
    }
  }

  /** What is on file for other jobs does not matter. */
  lemma {:induction false} AttemptsAreLocal(p: Plan, d: Disk, e: Disk, job: string, w: World, i: nat, done: nat,
                                            local: nat)
    requires Same(d, e, job)
    ensures var (x, y) := (Attempts(p, d, job, w, i, done, local), Attempts(p, e, job, w, i, done, local));
      x.1 == y.1 && x.2 == y.2 && Same(x.0, y.0, job)
    decreases p.maxAttempts - local
  {
    if local > p.maxAttempts {
    } else {
      var o := w.run(i, local);
      if Decisive(p, o) {
      } else {
        AttemptsAreLocal(p, Ran(d, job, o), Ran(e, job, o), job, w, i, done + 1, local + 1);
      }
    }
  }

  /** The job at place `k`, with nothing before it. */
  function Alone(p: Plan, d: Disk, job: string, w: World, k: nat): (Disk, nat, End) {
    Attempts(p, d, job, w, k, CarriedAttempts(d, job), 1)
  }

  lemma AloneIsLocal(p: Plan, d: Disk, e: Disk, job: string, w: World, k: nat)
    requires Same(d, e, job)
    ensures var (x, y) := (Alone(p, d, job, w, k), Alone(p, e, job, w, k));
      x.1 == y.1 && x.2 == y.2 && Same(x.0, y.0, job)
  {
    AttemptsAreLocal(p, d, e, job, w, k, CarriedAttempts(d, job), 1);
  }

  // ---------------------------------------------------------------- which jobs are pending

  /** The state file of a job says that it has used up its resume attempts. */
  predicate UsedUp(p: Plan, d: Disk, job: string) {
    && job in d.states
    && match d.states[job]
       case FailedTerminal(_) => true
       case InfraError(attempts) => attempts >= p.maxResume
       case _ => false
  }

  /**
   A job with its matching result is done. Of the others one is terminal only under a budget plan, and exactly if
   it has used up its resume attempts, or if there are none.
   */
  lemma StatusExactly(p: Plan, d: Disk, job: string)
    ensures StatusOf(p, d, job).Matched? <==> job in d.matching
    ensures StatusOf(p, d, job).Terminal? <==>
      job !in d.matching && p.budgetSchema && (UsedUp(p, d, job) || p.maxResume <= 0)
  {
  }

  // ---------------------------------------------------------------- a batch

  predicate Refused(p: Plan, w: World, k: nat) {
    p.withLedger && !w.canReserve(k)
  }

  predicate Stops(p: Plan, d: Disk, job: string, w: World, k: nat) {
    Refused(p, w, k) || Alone(p, d, job, w, k).2.BudgetStop? || Alone(p, d, job, w, k).2.QuotaStop?
  }

  /** A job that was not reached in a budget stop has a state afterwards. */
  predicate Marked(d: Disk, d': Disk, job: string) {
    && (job in d.matching <==> job in d'.matching)
    && HasState(d', job, if job in d.states then d.states[job] else NotRunBudget(0))
  }

  /** The batch from place `i` on went as far as place `m`. */
  predicate WentTo(p: Plan, d: Disk, pending: seq<string>, n: nat, i: nat, w: World, b: Batch, m: nat)
    requires i <= m <= n <= |pending|
  {
    && (forall k :: i <= k < m ==>
          !Stops(p, d, pending[k], w, k) && Same(Alone(p, d, pending[k], w, k).0, b.disk, pending[k]))
    && (if m == n then
          && b.stop.None? && (forall k :: n <= k < |pending| ==> Same(d, b.disk, pending[k]))
          && (b.failed > 0 <==> exists k :: i <= k < n && Alone(p, d, pending[k], w, k).2.Failed?)
        else if Refused(p, w, m) then
          b.stop == Some(2) && forall k :: m <= k < |pending| ==> Marked(d, b.disk, pending[k])
        else
          var (last, _, end) := Alone(p, d, pending[m], w, m);
          && Same(last, b.disk, pending[m])
          && match end
             case BudgetStop => b.stop == Some(2) && forall k :: m < k < |pending| ==> Marked(d, b.disk, pending[k])
             case QuotaStop => b.stop == Some(4) && forall k :: m < k < |pending| ==> Same(d, b.disk, pending[k])
             case _ => false)
  }

  lemma {:induction false} MarkNotRunMarks(d: Disk, jobs: seq<string>)
    ensures forall j <- jobs :: Marked(d, MarkNotRun(d, jobs), j)
  {
    if jobs == [] {
    } else {
      var n := |jobs| - 1;
      MarkNotRunMarks(d, jobs[..n]);
      MarkNotRunFacts(d, jobs[..n]);
      forall j <- jobs ensures Marked(d, MarkNotRun(d, jobs), j) {
        assert j == jobs[n] || j in jobs[..n];
        if j !in jobs[..n] {
          assert Same(d, MarkNotRun(d, jobs[..n]), j);
        }
      }
    }
  }

  /** Each job of a batch fares as if it were alone, up to the first place that stops the batch. */
  lemma {:induction false} BatchOutcome(p: Plan, d: Disk, pending: seq<string>, n: nat, i: nat, w: World)
    returns (m: nat)
    requires i <= n <= |pending| && Distinct(pending)
    requires forall k :: i <= k < n ==> pending[k] !in d.matching
    ensures i <= m <= n && WentTo(p, d, pending, n, i, w, RunBatch(p, d, pending, n, i, w, false), m)
    decreases n - i
  {
    var b := RunBatch(p, d, pending, n, i, w, false);
    m := i;
    if i == n {
    } else if Refused(p, w, i) {
      MarkNotRunMarks(d, pending[i..]);
      forall k | i <= k < |pending| ensures Marked(d, b.disk, pending[k]) {
        assert pending[i..][k - i] == pending[k];
      }
    } else {
      var job := pending[i];
      var (d', runs, end) := Alone(p, d, job, w, i);
      AttemptsFacts(p, d, job, w, i, CarriedAttempts(d, job), 1);
      if end.BudgetStop? {
        StopAtPlace(p, d, d', pending, i, b.disk);
      } else if end.QuotaStop? {
        assert forall k :: i < k < |pending| ==> pending[k] != job;
      } else {
        forall k | i < k < n ensures pending[k] !in d'.matching {
          assert Same(d, d', pending[k]);
        }
        m := BatchOutcome(p, d', pending, n, i + 1, w);
        GoesOn(p, d, d', pending, n, i, w, m);
      }
    }
  }

  lemma StopAtPlace(p: Plan, d: Disk, d': Disk, pending: seq<string>, i: nat, after: Disk)
    requires i < |pending| && Distinct(pending) && forall j :: j != pending[i] ==> Same(d, d', j)
    requires after == MarkNotRun(d', pending[i + 1..])
    ensures Same(d', after, pending[i]) && forall k :: i < k < |pending| ==> Marked(d, after, pending[k])
  {
    var rest := pending[i + 1..];
    MarkNotRunMarks(d', rest);
    MarkNotRunFacts(d', rest);
    assert pending[i] !in rest;
    forall k | i < k < |pending| ensures Marked(d, after, pending[k]) {
      assert rest[k - i - 1] == pending[k] && pending[k] != pending[i];
      assert Same(d, d', pending[k]) && Marked(d', after, pending[k]);
    }
  }

  /** The first place was run to its end, and the rest went on from there. */
  lemma GoesOn(p: Plan, d: Disk, d': Disk, pending: seq<string>, n: nat, i: nat, w: World, m: nat)
    requires i < m <= n <= |pending| && Distinct(pending) && pending[i] !in d.matching
    requires !Stops(p, d, pending[i], w, i) && d' == Alone(p, d, pending[i], w, i).0
    requires forall j :: j != pending[i] ==> Same(d, d', j)
    requires WentTo(p, d', pending, n, i + 1, w, RunBatch(p, d', pending, n, i + 1, w, false), m)
    ensures WentTo(p, d, pending, n, i, w, RunBatch(p, d, pending, n, i, w, false), m)
  {
    var b, rest := RunBatch(p, d, pending, n, i, w, false), RunBatch(p, d', pending, n, i + 1, w, false);
    assert b.disk == rest.disk && b.stop == rest.stop;
    BatchRunsOnlyItsJobs(p, d', pending, n, i + 1, w, false);
    assert pending[i] !in pending[i + 1..];
    assert Same(d', b.disk, pending[i]);
    forall k | i < k < |pending|
      ensures Same(d, d', pending[k])
      ensures Alone(p, d, pending[k], w, k).2 == Alone(p, d', pending[k], w, k).2
      ensures Same(Alone(p, d, pending[k], w, k).0, Alone(p, d', pending[k], w, k).0, pending[k])
    {
      assert pending[k] != pending[i];
      AloneIsLocal(p, d, d', pending[k], w, k);
    }
    if m == n {
      if b.failed > 0 && rest.failed == 0 {
        assert Alone(p, d, pending[i], w, i).2.Failed?;
      }
    }
  }

  // ---------------------------------------------------------------- the exit code

  function BatchIn(p: Plan, d: Disk, maxJobs: Option<int>): seq<string> {
    BatchOf(WithStatus(p, d, p.jobs, Pending), maxJobs)
  }

  predicate NoneTerminal(p: Plan, d: Disk) {
    forall j <- p.jobs :: !StatusOf(p, d, j).Terminal?
  }

  predicate IsComplete(d: Disk, job: string) {
    job in d.states && d.states[job].Complete?
  }

  lemma BatchFacts(p: Plan, d: Disk, maxJobs: Option<int>)
    requires Distinct(p.jobs)
    ensures var pending, batch := WithStatus(p, d, p.jobs, Pending), BatchIn(p, d, maxJobs);
      && Distinct(pending) && batch <= pending
      && (forall j <- pending :: j !in d.matching)
      && (WithStatus(p, d, p.jobs, Terminal) == [] <==> NoneTerminal(p, d))
  {
    WithStatusExact(p, d, p.jobs, Pending);
    WithStatusExact(p, d, p.jobs, Terminal);
    WithStatusDistinct(p, d, p.jobs, Pending);
  }

  /** A place that does not stop the batch ends complete or failed. */
  lemma PlaceEnds(p: Plan, d: Disk, job: string, w: World, k: nat, after: Disk)
    requires !Stops(p, d, job, w, k) && Same(Alone(p, d, job, w, k).0, after, job)
    ensures IsComplete(after, job) <==> !Alone(p, d, job, w, k).2.Failed?
  {
    AttemptsOutcome(p, d, job, w, k, CarriedAttempts(d, job), 1);
  }

  /** How a batch stops, and whether anything in it failed. */
  lemma BatchEnds(p: Plan, d: Disk, pending: seq<string>, n: nat, w: World)
    requires n <= |pending| && Distinct(pending) && forall j <- pending :: j !in d.matching
    ensures var b := RunBatch(p, d, pending, n, 0, w, false);
      && (b.stop.Some? <==> exists k :: 0 <= k < n && Stops(p, d, pending[k], w, k))
      && (b.stop.None? ==> (b.failed == 0 <==> forall k :: 0 <= k < n ==> IsComplete(b.disk, pending[k])))
      && (b.stop.Some? ==> b.stop.value == 2 || b.stop.value == 4)
  {
    var b := RunBatch(p, d, pending, n, 0, w, false);
    var m := BatchOutcome(p, d, pending, n, 0, w);
    if m == n {
      forall k | 0 <= k < n ensures IsComplete(b.disk, pending[k]) <==> !Alone(p, d, pending[k], w, k).2.Failed? {
        PlaceEnds(p, d, pending[k], w, k, b.disk);
      }
    } else {
      assert Stops(p, d, pending[m], w, m);
    }
  }

  /**
   The exit code of a real invocation over distinct jobs. It is 3 exactly if there is work and the locks do not
   hold, and 2 or 4 exactly if some job of the batch is stopped. Otherwise it is 0 if no job was terminal and every
   job of the batch is complete afterwards, and 1 if not.
   */
  lemma ExitCodes(p: Plan, d: Disk, maxJobs: Option<int>, w: World)
    requires Distinct(p.jobs)
    ensures var r, batch := Invoke(p, d, maxJobs, false, w), BatchIn(p, d, maxJobs);
      && (r.code == 3 <==> batch != [] && !w.locksHold)
      && (w.locksHold ==> (Interrupted(r.code) <==> exists k :: 0 <= k < |batch| && Stops(p, d, batch[k], w, k)))
      && (!Interrupted(r.code) ==>
            r.code == if NoneTerminal(p, d) && (forall j <- batch :: IsComplete(r.disk, j)) then 0 else 1)
  {
    var pending, batch := WithStatus(p, d, p.jobs, Pending), BatchIn(p, d, maxJobs);
    var r := Invoke(p, d, maxJobs, false, w);
    BatchFacts(p, d, maxJobs);
    BatchEnds(p, d, pending, |batch|, w);
    AllComplete(r.disk, batch, pending);
  }

  lemma AllComplete(d: Disk, batch: seq<string>, pending: seq<string>)
    requires batch <= pending
    ensures (forall j <- batch :: IsComplete(d, j)) <==> forall k :: 0 <= k < |batch| ==> IsComplete(d, pending[k])
    ensures forall k :: 0 <= k < |batch| ==> batch[k] == pending[k]
  {
    forall k | 0 <= k < |batch| ensures batch[k] == pending[k] && batch[k] in batch {
    }
  }

  /** If every job of the batch succeeds at once and none is terminal, the exit code is 0. */
  lemma AllSucceed(p: Plan, d: Disk, maxJobs: Option<int>, w: World)
    requires Distinct(p.jobs) && w.locksHold && p.maxAttempts >= 1 && NoneTerminal(p, d)
    requires forall k :: 0 <= k < |BatchIn(p, d, maxJobs)| ==> !Refused(p, w, k) && Success(w.run(k, 1))
    ensures Invoke(p, d, maxJobs, false, w).code == 0
  {
    var pending, batch := WithStatus(p, d, p.jobs, Pending), BatchIn(p, d, maxJobs);
    BatchFacts(p, d, maxJobs);
    if batch != [] {
      var b := RunBatch(p, d, pending, |batch|, 0, w, false);
      var m := BatchOutcome(p, d, pending, |batch|, 0, w);
      assert Success(w.run(m, 1)) || m == |batch|;
      forall k | 0 <= k < |batch| ensures Alone(p, d, pending[k], w, k).2.Succeeded? {
        assert Success(w.run(k, 1));
      }
    }
  }

  /**
   A dry run runs nothing. It returns 2 exactly if the ledger has no room for some job of the batch, and writes
   only then; otherwise it reports terminal jobs.
   */
  lemma DryRuns(p: Plan, d: Disk, maxJobs: Option<int>, w: World)
    requires Distinct(p.jobs)
    ensures var r, batch := Invoke(p, d, maxJobs, true, w), BatchIn(p, d, maxJobs);
      && r.runs == []
      && (r.code == 2 <==> exists k :: 0 <= k < |batch| && Refused(p, w, k))
      && (r.code != 2 ==> r.disk == d && r.code == if NoneTerminal(p, d) then 0 else 1)
  {
    var pending, batch := WithStatus(p, d, p.jobs, Pending), BatchIn(p, d, maxJobs);
    BatchFacts(p, d, maxJobs);
    DryBatch(p, d, pending, |batch|, 0, w);
  }

  lemma {:induction false} DryBatch(p: Plan, d: Disk, pending: seq<string>, n: nat, i: nat, w: World)
    requires i <= n <= |pending| && forall j <- pending :: j !in d.matching
    ensures var b := RunBatch(p, d, pending, n, i, w, true);
      && b.runs == [] && b.failed == 0
      && b.stop == (if exists k :: i <= k < n && Refused(p, w, k) then Some(2) else None)
      && (b.stop.None? ==> b.disk == d)
    decreases n - i
  {
    if i == n {
    } else if Refused(p, w, i) {
    } else {
      DryBatch(p, d, pending, n, i + 1, w);
    }
  }
}
