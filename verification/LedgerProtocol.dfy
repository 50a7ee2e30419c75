/**
 Any number of processes sharing one ledger file through the lock file of bench/external/budget.py.
 A step is one system call: creating the lock file, reading the ledger, writing a private temporary
 file, moving it over the ledger, removing the lock file. Every interleaving of steps is a run.
 */
module LedgerProtocol {
  import opened Common
  import opened BudgetLedger

  type Pid = nat

  datatype Request = Create(totalCap: real, bucketCaps: map<string, real>) | Call(op: Op)

  datatype Outcome = Written | Kept | Raised(error: BudgetError) | NoLedger

  /** What one request does when it has the ledger to itself. */
  function Serve(disk: Option<Ledger>, req: Request): (Option<Ledger>, Outcome) {
    match req
    case Create(totalCap, bucketCaps) =>
      if disk.Some? then (disk, Kept) else (Some(Created(totalCap, bucketCaps)), Written)
    case Call(op) =>
      if Refused(req) then (disk, Raised(NotPositive))
      else if disk.None? then (disk, NoLedger)
      else
        match Attempt(disk.value, op)
        case Ok(l) => (Some(l), Written)
        case Err(e) => (disk, Raised(e))
  }

  /** `reserve_cost` rejects a non-positive amount before it asks for the lock. */
  predicate Refused(req: Request) {
    req.Call? && req.op.ReserveOp? && req.op.amount <= 0.0
  }

  datatype Phase =
    | Idle
    | Waiting(req: Request)
    | Holding(req: Request)
    | Loaded(req: Request, view: Option<Ledger>)
    | Staged(req: Request)
    | Releasing
    | Dead(heldLock: bool)

  datatype Commit = Commit(pid: Pid, req: Request, outcome: Outcome)

  datatype System = System(
    disk: Option<Ledger>, lock: Option<Pid>, temporaries: map<Pid, Ledger>,
    procs: map<Pid, Phase>, log: seq<Commit>)

  datatype Step =
    | Begin(pid: Pid, req: Request)
    | Acquire(pid: Pid)
    | GiveUp(pid: Pid)
    | Load(pid: Pid)
    | Compute(pid: Pid)
    | Replace(pid: Pid)
    | Release(pid: Pid)
    | Crash(pid: Pid)

  predicate InCritical(phase: Phase) {
    phase.Holding? || phase.Loaded? || phase.Staged? || phase.Releasing? || (phase.Dead? && phase.heldLock)
  }

  function At(s: System, pid: Pid, phase: Phase): System {
    s.(procs := s.procs[pid := phase])
  }

  /** One step of one process; a step that is not possible in `s` changes nothing. */
  function Take(s: System, step: Step): System {
    var p := step.pid;
    if p !in s.procs then s
    else
      match (step, s.procs[p])
      case (Begin(_, req), Idle) =>
        if Refused(req) then s.(log := s.log + [Commit(p, req, Raised(NotPositive))])
        else At(s, p, Waiting(req))
      case (Acquire(_), Waiting(req)) =>
        if s.lock.None? then At(s, p, Holding(req)).(lock := Some(p)) else s
      case (GiveUp(_), Waiting(_)) =>
        if s.lock.Some? then At(s, p, Idle) else s
      case (Load(_), Holding(req)) =>
        At(s, p, Loaded(req, s.disk))
      case (Compute(_), Loaded(req, view)) =>
        var (result, outcome) := Serve(view, req);
        if outcome.Written? && result.Some?
        then At(s, p, Staged(req)).(temporaries := s.temporaries[p := result.value])
        else At(s, p, Releasing).(log := s.log + [Commit(p, req, outcome)])
      case (Replace(_), Staged(req)) =>
        if p in s.temporaries
        then At(s, p, Releasing).(disk := Some(s.temporaries[p]), temporaries := s.temporaries - {p},
                                  log := s.log + [Commit(p, req, Written)])
        else s
      case (Release(_), Releasing) =>
        At(s, p, Idle).(lock := None)
      case (Crash(_), phase) =>
        At(s, p, Dead(InCritical(phase)))
      case _ => s
  }

  function Exec(s: System, steps: seq<Step>): System {
    if steps == [] then s else Take(Exec(s, steps[..|steps| - 1]), steps[|steps| - 1])
  }

  predicate Boot(s: System) {
    s.lock.None? && s.log == [] && forall p <- s.procs :: s.procs[p].Idle?
  }

  /** The ledger after the logged requests, run one at a time. */
  function Replay(disk: Option<Ledger>, log: seq<Commit>): Option<Ledger> {
    if log == [] then disk
    else Serve(Replay(disk, log[..|log| - 1]), log[|log| - 1].req).0
  }

  /** Each logged request was answered as it would have been without any other process. */
  predicate AnsweredInOrder(disk: Option<Ledger>, log: seq<Commit>) {
    forall i :: 0 <= i < |log| ==> log[i].outcome == Serve(Replay(disk, log[..i]), log[i].req).1
  }

  lemma Append(disk: Option<Ledger>, log: seq<Commit>, c: Commit)
    requires AnsweredInOrder(disk, log)
    requires c.outcome == Serve(Replay(disk, log), c.req).1
    ensures AnsweredInOrder(disk, log + [c])
    ensures Replay(disk, log + [c]) == Serve(Replay(disk, log), c.req).0
  {
    var longer := log + [c];
    assert longer[..|log|] == log;
    forall i | 0 <= i < |longer|
      ensures longer[i].outcome == Serve(Replay(disk, longer[..i]), longer[i].req).1
    {
      if i < |log| {
        assert longer[..i] == log[..i];
      }
    }
  }

  predicate MutualExclusion(s: System) {
    forall p, q :: p in s.procs && q in s.procs && InCritical(s.procs[p]) && InCritical(s.procs[q]) ==> p == q
  }

  lemma ServeWritesOrKeeps(disk: Option<Ledger>, req: Request)
    ensures var (result, outcome) := Serve(disk, req);
      if outcome.Written? then result.Some? else result == disk
    ensures Refused(req) ==> Serve(disk, req) == (disk, Raised(NotPositive))
  {
  }

  /** The protocol part of the invariant, which does not look inside a ledger. */
  predicate Locked(s: System) {
    && (s.lock.Some? ==> s.lock.value in s.procs && InCritical(s.procs[s.lock.value]))
    && (forall p <- s.procs :: InCritical(s.procs[p]) ==> s.lock == Some(p))
    && (forall p <- s.procs :: s.procs[p].Loaded? ==> s.procs[p].view == s.disk)
  }

  predicate StagedWrites(s: System) {
    forall p <- s.procs :: s.procs[p].Staged? ==>
      && p in s.temporaries
      && Serve(s.disk, s.procs[p].req) == (Some(s.temporaries[p]), Written)
  }

  predicate Logged(first: Option<Ledger>, s: System) {
    && s.disk == Replay(first, s.log)
    && AnsweredInOrder(first, s.log)
  }

  predicate Inv(first: Option<Ledger>, s: System) {
    Locked(s) && StagedWrites(s) && Logged(first, s)
  }

  lemma TakeKeepsLocked(s: System, step: Step)
    requires Locked(s)
    ensures Locked(Take(s, step))
  {
  }

  lemma TakeKeepsStaged(s: System, step: Step)
    requires Locked(s) && StagedWrites(s)
    ensures StagedWrites(Take(s, step))
  {
  }

  lemma TakeKeepsLogged(first: Option<Ledger>, s: System, step: Step)
    requires Locked(s) && StagedWrites(s) && Logged(first, s)
    ensures Logged(first, Take(s, step))
  {
    var s', p := Take(s, step), step.pid;
    if |s'.log| > |s.log| {
      var c := s'.log[|s.log|];
      assert s'.log == s.log + [c];
      ServeWritesOrKeeps(s.disk, c.req);
      Append(first, s.log, c);
    }
  }

  lemma TakeKeepsInv(first: Option<Ledger>, s: System, step: Step)
    requires Inv(first, s)
    ensures Inv(first, Take(s, step))
  {
    TakeKeepsLocked(s, step);
    TakeKeepsStaged(s, step);
    TakeKeepsLogged(first, s, step);
  }

  /**
   In every interleaving at most one process is between taking and removing the lock file, and the
   ledger on disk is what the answered requests produce one at a time in the order in which they held
   the lock: no update is lost, and every answer is the one-at-a-time answer.
   */
  lemma {:induction false} EveryInterleavingIsSequential(s: System, steps: seq<Step>)
    requires Boot(s)
    ensures Inv(s.disk, Exec(s, steps))
    ensures MutualExclusion(Exec(s, steps))
    ensures Exec(s, steps).disk == Replay(s.disk, Exec(s, steps).log)
    ensures AnsweredInOrder(s.disk, Exec(s, steps).log)
  {
    if steps == [] {
    } else {
      var n := |steps| - 1;
      EveryInterleavingIsSequential(s, steps[..n]);
      TakeKeepsInv(s.disk, Exec(s, steps[..n]), steps[n]);
    }
  }

  /** The ledger changes only in the step that also logs the one request that changed it. */
  lemma OnlyLoggedWritesChangeDisk(first: Option<Ledger>, s: System, step: Step)
    requires Inv(first, s)
    ensures var s' := Take(s, step);
      || (s'.disk == s.disk && s'.log == s.log)
      || exists c :: s'.log == s.log + [c] && (s'.disk, c.outcome) == Serve(s.disk, c.req)
                     && (!c.outcome.Written? ==> s'.disk == s.disk)
  {
    var s' := Take(s, step);
    if |s'.log| > |s.log| {
      var c := s'.log[|s.log|];
      assert s'.log == s.log + [c];
      ServeWritesOrKeeps(s.disk, c.req);
    }
  }

  /** Nothing removes the lock file of a process that died holding it: the ledger is frozen. */
  lemma {:induction false} CrashInsideTheLockFreezesTheLedger(first: Option<Ledger>, s: System, dead: Pid,
                                                              steps: seq<Step>)
    requires Inv(first, s) && dead in s.procs && s.procs[dead] == Dead(true)
    ensures Exec(s, steps).disk == s.disk && Exec(s, steps).lock == Some(dead)
    ensures Inv(first, Exec(s, steps))
    ensures dead in Exec(s, steps).procs && Exec(s, steps).procs[dead] == Dead(true)
  {
    if steps == [] {
    } else {
      var n := |steps| - 1;
      CrashInsideTheLockFreezesTheLedger(first, s, dead, steps[..n]);
      DeadHolderStays(Exec(s, steps[..n]), dead, steps[n]);
      TakeKeepsInv(first, Exec(s, steps[..n]), steps[n]);
    }
  }

  lemma DeadHolderStays(s: System, dead: Pid, step: Step)
    requires Locked(s) && dead in s.procs && s.procs[dead] == Dead(true)
    ensures var s' := Take(s, step);
      s'.disk == s.disk && s'.lock == Some(dead) && dead in s'.procs && s'.procs[dead] == Dead(true)
  {
  }

  // ---------------------------------------------------------------- calls complete

  /**
   A ledger is created once and then kept. An amount that is not positive is refused with or without a ledger; any
   other call needs one, and changes it as the call does on its own, or leaves it and passes on the error.
   */
  lemma ServedExactly(disk: Option<Ledger>, totalCap: real, bucketCaps: map<string, real>, op: Op)
    ensures Serve(disk, Create(totalCap, bucketCaps)) ==
      if disk.Some? then (disk, Kept) else (Some(Created(totalCap, bucketCaps)), Written)
    ensures op.ReserveOp? && op.amount <= 0.0 ==> Serve(disk, Call(op)) == (disk, Raised(NotPositive))
    ensures !(op.ReserveOp? && op.amount <= 0.0) && disk.None? ==> Serve(disk, Call(op)) == (disk, NoLedger)
    ensures disk.Some? ==> Serve(disk, Call(op)).0 == Some(Apply(disk.value, op))
    ensures disk.Some? ==> (Serve(disk, Call(op)).1.Written? <==> Attempt(disk.value, op).Ok?)
  {
  }

  /** The calls that a process makes while it has the lock. */
  function Inside(pid: Pid): seq<Step> {
    [Load(pid), Compute(pid), Replace(pid), Release(pid)]
  }

  lemma ExecOneMore(s: System, steps: seq<Step>, step: Step)
    ensures Exec(s, steps + [step]) == Take(Exec(s, steps), step)
  {
    assert (steps + [step])[..|steps|] == steps;
  }

  lemma ExecFour(s: System, a: Step, b: Step, c: Step, d: Step)
    ensures Exec(s, [a, b, c, d]) == Take(Take(Take(Take(s, a), b), c), d)
  {
    ExecOneMore(s, [], a);
    ExecOneMore(s, [a], b);
    ExecOneMore(s, [a, b], c);
    ExecOneMore(s, [a, b, c], d);
    assert [] + [a] == [a] && [a] + [b] == [a, b] && [a, b] + [c] == [a, b, c] && [a, b, c] + [d] == [a, b, c, d];
  }

  lemma {:induction false} ExecConcat(s: System, a: seq<Step>, b: seq<Step>)
    ensures Exec(s, a + b) == Exec(Exec(s, a), b)
  {
    if b == [] {
      assert a + b == a;
    } else {
      var n := |b| - 1;
      assert (a + b)[..|a + b| - 1] == a + b[..n];
      ExecConcat(s, a, b[..n]);
    }
  }

  /** The process is idle again, no other process has moved, and the lock is free. */
  predicate BackToIdle(s: System, s': System, pid: Pid) {
    && s'.procs.Keys == s.procs.Keys && pid in s'.procs && s'.procs[pid] == Idle && s'.lock.None?
    && forall q <- s.procs :: q != pid ==> s'.procs[q] == s.procs[q]
  }

  predicate Answered(s: System, s': System, pid: Pid, req: Request) {
    && s'.disk == Serve(s.disk, req).0
    && s'.log == s.log + [Commit(pid, req, Serve(s.disk, req).1)]
  }

  /** The phases that are left, from the last one backwards. */
  lemma FromReleasing(s: System, pid: Pid)
    requires pid in s.procs && s.procs[pid] == Releasing
    ensures Take(s, Load(pid)) == s && Take(s, Compute(pid)) == s && Take(s, Replace(pid)) == s
    ensures var s' := Take(s, Release(pid)); BackToIdle(s, s', pid) && s'.disk == s.disk && s'.log == s.log
  {
  }

  lemma FromStaged(s: System, pid: Pid)
    requires StagedWrites(s) && pid in s.procs && s.procs[pid].Staged?
    ensures Take(s, Load(pid)) == s && Take(s, Compute(pid)) == s
    ensures var s' := Take(Take(s, Replace(pid)), Release(pid));
      BackToIdle(s, s', pid) && Answered(s, s', pid, s.procs[pid].req) && s'.temporaries == s.temporaries - {pid}
  {
    FromReleasing(Take(s, Replace(pid)), pid);
  }

  /** The ledger is read and the next ledger is staged, or the request is answered at once. */
  lemma ComputeStages(s: System, pid: Pid)
    requires pid in s.procs && s.procs[pid].Loaded? && s.procs[pid].view == s.disk
    ensures var s', req := Take(s, Compute(pid)), s.procs[pid].req;
      && s'.procs.Keys == s.procs.Keys && (forall q <- s.procs :: q != pid ==> s'.procs[q] == s.procs[q])
      && s'.disk == s.disk
      && (if s'.procs[pid].Releasing? then Answered(s, s', pid, req)
          else s'.procs[pid] == Staged(req) && s'.log == s.log)
  {
    ServeWritesOrKeeps(s.disk, s.procs[pid].req);
  }

  /** What is answered after a step that changed neither the ledger nor the log, or after which nothing is answered. */
  lemma AnsweredAround(s: System, mid: System, s': System, pid: Pid)
    requires pid in s.procs && mid.procs.Keys == s.procs.Keys
    requires (forall q <- s.procs :: q != pid ==> mid.procs[q] == s.procs[q]) && BackToIdle(mid, s', pid)
    ensures BackToIdle(s, s', pid)
    ensures forall req :: mid.disk == s.disk && mid.log == s.log && Answered(mid, s', pid, req) ==>
      Answered(s, s', pid, req)
    ensures forall req :: s'.disk == mid.disk && s'.log == mid.log && Answered(s, mid, pid, req) ==>
      Answered(s, s', pid, req)
  {
  }

  lemma FromLoaded(first: Option<Ledger>, s: System, pid: Pid)
    requires Inv(first, s) && pid in s.procs && s.procs[pid].Loaded?
    ensures Take(s, Load(pid)) == s
    ensures var s' := Take(Take(Take(s, Compute(pid)), Replace(pid)), Release(pid));
      BackToIdle(s, s', pid) && Answered(s, s', pid, s.procs[pid].req)
  {
    var computed := Take(s, Compute(pid));
    TakeKeepsInv(first, s, Compute(pid));
    ComputeStages(s, pid);
    if computed.procs[pid].Staged? {
      FromStaged(computed, pid);
    } else {
      FromReleasing(computed, pid);
    }
    AnsweredAround(s, computed, Take(Take(computed, Replace(pid)), Release(pid)), pid);
  }

  lemma LoadReads(s: System, pid: Pid)
    requires pid in s.procs && s.procs[pid].Holding?
    ensures Take(s, Load(pid)) == s.(procs := s.procs[pid := Loaded(s.procs[pid].req, s.disk)])
  {
  }

  lemma FromHolding(first: Option<Ledger>, s: System, pid: Pid)
    requires Inv(first, s) && pid in s.procs && s.procs[pid].Holding?
    ensures var s' := Exec(s, Inside(pid)); BackToIdle(s, s', pid) && Answered(s, s', pid, s.procs[pid].req)
  {
    var loaded := Take(s, Load(pid));
    ExecFour(s, Load(pid), Compute(pid), Replace(pid), Release(pid));
    TakeKeepsInv(first, s, Load(pid));
    LoadReads(s, pid);
    FromLoaded(first, loaded, pid);
    AnsweredAround(s, loaded, Take(Take(Take(loaded, Compute(pid)), Replace(pid)), Release(pid)), pid);
  }

  /**
   A process that has the lock and does not die gives it back after at most four of its own steps, and its request
   is answered if it was not yet.
   */
  lemma HolderFinishes(first: Option<Ledger>, s: System, pid: Pid)
    requires Inv(first, s) && s.lock == Some(pid) && pid in s.procs && !s.procs[pid].Dead?
    ensures var s' := Exec(s, Inside(pid));
      && BackToIdle(s, s', pid)
      && (if s.procs[pid].Releasing? then s'.disk == s.disk && s'.log == s.log
          else Answered(s, s', pid, s.procs[pid].req))
  {
    ExecFour(s, Load(pid), Compute(pid), Replace(pid), Release(pid));
    match s.procs[pid]
    case Holding(_) => FromHolding(first, s, pid);
    case Loaded(_, _) => FromLoaded(first, s, pid);
    case Staged(_) => FromStaged(s, pid);
    case Releasing => FromReleasing(s, pid);
  }

  /** When the lock is free a call completes in six steps of its process, and answers as it does on its own. */
  lemma CallCompletes(first: Option<Ledger>, s: System, pid: Pid, req: Request)
    requires Inv(first, s) && s.lock.None? && pid in s.procs && s.procs[pid] == Idle
    ensures var s' := Exec(s, [Begin(pid, req), Acquire(pid)] + Inside(pid));
      BackToIdle(s, s', pid) && Answered(s, s', pid, req)
  {
    var taken := Take(Take(s, Begin(pid, req)), Acquire(pid));
    ExecOneMore(s, [], Begin(pid, req));
    ExecOneMore(s, [Begin(pid, req)], Acquire(pid));
    assert [] + [Begin(pid, req)] == [Begin(pid, req)];
    assert [Begin(pid, req)] + [Acquire(pid)] == [Begin(pid, req), Acquire(pid)];
    ExecConcat(s, [Begin(pid, req), Acquire(pid)], Inside(pid));
    if Refused(req) {
      ExecFour(taken, Load(pid), Compute(pid), Replace(pid), Release(pid));
      RefusedAtOnce(s, pid, req);
    } else {
      LockTaken(first, s, pid, req);
      FromHolding(first, taken, pid);
      AnsweredAround(s, taken, Exec(taken, Inside(pid)), pid);
    }
  }

  lemma LockTaken(first: Option<Ledger>, s: System, pid: Pid, req: Request)
    requires Inv(first, s) && s.lock.None? && pid in s.procs && s.procs[pid] == Idle && !Refused(req)
    ensures var taken := Take(Take(s, Begin(pid, req)), Acquire(pid));
      && Inv(first, taken) && taken.disk == s.disk && taken.log == s.log && taken.procs.Keys == s.procs.Keys
      && taken.procs[pid] == Holding(req) && forall q <- s.procs :: q != pid ==> taken.procs[q] == s.procs[q]
  {
    TakeKeepsInv(first, s, Begin(pid, req));
    TakeKeepsInv(first, Take(s, Begin(pid, req)), Acquire(pid));
  }

  /** An amount that is not positive is refused before the lock is asked for. */
  lemma RefusedAtOnce(s: System, pid: Pid, req: Request)
    requires s.lock.None? && pid in s.procs && s.procs[pid] == Idle && Refused(req)
    ensures var s' := Take(s, Begin(pid, req));
      && BackToIdle(s, s', pid) && Answered(s, s', pid, req) && Take(s', Acquire(pid)) == s'
      && Take(s', Load(pid)) == s' && Take(s', Compute(pid)) == s' && Take(s', Replace(pid)) == s'
      && Take(s', Release(pid)) == s'
  {
    ServeWritesOrKeeps(s.disk, req);
  }

  /** A process that waits can give up exactly while the lock is taken, and then leaves everything as it is. */
  lemma WaitersGiveUp(s: System, pid: Pid)
    requires pid in s.procs && s.procs[pid].Waiting?
    ensures var s' := Take(s, GiveUp(pid));
      if s.lock.Some? then s' == s.(procs := s.procs[pid := Idle]) else s' == s
  {
  }

  // ---------------------------------------------------------------- caps under concurrency

  /** Every ledger built up from an absent file is a run of calls on the first one created. */
  lemma {:induction false} ReplayIsARun(log: seq<Commit>)
    returns (totalCap: real, bucketCaps: map<string, real>, ops: seq<Op>)
    ensures Replay(None, log).Some? ==>
      && Replay(None, log).value == Run(Created(totalCap, bucketCaps), ops)
      && exists c :: c in log && c.req == Create(totalCap, bucketCaps)
  {
    totalCap, bucketCaps, ops := 0.0, map[], [];
    if log == [] {
    } else {
      var n := |log| - 1;
      totalCap, bucketCaps, ops := ReplayIsARun(log[..n]);
      assert forall c <- log[..n] :: c in log;
      var before, last := Replay(None, log[..n]), log[n];
      assert last in log;
      match last.req
      case Create(t, b) =>
        if before.None? {
          totalCap, bucketCaps, ops := t, b, [];
        }
      case Call(op) =>
        if before.Some? {
          assert (ops + [op])[..|ops|] == ops;
          ops := ops + [op];
        }
    }
  }

  /** The cap guarantees of single-process runs hold of every ledger that any interleaving writes. */
  lemma CapsHoldInEveryInterleaving(s: System, steps: seq<Step>)
    requires Boot(s) && s.disk.None?
    requires forall k :: 0 <= k < |steps| && steps[k].Begin? && steps[k].req.Create?
               ==> CapsAllowEmpty(steps[k].req.totalCap, steps[k].req.bucketCaps)
    ensures var disk := Exec(s, steps).disk;
      disk.Some? ==>
        && WithinCapsUnlessHalted(disk.value)
        && ((forall e <- disk.value.entries :: Charged(e) <= e.reserved) ==> WithinCaps(disk.value))
  {
    EveryInterleavingIsSequential(s, steps);
    RequestsWereBegun(s, steps);
    var totalCap, bucketCaps, ops := ReplayIsARun(Exec(s, steps).log);
    if Exec(s, steps).disk.Some? {
      SpendBoundedByOverrun(totalCap, bucketCaps, ops);
      RunKeepsUnhaltedWithin(Created(totalCap, bucketCaps), ops);
    }
  }

  ghost predicate Begun(steps: seq<Step>, req: Request) {
    exists k :: 0 <= k < |steps| && steps[k].Begin? && steps[k].req == req
  }

  ghost predicate Carries(phase: Phase, req: Request) {
    match phase
    case Waiting(r) => r == req
    case Holding(r) => r == req
    case Loaded(r, _) => r == req
    case Staged(r) => r == req
    case _ => false
  }

  lemma {:induction false} RequestsWereBegun(s: System, steps: seq<Step>)
    requires Boot(s)
    ensures forall c <- Exec(s, steps).log :: Begun(steps, c.req)
    ensures forall p, req :: p in Exec(s, steps).procs && Carries(Exec(s, steps).procs[p], req) ==> Begun(steps, req)
  {
    if steps == [] {
    } else {
      var n := |steps| - 1;
      RequestsWereBegun(s, steps[..n]);
      forall req | Begun(steps[..n], req) ensures Begun(steps, req) {
        var k :| 0 <= k < n && steps[k].Begin? && steps[k].req == req;
      }
      if steps[n].Begin? {
        assert Begun(steps, steps[n].req);
      }
    }
  }
}
