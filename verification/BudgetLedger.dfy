/**
 The budget ledger of bench/external/budget.py: money is reserved before an external call and
 settled after it. `Ledger` is the JSON document on disk, `Reserve` and `Settle` say what one
 locked call does to it.
 */
module BudgetLedger {
  import opened Common

  /** The slack that every cap comparison allows. */
  const TOLERANCE: real := 0.000000000001

  datatype Status = Reserved | Settled(charged: real) | CostUnknown(retained: real)

  datatype Entry = Entry(id: string, job: string, bucket: string, reserved: real, status: Status)

  datatype HaltReason = NotHalted | CostMissing | CapExceeded

  datatype Ledger = Ledger(
    totalCap: real, bucketCaps: map<string, real>,
    halted: bool, reason: HaltReason, entries: seq<Entry>)

  datatype BudgetError =
    | NotPositive | LedgerHalted | UnknownBucket | TotalWouldExceed | BucketWouldExceed
    | UnknownReservation | AlreadySettled | NegativeCost | BucketWithoutCap

  function Charged(e: Entry): real {
    match e.status
    case Reserved => e.reserved
    case Settled(charged) => charged
    case CostUnknown(retained) => retained
  }

  function Total(entries: seq<Entry>): real {
    if entries == [] then 0.0 else Total(entries[..|entries| - 1]) + Charged(entries[|entries| - 1])
  }

  function BucketTotal(entries: seq<Entry>, bucket: string): real {
    if entries == [] then 0.0
    else
      var last := entries[|entries| - 1];
      BucketTotal(entries[..|entries| - 1], bucket) + if last.bucket == bucket then Charged(last) else 0.0
  }

  /** The indices of the entries that carry a reservation id, in ledger order. */
  function Matching(entries: seq<Entry>, id: string): seq<nat> {
    if entries == [] then []
    else
      var n := |entries| - 1;
      Matching(entries[..n], id) + if entries[n].id == id then [n] else []
  }

  lemma {:induction false} MatchingExact(entries: seq<Entry>, id: string)
    ensures forall k :: k in Matching(entries, id) <==> 0 <= k < |entries| && entries[k].id == id
  {
    if entries == [] {
    } else {
      var n := |entries| - 1;
      MatchingExact(entries[..n], id);
    }
  }

  function Created(totalCap: real, bucketCaps: map<string, real>): Ledger {
    Ledger(totalCap, bucketCaps, false, NotHalted, [])
  }

  // ---------------------------------------------------------------- one call

  function Reserve(l: Ledger, id: string, job: string, bucket: string, amount: real): Result<Ledger, BudgetError> {
    if amount <= 0.0 then Err(NotPositive)
    else if l.halted then Err(LedgerHalted)
    else if bucket !in l.bucketCaps then Err(UnknownBucket)
    else if Total(l.entries) + amount > l.totalCap + TOLERANCE then Err(TotalWouldExceed)
    else if BucketTotal(l.entries, bucket) + amount > l.bucketCaps[bucket] + TOLERANCE then Err(BucketWouldExceed)
    else Ok(l.(entries := l.entries + [Entry(id, job, bucket, amount, Reserved)]))
  }

  function Settle(l: Ledger, id: string, actual: Option<real>): Result<Ledger, BudgetError> {
    var matches := Matching(l.entries, id);
    if |matches| != 1 then Err(UnknownReservation)
    else
      MatchingExact(l.entries, id);
      assert matches[0] in matches;
      SettleAt(l, matches[0], actual)
  }

  function SettleAt(l: Ledger, k: nat, actual: Option<real>): Result<Ledger, BudgetError>
    requires k < |l.entries|
  {
    var e := l.entries[k];
    if !e.status.Reserved? then Err(AlreadySettled)
    else if actual.Some? && actual.value < 0.0 then Err(NegativeCost)
    else
      var status := if actual.None? then CostUnknown(e.reserved) else Settled(actual.value);
      var entries := l.entries[k := e.(status := status)];
      var exceeded := Exceeds(l, entries, e.bucket);
      if e.bucket !in l.bucketCaps && !exceeded then Err(BucketWithoutCap)
      else
        Ok(l.(entries := entries,
              halted := l.halted || actual.None? || exceeded,
              reason := if exceeded then CapExceeded else if actual.None? then CostMissing else l.reason))
  }

  /** The post-settlement test: the total, or the settled bucket, is above its cap. */
  predicate Exceeds(l: Ledger, entries: seq<Entry>, bucket: string) {
    || Total(entries) > l.totalCap + TOLERANCE
    || (bucket in l.bucketCaps && BucketTotal(entries, bucket) > l.bucketCaps[bucket] + TOLERANCE)
  }

  datatype Op =
    | ReserveOp(id: string, job: string, bucket: string, amount: real)
    | SettleOp(id: string, actual: Option<real>)

  function Attempt(l: Ledger, op: Op): Result<Ledger, BudgetError> {
    match op
    case ReserveOp(id, job, bucket, amount) => Reserve(l, id, job, bucket, amount)
    case SettleOp(id, actual) => Settle(l, id, actual)
  }

  /** A call that raises leaves the document as it was. */
  function Apply(l: Ledger, op: Op): Ledger {
    var r := Attempt(l, op);
    if r.Ok? then r.value else l
  }

  function Run(l: Ledger, ops: seq<Op>): Ledger {
    if ops == [] then l else Apply(Run(l, ops[..|ops| - 1]), ops[|ops| - 1])
  }

  lemma {:induction false} RunConcat(l: Ledger, a: seq<Op>, b: seq<Op>)
    ensures Run(l, a + b) == Run(Run(l, a), b)
  {
    if b == [] {
      assert a + b == a;
    } else {
      var n := |b| - 1;
      assert (a + b)[..|a + b| - 1] == a + b[..n];
      RunConcat(l, a, b[..n]);
    }
  }

  // ---------------------------------------------------------------- sums

  /** What an update of one entry does to the two sums. */
  lemma {:induction false} SumsAfterUpdate(entries: seq<Entry>, k: nat, e: Entry, bucket: string)
    requires k < |entries| && e.bucket == entries[k].bucket
    ensures Total(entries[k := e]) == Total(entries) - Charged(entries[k]) + Charged(e)
    ensures BucketTotal(entries[k := e], bucket)
         == BucketTotal(entries, bucket) + if e.bucket == bucket then Charged(e) - Charged(entries[k]) else 0.0
  {
    var n := |entries| - 1;
    if k == n {
      assert entries[k := e][..n] == entries[..n];
    } else {
      assert entries[k := e][..n] == entries[..n][k := e];
      SumsAfterUpdate(entries[..n], k, e, bucket);
    }
  }

  lemma SumsAfterAppend(entries: seq<Entry>, e: Entry, bucket: string)
    ensures Total(entries + [e]) == Total(entries) + Charged(e)
    ensures BucketTotal(entries + [e], bucket)
         == BucketTotal(entries, bucket) + if e.bucket == bucket then Charged(e) else 0.0
  {
    assert (entries + [e])[..|entries|] == entries;
  }

  // ---------------------------------------------------------------- what one call accounts for

  /** The entries, except the one at `k`, are those of before. */
  predicate SameElsewhere(before: seq<Entry>, after: seq<Entry>, k: nat) {
    && |after| == |before|
    && forall i :: 0 <= i < |before| && i != k ==> after[i] == before[i]
  }

  function With(l: Ledger, e: Entry): Ledger {
    l.(entries := l.entries + [e])
  }

  /**
   A positive amount is granted exactly if the ledger is not halted, knows the bucket, and is within the total cap
   and the bucket's cap with the reservation.
   */
  lemma GrantedExactly(l: Ledger, id: string, job: string, bucket: string, amount: real)
    ensures var e := Entry(id, job, bucket, amount, Reserved);
      var r := Reserve(l, id, job, bucket, amount);
      && (r.Ok? <==> amount > 0.0 && !l.halted && WithinCapOf(With(l, e), bucket))
      && (r.Ok? ==> r.value == With(l, e))
  {
    WithSums(l, Entry(id, job, bucket, amount, Reserved));
  }

  lemma WithSums(l: Ledger, e: Entry)
    ensures Total(With(l, e).entries) == Total(l.entries) + Charged(e)
    ensures BucketTotal(With(l, e).entries, e.bucket) == BucketTotal(l.entries, e.bucket) + Charged(e)
  {
    SumsAfterAppend(l.entries, e, e.bucket);
  }

  /** A refusal names something that is the case. */
  lemma RefusalIsTrue(l: Ledger, id: string, job: string, bucket: string, amount: real)
    requires Reserve(l, id, job, bucket, amount).Err?
    ensures var with := With(l, Entry(id, job, bucket, amount, Reserved));
      match Reserve(l, id, job, bucket, amount).error
      case NotPositive => amount <= 0.0
      case LedgerHalted => l.halted
      case UnknownBucket => bucket !in l.bucketCaps
      case TotalWouldExceed => Total(with.entries) > l.totalCap + TOLERANCE
      case BucketWouldExceed => bucket in l.bucketCaps
        && BucketTotal(with.entries, bucket) > l.bucketCaps[bucket] + TOLERANCE
      case _ => false
  {
    WithSums(l, Entry(id, job, bucket, amount, Reserved));
  }

  /** A reservation counts in full, in the total and in its bucket only, until it is settled. */
  lemma ReserveAccounts(l: Ledger, id: string, job: string, bucket: string, amount: real)
    requires Reserve(l, id, job, bucket, amount).Ok?
    ensures var l' := Reserve(l, id, job, bucket, amount).value;
      && Total(l'.entries) == Total(l.entries) + amount
      && (forall b :: BucketTotal(l'.entries, b) == BucketTotal(l.entries, b) + if b == bucket then amount else 0.0)
      && Matching(l'.entries, id) == Matching(l.entries, id) + [|l.entries|]
      && !l'.halted && WithinCapOf(l', bucket)
  {
    var e := Entry(id, job, bucket, amount, Reserved);
    forall b ensures BucketTotal(l.entries + [e], b) == BucketTotal(l.entries, b)
      + if b == bucket then amount else 0.0 {
      SumsAfterAppend(l.entries, e, b);
    }
    SumsAfterAppend(l.entries, e, bucket);
    assert (l.entries + [e])[..|l.entries|] == l.entries;
  }

  predicate WithinCapOf(l: Ledger, bucket: string) {
    Total(l.entries) <= l.totalCap + TOLERANCE && bucket in l.bucketCaps
      && BucketTotal(l.entries, bucket) <= l.bucketCaps[bucket] + TOLERANCE
  }

  predicate OverCap(l: Ledger, bucket: string) {
    || l.totalCap + TOLERANCE < Total(l.entries)
    || (bucket in l.bucketCaps && l.bucketCaps[bucket] + TOLERANCE < BucketTotal(l.entries, bucket))
  }

  /**
   A settlement replaces what one reservation counted by the reported cost, or keeps it when the cost is
   unknown; the ledger is halted by that, or by a cap that is then exceeded. It cannot be repeated.
   */
  lemma SettleAccounts(l: Ledger, id: string, actual: Option<real>, again: Option<real>) returns (k: nat)
    requires Settle(l, id, actual).Ok?
    ensures var l' := Settle(l, id, actual).value;
      && k < |l.entries| && l.entries[k].id == id && l.entries[k].status.Reserved?
      && SameElsewhere(l.entries, l'.entries, k)
      && l'.entries[k] == l.entries[k].(status :=
           if actual.Some? then Settled(actual.value) else CostUnknown(l.entries[k].reserved))
      && Charged(l'.entries[k]) == (if actual.Some? then actual.value else l.entries[k].reserved)
      && Total(l'.entries) == Total(l.entries) - l.entries[k].reserved + Charged(l'.entries[k])
      && (l'.halted <==> l.halted || actual.None? || OverCap(l', l.entries[k].bucket))
      && (l'.reason.CapExceeded? <==>
            OverCap(l', l.entries[k].bucket) || (actual.Some? && l.reason.CapExceeded?))
      && Settle(l', id, again) == Err(AlreadySettled)
  {
    MatchingExact(l.entries, id);
    k := Matching(l.entries, id)[0];
    assert k in Matching(l.entries, id);
    var l' := Settle(l, id, actual).value;
    SumsAfterUpdate(l.entries, k, l'.entries[k], l.entries[k].bucket);
    SameIdsSameMatches(l.entries, l'.entries, id);
  }

  /**
   A settlement is accepted exactly if one entry carries the identifier, it is still open, the cost is not
   negative, and its bucket has a cap or the total is exceeded anyway.
   */
  lemma SettledExactly(l: Ledger, id: string, actual: Option<real>)
    ensures Settle(l, id, actual).Ok? <==> exists k :: 0 <= k < |l.entries| && Settleable(l, id, actual, k)
  {
    MatchingExact(l.entries, id);
    var matches := Matching(l.entries, id);
    if k :| 0 <= k < |l.entries| && Settleable(l, id, actual, k) {
      OnlyMatch(l.entries, id, k);
      SettleAtExactly(l, k, actual);
    }
    if Settle(l, id, actual).Ok? {
      var k := matches[0];
      assert k in matches;
      forall i | 0 <= i < |l.entries| && l.entries[i].id == id ensures i == k {
        assert i in matches;
      }
      SettleAtExactly(l, k, actual);
      assert Settleable(l, id, actual, k);
    }
  }

  lemma OnlyMatch(entries: seq<Entry>, id: string, k: nat)
    requires k < |entries| && entries[k].id == id && forall i :: 0 <= i < |entries| && entries[i].id == id ==> i == k
    ensures Matching(entries, id) == [k]
  {
    var matches := Matching(entries, id);
    MatchingExact(entries, id);
    MatchingIncreases(entries, id);
    assert k in matches;
    assert |matches| > 1 ==> matches[0] < matches[1];
    forall a | 0 <= a < |matches| ensures matches[a] == k {
      assert matches[a] in matches;
    }
  }

  lemma SettleAtExactly(l: Ledger, k: nat, actual: Option<real>)
    requires k < |l.entries|
    ensures var e := l.entries[k];
      SettleAt(l, k, actual).Ok? <==>
        && e.status.Reserved? && (actual.Some? ==> actual.value >= 0.0)
        && (e.bucket !in l.bucketCaps ==>
             Total(l.entries) - e.reserved + (if actual.Some? then actual.value else e.reserved)
             > l.totalCap + TOLERANCE)
  {
    SumsAfterUpdate(l.entries, k, Settlement(l.entries[k], actual), l.entries[k].bucket);
  }

  function Settlement(e: Entry, actual: Option<real>): Entry {
    e.(status := if actual.Some? then Settled(actual.value) else CostUnknown(e.reserved))
  }

  predicate Settleable(l: Ledger, id: string, actual: Option<real>, k: nat)
    requires k < |l.entries|
  {
    var e := l.entries[k];
    && e.id == id && e.status.Reserved? && (actual.Some? ==> actual.value >= 0.0)
    && (forall i :: 0 <= i < |l.entries| && l.entries[i].id == id ==> i == k)
    && (e.bucket !in l.bucketCaps ==>
         Total(l.entries) - e.reserved + (if actual.Some? then actual.value else e.reserved) > l.totalCap + TOLERANCE)
  }

  lemma {:induction false} MatchingIncreases(entries: seq<Entry>, id: string)
    ensures forall a :: 0 <= a < |Matching(entries, id)| ==> Matching(entries, id)[a] < |entries|
    ensures forall a, b :: 0 <= a < b < |Matching(entries, id)| ==> Matching(entries, id)[a] < Matching(entries, id)[b]
  {
    if entries == [] {
    } else {
      var n := |entries| - 1;
      MatchingIncreases(entries[..n], id);
      assert Matching(entries, id) == Matching(entries[..n], id) + if entries[n].id == id then [n] else [];
    }
  }

  lemma {:induction false} SameIdsSameMatches(a: seq<Entry>, b: seq<Entry>, id: string)
    requires |a| == |b| && forall i :: 0 <= i < |a| ==> a[i].id == b[i].id
    ensures Matching(a, id) == Matching(b, id)
  {
    if a == [] {
    } else {
      SameIdsSameMatches(a[..|a| - 1], b[..|b| - 1], id);
    }
  }

  /** A call that is reserved under a fresh identifier and settled costs its bucket exactly what it reported. */
  lemma CallCostsWhatItReports(l: Ledger, id: string, job: string, bucket: string, amount: real, actual: real)
    requires Reserve(l, id, job, bucket, amount).Ok? && Matching(l.entries, id) == [] && actual >= 0.0
    ensures var reserved := Reserve(l, id, job, bucket, amount).value;
      && Settle(reserved, id, Some(actual)).Ok?
      && var settled := Settle(reserved, id, Some(actual)).value;
         && Total(settled.entries) == Total(l.entries) + actual
         && (forall b ::
               BucketTotal(settled.entries, b) == BucketTotal(l.entries, b) + if b == bucket then actual else 0.0)
         && settled.entries == l.entries + [Entry(id, job, bucket, amount, Settled(actual))]
  {
    var e := Entry(id, job, bucket, amount, Settled(actual));
    SettlesTheNewEntry(l, id, job, bucket, amount, Some(actual));
    forall b ensures BucketTotal(l.entries + [e], b) == BucketTotal(l.entries, b)
      + if b == bucket then actual else 0.0 {
      SumsAfterAppend(l.entries, e, b);
    }
    SumsAfterAppend(l.entries, e, bucket);
  }

  lemma SettlesTheNewEntry(l: Ledger, id: string, job: string, bucket: string, amount: real, actual: Option<real>)
    requires Reserve(l, id, job, bucket, amount).Ok? && Matching(l.entries, id) == []
    ensures var r := Settle(Reserve(l, id, job, bucket, amount).value, id, actual);
      && (r.Ok? <==> actual.Some? ==> actual.value >= 0.0)
      && (r.Ok? ==> r.value.entries == l.entries + [Settlement(Entry(id, job, bucket, amount, Reserved), actual)])
  {
    var n, reserved := |l.entries|, Reserve(l, id, job, bucket, amount).value;
    var e := Entry(id, job, bucket, amount, Reserved);
    assert reserved.entries[..n] == l.entries;
    assert Matching(reserved.entries, id) == [n];
    assert reserved.entries[n := Settlement(e, actual)] == l.entries + [Settlement(e, actual)];
  }

  // ---------------------------------------------------------------- every run

  predicate WithinCaps(l: Ledger) {
    && Total(l.entries) <= l.totalCap + TOLERANCE
    && forall b <- l.bucketCaps :: BucketTotal(l.entries, b) <= l.bucketCaps[b] + TOLERANCE
  }

  predicate WithinCapsUnlessHalted(l: Ledger) {
    !l.halted ==> WithinCaps(l)
  }

  predicate CapsAllowEmpty(totalCap: real, bucketCaps: map<string, real>) {
    totalCap >= -TOLERANCE && forall b <- bucketCaps :: bucketCaps[b] >= -TOLERANCE
  }

  /** Caps never change, entries are only appended, and what an entry reserved never changes. */
  predicate Extends(l: Ledger, l': Ledger) {
    && l'.totalCap == l.totalCap && l'.bucketCaps == l.bucketCaps
    && |l.entries| <= |l'.entries|
    && forall k :: 0 <= k < |l.entries| ==> Evolves(l.entries[k], l'.entries[k])
  }

  /** An entry keeps its identity; once it has left `Reserved` nothing about it changes. */
  predicate Evolves(e: Entry, e': Entry) {
    && e'.(status := e.status) == e
    && (!e.status.Reserved? ==> e' == e)
  }

  lemma ApplyExtends(l: Ledger, op: Op)
    ensures Extends(l, Apply(l, op))
    ensures l.halted ==> Apply(l, op).halted && |Apply(l, op).entries| == |l.entries|
  {
    if op.SettleOp? && Attempt(l, op).Ok? {
      MatchingExact(l.entries, op.id);
      assert Matching(l.entries, op.id)[0] in Matching(l.entries, op.id);
    }
  }

  /** Each entry leaves `Reserved` at most once; halting is absorbing and ends all reservations. */
  lemma {:induction false} EntriesSettleOnce(l: Ledger, ops: seq<Op>)
    ensures Extends(l, Run(l, ops))
    ensures l.halted ==> Run(l, ops).halted && |Run(l, ops).entries| == |l.entries|
  {
    if ops == [] {
    } else {
      var n := |ops| - 1;
      EntriesSettleOnce(l, ops[..n]);
      ApplyExtends(Run(l, ops[..n]), ops[n]);
    }
  }

  lemma ApplyKeepsUnhaltedWithin(l: Ledger, op: Op)
    requires WithinCapsUnlessHalted(l)
    ensures WithinCapsUnlessHalted(Apply(l, op))
  {
    var l' := Apply(l, op);
    if l' != l && !l'.halted {
      match op
      case ReserveOp(id, job, bucket, amount) =>
        forall b <- l.bucketCaps ensures BucketTotal(l'.entries, b) <= l.bucketCaps[b] + TOLERANCE {
          SumsAfterAppend(l.entries, Entry(id, job, bucket, amount, Reserved), b);
        }
        SumsAfterAppend(l.entries, Entry(id, job, bucket, amount, Reserved), bucket);
      case SettleOp(id, actual) =>
        MatchingExact(l.entries, id);
        var k := Matching(l.entries, id)[0];
        assert k in Matching(l.entries, id);
        forall b <- l.bucketCaps ensures BucketTotal(l'.entries, b) <= l.bucketCaps[b] + TOLERANCE {
          SumsAfterUpdate(l.entries, k, l'.entries[k], b);
        }
    }
  }

  lemma {:induction false} RunKeepsUnhaltedWithin(l: Ledger, ops: seq<Op>)
    requires WithinCapsUnlessHalted(l)
    ensures WithinCapsUnlessHalted(Run(l, ops))
  {
    if ops == [] {
    } else {
      var n := |ops| - 1;
      RunKeepsUnhaltedWithin(l, ops[..n]);
      ApplyKeepsUnhaltedWithin(Run(l, ops[..n]), ops[n]);
    }
  }

  /**
   An unhalted ledger is within every cap after every sequence of calls, exactly when the caps it
   was created with admit the empty ledger: `create_ledger` accepts negative caps as well.
   */
  lemma UnhaltedMeansWithinCaps(totalCap: real, bucketCaps: map<string, real>)
    ensures CapsAllowEmpty(totalCap, bucketCaps)
        ==> forall ops :: WithinCapsUnlessHalted(Run(Created(totalCap, bucketCaps), ops))
    ensures !CapsAllowEmpty(totalCap, bucketCaps)
        ==> exists ops :: !WithinCapsUnlessHalted(Run(Created(totalCap, bucketCaps), ops))
  {
    if CapsAllowEmpty(totalCap, bucketCaps) {
      forall ops ensures WithinCapsUnlessHalted(Run(Created(totalCap, bucketCaps), ops)) {
        RunKeepsUnhaltedWithin(Created(totalCap, bucketCaps), ops);
      }
    } else {
      var created, none: seq<Op> := Created(totalCap, bucketCaps), [];
      assert !WithinCaps(created) by {
        assert forall b :: BucketTotal(created.entries, b) == 0.0;
      }
      assert !WithinCapsUnlessHalted(Run(Created(totalCap, bucketCaps), none));
    }
  }

  // ---------------------------------------------------------------- what was ever at stake

  /** An entry as charged, but never for more than it reserved. */
  function Clipped(e: Entry): Entry {
    e.(status := Settled(Min(Charged(e), e.reserved)))
  }

  function ClippedAll(entries: seq<Entry>): (r: seq<Entry>)
    ensures |r| == |entries|
    ensures forall k :: 0 <= k < |r| ==> r[k] == Clipped(entries[k])
  {
    seq(|entries|, k requires 0 <= k < |entries| => Clipped(entries[k]))
  }

  function Overrun(e: Entry): real {
    Charged(e) - Min(Charged(e), e.reserved)
  }

  function TotalOverrun(entries: seq<Entry>): real {
    if entries == [] then 0.0 else TotalOverrun(entries[..|entries| - 1]) + Overrun(entries[|entries| - 1])
  }

  function BucketOverrun(entries: seq<Entry>, bucket: string): real {
    if entries == [] then 0.0
    else
      var last := entries[|entries| - 1];
      BucketOverrun(entries[..|entries| - 1], bucket) + if last.bucket == bucket then Overrun(last) else 0.0
  }

  lemma {:induction false} ClippedBelow(entries: seq<Entry>, bucket: string)
    ensures Total(ClippedAll(entries)) == Total(entries) - TotalOverrun(entries)
    ensures BucketTotal(ClippedAll(entries), bucket) == BucketTotal(entries, bucket) - BucketOverrun(entries, bucket)
    ensures 0.0 <= BucketOverrun(entries, bucket) <= TotalOverrun(entries)
  {
    if entries == [] {
    } else {
      var n := |entries| - 1;
      ClippedBelow(entries[..n], bucket);
      assert ClippedAll(entries)[..n] == ClippedAll(entries[..n]);
    }
  }

  function ClippedLedger(l: Ledger): Ledger {
    l.(entries := ClippedAll(l.entries))
  }

  lemma ApplyKeepsClippedWithin(l: Ledger, op: Op)
    requires WithinCaps(ClippedLedger(l))
    ensures WithinCaps(ClippedLedger(Apply(l, op)))
  {
    if Apply(l, op) != l {
      match op
      case ReserveOp(id, job, bucket, amount) => ReserveKeepsClippedWithin(l, id, job, bucket, amount);
      case SettleOp(id, actual) => SettleKeepsClippedWithin(l, id, actual);
    }
  }

  lemma ReserveKeepsClippedWithin(l: Ledger, id: string, job: string, bucket: string, amount: real)
    requires WithinCaps(ClippedLedger(l)) && Reserve(l, id, job, bucket, amount).Ok?
    ensures WithinCaps(ClippedLedger(Reserve(l, id, job, bucket, amount).value))
  {
    var clipped, e := ClippedAll(l.entries), Entry(id, job, bucket, amount, Reserved);
    assert ClippedAll(l.entries + [e]) == clipped + [Clipped(e)];
    assert Charged(Clipped(e)) == amount;
    ClippedBelow(l.entries, bucket);
    SumsAfterAppend(clipped, Clipped(e), bucket);
    forall b <- l.bucketCaps ensures BucketTotal(clipped + [Clipped(e)], b) <= l.bucketCaps[b] + TOLERANCE {
      SumsAfterAppend(clipped, Clipped(e), b);
    }
  }

  lemma SettleKeepsClippedWithin(l: Ledger, id: string, actual: Option<real>)
    requires WithinCaps(ClippedLedger(l)) && Settle(l, id, actual).Ok?
    ensures WithinCaps(ClippedLedger(Settle(l, id, actual).value))
  {
    var l' := Settle(l, id, actual).value;
    MatchingExact(l.entries, id);
    var k := Matching(l.entries, id)[0];
    assert k in Matching(l.entries, id);
    var clipped, e := ClippedAll(l.entries), Clipped(l'.entries[k]);
    assert ClippedAll(l'.entries) == clipped[k := e];
    SumsAfterUpdate(clipped, k, e, e.bucket);
    forall b <- l.bucketCaps ensures BucketTotal(clipped[k := e], b) <= l.bucketCaps[b] + TOLERANCE {
      SumsAfterUpdate(clipped, k, e, b);
    }
  }

  lemma {:induction false} RunKeepsClippedWithin(l: Ledger, ops: seq<Op>)
    requires WithinCaps(ClippedLedger(l))
    ensures WithinCaps(ClippedLedger(Run(l, ops)))
  {
    if ops == [] {
    } else {
      var n := |ops| - 1;
      RunKeepsClippedWithin(l, ops[..n]);
      ApplyKeepsClippedWithin(Run(l, ops[..n]), ops[n]);
    }
  }

  /**
   Halted or not, a cap can only be passed by what settlements reported beyond their own reservations,
   and the cap of a bucket only by those of its own entries; when no settlement does that, every cap
   holds in every reachable ledger.
   */
  lemma SpendBoundedByOverrun(totalCap: real, bucketCaps: map<string, real>, ops: seq<Op>)
    requires CapsAllowEmpty(totalCap, bucketCaps)
    ensures var l := Run(Created(totalCap, bucketCaps), ops);
      && Total(l.entries) <= totalCap + TOLERANCE + TotalOverrun(l.entries)
      && (forall b <- bucketCaps ::
            BucketTotal(l.entries, b) <= bucketCaps[b] + TOLERANCE + BucketOverrun(l.entries, b))
      && ((forall e <- l.entries :: Charged(e) <= e.reserved) ==> WithinCaps(l))
  {
    var created := Created(totalCap, bucketCaps);
    var l := Run(created, ops);
    assert ClippedLedger(created) == created;
    RunKeepsClippedWithin(created, ops);
    EntriesSettleOnce(created, ops);
    ClippedBelow(l.entries, "");
    forall b <- bucketCaps
      ensures BucketTotal(l.entries, b) <= bucketCaps[b] + TOLERANCE + BucketOverrun(l.entries, b)
    {
      ClippedBelow(l.entries, b);
    }
    if forall e <- l.entries :: Charged(e) <= e.reserved {
      NoOverrun(l.entries);
      forall b <- bucketCaps ensures BucketTotal(l.entries, b) <= bucketCaps[b] + TOLERANCE {
        ClippedBelow(l.entries, b);
      }
    }
  }

  lemma {:induction false} NoOverrun(entries: seq<Entry>)
    requires forall e <- entries :: Charged(e) <= e.reserved
    ensures TotalOverrun(entries) == 0.0
  {
    if entries == [] {
    } else {
      NoOverrun(entries[..|entries| - 1]);
    }
  }
}
