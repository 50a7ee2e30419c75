/**
 The ledger of bench/external/budget.py as the object that one locked call updates in place.
 Every method is tied to the function of `BudgetLedger` that says what the call does.
 */
module LedgerFiles {
  import opened Common
  import opened BudgetLedger

  /** The sum of a finite table's values, whichever key is taken first. */
  ghost function SumOver(keys: set<string>, f: string -> real): real {
    if keys == {} then 0.0
    else
      var k :| k in keys;
      f(k) + SumOver(keys - {k}, f)
  }

  lemma {:induction false} SumOverRemove(keys: set<string>, f: string -> real, k: string)
    requires k in keys
    ensures SumOver(keys, f) == f(k) + SumOver(keys - {k}, f)
  {
    var first :| first in keys && SumOver(keys, f) == f(first) + SumOver(keys - {first}, f);
    if first != k {
      SumOverRemove(keys - {first}, f, k);
      SumOverRemove(keys - {k}, f, first);
      assert keys - {first} - {k} == keys - {k} - {first};
    }
  }

  /** Raising one key's value raises the sum by as much; other keys may not change. */
  lemma {:induction false} SumOverRaised(keys: set<string>, f: string -> real, g: string -> real, k: string, d: real)
    requires forall j <- keys :: g(j) == f(j) + if j == k then d else 0.0
    ensures SumOver(keys, g) == SumOver(keys, f) + if k in keys then d else 0.0
  {
    if keys == {} {
    } else {
      var j :| j in keys;
      SumOverRemove(keys, f, j);
      SumOverRemove(keys, g, j);
      SumOverRaised(keys - {j}, f, g, k, d);
    }
  }

  ghost function BucketSums(entries: seq<Entry>): string -> real {
    b => BucketTotal(entries, b)
  }

  /** Adding the buckets up gives the plain sum over the entries, in any order of the buckets. */
  lemma {:induction false} BucketsAddUp(entries: seq<Entry>, keys: set<string>)
    requires forall e <- entries :: e.bucket in keys
    ensures SumOver(keys, BucketSums(entries)) == Total(entries)
  {
    if entries == [] {
      SumOfZeros(keys, BucketSums(entries));
    } else {
      var rest, last := entries[..|entries| - 1], entries[|entries| - 1];
      BucketsAddUp(rest, keys);
      SumOverRaised(keys, BucketSums(rest), BucketSums(entries), last.bucket, Charged(last));
      assert last in entries;
    }
  }

  lemma {:induction false} SumOfZeros(keys: set<string>, f: string -> real)
    requires forall j <- keys :: f(j) == 0.0
    ensures SumOver(keys, f) == 0.0
  {
    if keys == {} {
    } else {
      var j :| j in keys;
      SumOverRemove(keys, f, j);
      SumOfZeros(keys - {j}, f);
    }
  }

  class LedgerFile {
    const totalCap: real
    const bucketCaps: map<string, real>
    var halted: bool
    var reason: HaltReason
    var entries: seq<Entry>

    function Value(): Ledger
      reads this
    {
      Ledger(totalCap, bucketCaps, halted, reason, entries)
    }

    constructor (totalCap: real, bucketCaps: map<string, real>)
      ensures Value() == Created(totalCap, bucketCaps)
    {
      this.totalCap, this.bucketCaps := totalCap, bucketCaps;
      halted, reason, entries := false, NotHalted, [];
    }

    /** `ledger_totals`: bucket sums in one pass over the entries, then the sum of the buckets. */
    method Totals() returns (total: real, buckets: map<string, real>)
      ensures total == Total(entries)
      ensures buckets.Keys == bucketCaps.Keys + set e <- entries :: e.bucket
      ensures forall b <- buckets :: buckets[b] == BucketTotal(entries, b)
    {
      buckets := Buckets();
      total := 0.0;
      var left := buckets.Keys;
      ghost var sums := BucketSums(entries);
      BucketsAddUp(entries, left);
      while left != {}
        invariant left <= buckets.Keys
        invariant total + SumOver(left, sums) == Total(entries)
      {
        var b :| b in left;
        SumOverRemove(left, sums, b);
        total := total + buckets[b];
        left := left - {b};
      }
    }

    method Buckets() returns (buckets: map<string, real>)
      ensures buckets.Keys == bucketCaps.Keys + set e <- entries :: e.bucket
      ensures forall b <- buckets :: buckets[b] == BucketTotal(entries, b)
    {
      buckets := map b <- bucketCaps :: 0.0;
      for i := 0 to |entries|
        invariant buckets.Keys == bucketCaps.Keys + set e <- entries[..i] :: e.bucket
        invariant forall b <- buckets :: buckets[b] == BucketTotal(entries[..i], b)
        invariant forall b :: b !in buckets ==> BucketTotal(entries[..i], b) == 0.0
      {
        var e := entries[i];
        assert entries[..i + 1][..i] == entries[..i];
        assert entries[..i + 1] == entries[..i] + [e];
        if e.bucket !in buckets {
          buckets := buckets[e.bucket := 0.0];
        }
        buckets := buckets[e.bucket := buckets[e.bucket] + Charged(e)];
      }
      assert entries[..|entries|] == entries;
    }

    /** `reserve_cost` inside the lock; `id` is the fresh identifier. */
    method TakeReservation(id: string, job: string, bucket: string, amount: real)
      returns (error: Option<BudgetError>)
      modifies this
      ensures Value() == Apply(old(Value()), ReserveOp(id, job, bucket, amount))
      ensures error == match Reserve(old(Value()), id, job, bucket, amount)
                       case Ok(_) => None
                       case Err(e) => Some(e)
    {
      if amount <= 0.0 {
        return Some(NotPositive);
      }
      if halted {
        return Some(LedgerHalted);
      }
      if bucket !in bucketCaps {
        return Some(UnknownBucket);
      }
      var total, buckets := Totals();
      if total + amount > totalCap + TOLERANCE {
        return Some(TotalWouldExceed);
      }
      if (if bucket in buckets then buckets[bucket] else 0.0) + amount > bucketCaps[bucket] + TOLERANCE {
        return Some(BucketWouldExceed);
      }
      entries := entries + [Entry(id, job, bucket, amount, Reserved)];
      return None;
    }

    /** The places of the entries that carry an identifier. */
    method Find(id: string) returns (matches: seq<nat>)
      ensures matches == Matching(entries, id)
    {
      matches := [];
      for i := 0 to |entries|
        invariant matches == Matching(entries[..i], id)
      {
        assert entries[..i + 1][..i] == entries[..i];
        if entries[i].id == id {
          matches := matches + [i];
        }
      }
      assert entries[..|entries|] == entries;
    }

    /** `settle_cost` inside the lock: rewrite the one matching entry, then test the caps again. */
    method SettleReservation(id: string, actual: Option<real>)
      returns (error: Option<BudgetError>)
      modifies this
      ensures Value() == Apply(old(Value()), SettleOp(id, actual))
      ensures error == match Settle(old(Value()), id, actual)
                       case Ok(_) => None
                       case Err(e) => Some(e)
    {
      var matches := Find(id);
      if |matches| != 1 {
        return Some(UnknownReservation);
      }
      MatchingExact(entries, id);
      assert matches[0] in matches;
      error := SettleEntry(matches[0], actual);
    }

    method SettleEntry(k: nat, actual: Option<real>) returns (error: Option<BudgetError>)
      requires k < |entries|
      modifies this
      ensures match SettleAt(old(Value()), k, actual)
              case Ok(l) => error == None && Value() == l
              case Err(e) => error == Some(e) && Value() == old(Value())
    {
      var e := entries[k];
      if !e.status.Reserved? {
        return Some(AlreadySettled);
      }
      if actual.Some? && actual.value < 0.0 {
        return Some(NegativeCost);
      }
      var loaded, wasHalted, hadReason := entries, halted, reason;
      if actual.None? {
        entries := entries[k := e.(status := CostUnknown(e.reserved))];
        halted, reason := true, CostMissing;
      } else {
        entries := entries[k := e.(status := Settled(actual.value))];
      }
      assert entries[k] in entries;
      var total, buckets := Totals();
      if total <= totalCap + TOLERANCE && e.bucket !in bucketCaps {
        // The lookup of the cap raises before the file is replaced.
        entries, halted, reason := loaded, wasHalted, hadReason;
        return Some(BucketWithoutCap);
      }
      if total > totalCap + TOLERANCE || buckets[e.bucket] > bucketCaps[e.bucket] + TOLERANCE {
        halted, reason := true, CapExceeded;
      }
      return None;
    }
  }
}
