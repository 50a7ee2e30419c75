/** The per-tenant Effect event chain that scripts/verify_identity_undo_evidence.py checks. */
module EffectChain {
  import opened Common
  import opened JsonValues
  import HashChains

  /** A row of the xa_effect_events table. */
  datatype Event = Event(
    seqNo: int, tenant: string, effect: string, eventType: string, actor: string, payload: Json,
    prevHash: string, recordHash: string, occurredAt: string)

  /** The part of an event that its digest covers. */
  function Covered(e: Event): Json {
    Obj(map["tenant_id" := Str(e.tenant), "effect_id" := Str(e.effect), "event_type" := Str(e.eventType),
            "actor_sub" := Str(e.actor), "payload" := e.payload, "prev_hash" := Str(e.prevHash)])
  }

  predicate EventOk(h: Digest, events: seq<Event>, i: nat)
    requires i < |events|
  {
    && events[i].seqNo > (if i == 0 then -1 else events[i - 1].seqNo)
    && events[i].prevHash == (if i == 0 then "" else events[i - 1].recordHash)
    && events[i].recordHash == h(Covered(events[i]))
  }

  predicate ChainOk(h: Digest, events: seq<Event>) {
    forall i :: 0 <= i < |events| ==> EventOk(h, events, i)
  }

  // ---------------------------------------------------------------- the verifier

  const REQUIRED: set<string> := {
    "seq", "tenant_id", "effect_id", "event_type", "actor_sub", "payload", "prev_hash", "record_hash"
  }

  predicate RecordShape(record: Json) {
    record.Obj? && REQUIRED <= record.fields.Keys <= REQUIRED + {"occurred_at"}
  }

  /** What Python takes for an integer. */
  function SeqOf(j: Json): Option<int> {
    match j
    case Num(n) => Some(n)
    case Bool(b) => Some(if b then 1 else 0)
    case _ => None
  }

  /** The part of a record that its digest covers. */
  function CoveredRecord(record: Json): Json {
    if RecordShape(record) then
      Obj(map k <- record.fields | k in {"tenant_id", "effect_id", "event_type", "actor_sub", "payload", "prev_hash"}
          :: record.fields[k])
    else Null
  }

  predicate RecordOk(h: Digest, records: seq<Json>, i: nat)
    requires i < |records|
  {
    && RecordShape(records[i]) && SeqOf(records[i].fields["seq"]).Some?
    && SeqOf(records[i].fields["seq"]).value > PreviousSeq(records, i)
    && records[i].fields["prev_hash"] == Str(PreviousDigest(h, records, i))
    && records[i].fields["record_hash"] == Str(h(CoveredRecord(records[i])))
  }

  function PreviousSeq(records: seq<Json>, i: nat): int
    requires i <= |records|
  {
    if i == 0 then -1
    else
      var seqNo := SeqOf(Raw(records[i - 1], "seq"));
      if seqNo.Some? then seqNo.value else -1
  }

  function PreviousDigest(h: Digest, records: seq<Json>, i: nat): string
    requires i <= |records|
  {
    if i == 0 then "" else h(CoveredRecord(records[i - 1]))
  }

  predicate RecordsOk(h: Digest, records: seq<Json>) {
    forall i :: 0 <= i < |records| ==> RecordOk(h, records, i)
  }

  method VerifyEffectChain(h: Digest, records: seq<Json>) returns (ok: bool)
    ensures ok <==> records != [] && RecordsOk(h, records)
  {
    if records == [] {
      return false;
    }
    var previous, previousSeq := "", -1;
    for i := 0 to |records|
      invariant forall k :: 0 <= k < i ==> RecordOk(h, records, k)
      invariant previous == PreviousDigest(h, records, i) && previousSeq == PreviousSeq(records, i)
    {
      var good := CheckRecord(h, records, i, previous, previousSeq);
      if !good {
        return false;
      }
      previous, previousSeq := h(CoveredRecord(records[i])), SeqOf(records[i].fields["seq"]).value;
    }
    return true;
  }

  /** The checks on one line, in the order in which they are made. */
  method CheckRecord(h: Digest, records: seq<Json>, i: nat, previous: string, previousSeq: int) returns (good: bool)
    requires i < |records| && previous == PreviousDigest(h, records, i) && previousSeq == PreviousSeq(records, i)
    ensures good <==> RecordOk(h, records, i)
  {
    var record := records[i];
    if !record.Obj? || record.fields.Keys - (REQUIRED + {"occurred_at"}) != {} || !(REQUIRED <= record.fields.Keys) {
      return false;
    }
    var seqNo := SeqOf(record.fields["seq"]);
    if seqNo.None? || seqNo.value <= previousSeq {
      return false;
    }
    if record.fields["prev_hash"] != Str(previous) {
      return false;
    }
    return record.fields["record_hash"] == Str(h(CoveredRecord(record)));
  }

  /** The line that is written for a row. */
  function RecordOf(e: Event): Json {
    Obj(map["seq" := Num(e.seqNo), "tenant_id" := Str(e.tenant), "effect_id" := Str(e.effect),
            "event_type" := Str(e.eventType),
            "actor_sub" := Str(e.actor), "occurred_at" := Str(e.occurredAt), "payload" := e.payload,
            "prev_hash" := Str(e.prevHash), "record_hash" := Str(e.recordHash)])
  }

  function RecordsOf(events: seq<Event>): (r: seq<Json>)
    ensures |r| == |events| && forall i :: 0 <= i < |r| ==> r[i] == RecordOf(events[i])
  {
    seq(|events|, i requires 0 <= i < |events| => RecordOf(events[i]))
  }

  lemma WrittenRecord(e: Event)
    ensures RecordShape(RecordOf(e)) && SeqOf(RecordOf(e).fields["seq"]) == Some(e.seqNo)
    ensures RecordOf(e).fields["prev_hash"] == Str(e.prevHash) && RecordOf(e).fields["record_hash"] == Str(e.recordHash)
    ensures CoveredRecord(RecordOf(e)) == Covered(e)
  {
  }

  /** The verifier accepts the written lines of a chain exactly if the chain of rows is intact. */
  lemma WrittenChainVerifiesExactly(h: Digest, events: seq<Event>)
    ensures RecordsOk(h, RecordsOf(events)) <==> ChainOk(h, events)
  {
    var records := RecordsOf(events);
    if RecordsOk(h, records) {
      forall i | 0 <= i < |events| ensures EventOk(h, events, i) {
        assert RecordOk(h, records, i) && (i > 0 ==> RecordOk(h, records, i - 1));
        WrittenPair(h, events, i);
      }
    }
    if ChainOk(h, events) {
      forall i | 0 <= i < |records| ensures RecordOk(h, records, i) {
        assert EventOk(h, events, i) && (i > 0 ==> EventOk(h, events, i - 1));
        WrittenPair(h, events, i);
      }
    }
  }

  lemma WrittenPair(h: Digest, events: seq<Event>, i: nat)
    requires i < |events|
      && (i > 0 ==> events[i - 1].recordHash == h(Covered(events[i - 1])) || RecordOk(h, RecordsOf(events), i - 1))
    ensures RecordOk(h, RecordsOf(events), i) <==> EventOk(h, events, i)
  {
    WrittenRecord(events[i]);
    if i > 0 {
      WrittenRecord(events[i - 1]);
    }
  }

  // ---------------------------------------------------------------- parts of a chain

  lemma ChainPrefix(h: Digest, events: seq<Event>, n: nat)
    requires ChainOk(h, events) && n <= |events|
    ensures ChainOk(h, events[..n])
  {
    forall i | 0 <= i < n ensures EventOk(h, events[..n], i) {
      assert EventOk(h, events, i);
    }
  }

  lemma {:induction false} NumbersIncrease(h: Digest, events: seq<Event>, i: nat, j: nat)
    requires ChainOk(h, events) && i < j < |events|
    ensures events[i].seqNo < events[j].seqNo
  {
    assert EventOk(h, events, j);
    if i == j - 1 {
    } else {
      NumbersIncrease(h, events, i, j - 1);
    }
  }

  lemma ChainExtends(h: Digest, events: seq<Event>, e: Event)
    requires ChainOk(h, events)
    requires e.seqNo > (if events == [] then -1 else events[|events| - 1].seqNo)
    requires e.prevHash == (if events == [] then "" else events[|events| - 1].recordHash)
    requires e.recordHash == h(Covered(e))
    ensures ChainOk(h, events + [e])
  {
    var longer := events + [e];
    forall i | 0 <= i < |longer| ensures EventOk(h, longer, i) {
      if i < |events| {
        assert EventOk(h, events, i);
      }
    }
  }

  // ---------------------------------------------------------------- the events of one tenant

  function TenantEvents(events: seq<Event>, tenant: string): seq<Event> {
    if events == [] then []
    else
      var n := |events| - 1;
      TenantEvents(events[..n], tenant) + if events[n].tenant == tenant then [events[n]] else []
  }

  lemma {:induction false} TenantEventsAreEvents(events: seq<Event>, tenant: string)
    ensures forall e <- TenantEvents(events, tenant) :: e in events
  {
    if events == [] {
    } else {
      TenantEventsAreEvents(events[..|events| - 1], tenant);
    }
  }

  // ---------------------------------------------------------------- what a digest commits to

  function CoveredAll(records: seq<Json>): (r: seq<Json>)
    ensures |r| == |records| && forall i :: 0 <= i < |r| ==> r[i] == CoveredRecord(records[i])
  {
    seq(|records|, i requires 0 <= i < |records| => CoveredRecord(records[i]))
  }

  function PrevOf(covered: Json): string {
    if covered.Obj? && "prev_hash" in covered.fields && covered.fields["prev_hash"].Str? then
      covered.fields["prev_hash"].s
    else ""
  }

  /** The last record hash fixes how many records there are and everything that they cover. */
  lemma HeadCommitsToRecords(h: Digest, a: seq<Json>, b: seq<Json>)
    requires HashChains.CollisionFree(h) && a != [] && b != [] && RecordsOk(h, a) && RecordsOk(h, b)
    requires Raw(a[|a| - 1], "record_hash") == Raw(b[|b| - 1], "record_hash")
    ensures CoveredAll(a) == CoveredAll(b)
  {
    CoveredLinks(h, a);
    CoveredLinks(h, b);
    LastDigest(h, a);
    LastDigest(h, b);
    HashChains.HeadCommits(h, PrevOf, CoveredAll(a), CoveredAll(b));
  }

  lemma LastDigest(h: Digest, records: seq<Json>)
    requires records != [] && RecordsOk(h, records)
    ensures Raw(records[|records| - 1], "record_hash") == Str(h(CoveredAll(records)[|records| - 1]))
  {
    assert RecordOk(h, records, |records| - 1);
  }

  lemma CoveredLinks(h: Digest, records: seq<Json>)
    requires RecordsOk(h, records)
    ensures HashChains.Links(h, PrevOf, CoveredAll(records))
  {
    var chain := CoveredAll(records);
    forall i | 0 <= i < |chain| ensures HashChains.LinkAt(h, PrevOf, chain, i) {
      assert RecordOk(h, records, i);
    }
  }

  /** A record whose number is written as a boolean, and the same record with the number that it counts as. */
  function WithNumber(record: Json): Json {
    if record.Obj? && "seq" in record.fields && record.fields["seq"].Bool? then
      Obj(record.fields["seq" := Num(if record.fields["seq"].b then 1 else 0)])
    else record
  }

  /** Booleans are accepted as the numbers 0 and 1, and nowhere else is a number of another kind. */
  lemma BooleansCountAsNumbers(h: Digest, records: seq<Json>)
    ensures RecordsOk(h, records) <==> RecordsOk(h, AllWithNumber(records))
    ensures RecordsOk(h, records) ==> forall r <- records :: WithNumber(r).Obj? && Raw(WithNumber(r), "seq").Num?
  {
    var numbered := AllWithNumber(records);
    forall i | 0 <= i < |records| ensures RecordOk(h, records, i) <==> RecordOk(h, numbered, i) {
      NumberedRecord(h, records, i);
    }
    if RecordsOk(h, records) {
      forall r <- records ensures WithNumber(r).Obj? && Raw(WithNumber(r), "seq").Num? {
        var i :| 0 <= i < |records| && records[i] == r;
        assert RecordOk(h, records, i);
      }
    }
  }

  lemma NumberedRecord(h: Digest, records: seq<Json>, i: nat)
    requires i < |records|
    ensures RecordOk(h, records, i) <==> RecordOk(h, AllWithNumber(records), i)
  {
    SameButForSeq(records[i]);
    if i > 0 {
      SameButForSeq(records[i - 1]);
    }
  }

  function AllWithNumber(records: seq<Json>): (r: seq<Json>)
    ensures |r| == |records| && forall i :: 0 <= i < |r| ==> r[i] == WithNumber(records[i])
  {
    seq(|records|, i requires 0 <= i < |records| => WithNumber(records[i]))
  }

  lemma SameButForSeq(record: Json)
    ensures var n := WithNumber(record);
      && (RecordShape(record) <==> RecordShape(n)) && CoveredRecord(record) == CoveredRecord(n)
      && SeqOf(Raw(record, "seq")) == SeqOf(Raw(n, "seq"))
      && (forall k :: k != "seq" ==> Raw(record, k) == Raw(n, k))
  {
    var n := WithNumber(record);
    if n != record {
      assert n.fields.Keys == record.fields.Keys;
      assert RecordShape(record) ==> CoveredRecord(record).fields == CoveredRecord(n).fields;
    }
  }

  /** It does not fix sequence numbers or times: any times and any increasing numbers are accepted. */
  lemma NumbersAndTimesAreNotCovered(h: Digest, a: seq<Event>, b: seq<Event>)
    requires ChainOk(h, a) && |a| == |b|
    requires forall i :: 0 <= i < |a| ==> SameButNumberAndTime(a[i], b[i])
    requires Numbered(b)
    ensures ChainOk(h, b)
  {
    forall i | 0 <= i < |b| ensures EventOk(h, b, i) {
      assert EventOk(h, a, i) && SameButNumberAndTime(a[i], b[i]);
      assert i > 0 ==> SameButNumberAndTime(a[i - 1], b[i - 1]);
    }
  }

  predicate SameButNumberAndTime(x: Event, y: Event) {
    x.(seqNo := 0, occurredAt := "") == y.(seqNo := 0, occurredAt := "")
  }

  predicate Numbered(events: seq<Event>) {
    && (events != [] ==> events[0].seqNo >= 0)
    && forall i :: 0 < i < |events| ==> events[i - 1].seqNo < events[i].seqNo
  }
}
