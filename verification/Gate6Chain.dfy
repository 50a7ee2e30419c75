/**
 The Gate6 evidence chain: `_gate6_projection` of scripts/collect_identity_undo_evidence.py rewrites
 and re-hashes a durable chain, `verify_gate6_chain` of scripts/verify_identity_undo_evidence.py checks
 what it wrote. `h` is the digest of canonical JSON.
 */
module Gate6Chain {
  import opened Common
  import opened JsonValues
  import HashChains
  import PublicProjection

  const HASH_PREV := "gen_ai.evidence.hash_prev"
  const RECORD_HASH := "record_hash"
  const SIGNATURE := "signature"
  const TRACE_ID := "trace_id"

  /** A row of the xa_gate6_events table. */
  datatype Row = Row(record: Json, prevHash: string, recordHash: string, seqNo: int)

  datatype Mapping = Mapping(projectedHash: string, seqNo: int, sourceHash: string, traceId: string)

  datatype CollectionError =
    | RecordNotObject | PredecessorMismatch | HashMismatch | EmbeddedHashDiffers | EmbeddedPredecessorDiffers
    | TraceMissing

  function Unsigned(record: Json): Json {
    if record.Obj? then Obj(record.fields - {RECORD_HASH, SIGNATURE}) else record
  }

  // ---------------------------------------------------------------- the verifier

  /** Record `i` names the digest of its predecessor and carries its own. */
  predicate LinkedAt(h: Digest, records: seq<Json>, i: nat)
    requires i < |records|
  {
    && records[i].Obj?
    && HASH_PREV in records[i].fields && RECORD_HASH in records[i].fields
    && records[i].fields[RECORD_HASH] == Str(h(Unsigned(records[i])))
    && (if i == 0 then records[i].fields[HASH_PREV] == Str("")
        else records[i].fields[HASH_PREV] == Str(h(Unsigned(records[i - 1]))))
  }

  predicate ChainValid(h: Digest, records: seq<Json>) {
    records != [] && forall i :: 0 <= i < |records| ==> LinkedAt(h, records, i)
  }

  method VerifyGate6Chain(h: Digest, records: seq<Json>) returns (ok: bool)
    ensures ok <==> ChainValid(h, records)
  {
    if records == [] {
      return false;
    }
    var previous := "";
    for i := 0 to |records|
      invariant forall k :: 0 <= k < i ==> LinkedAt(h, records, k)
      invariant previous == if i == 0 then "" else h(Unsigned(records[i - 1]))
    {
      var record := records[i];
      assert i > 0 ==> LinkedAt(h, records, i - 1);
      if !record.Obj? || HASH_PREV !in record.fields || record.fields[HASH_PREV] != Str(previous) {
        assert !LinkedAt(h, records, i);
        return false;
      }
      var expected := h(Unsigned(record));
      if RECORD_HASH !in record.fields || record.fields[RECORD_HASH] != Str(expected) {
        assert !LinkedAt(h, records, i);
        return false;
      }
      previous := expected;
    }
    return true;
  }

  // ---------------------------------------------------------------- the producer

  /** Row `i` of the durable chain is intact: columns and embedded fields agree with the digests. */
  predicate RowIntact(h: Digest, text: Json -> string, rows: seq<Row>, i: nat)
    requires i < |rows|
  {
    var previous := if i == 0 then "" else rows[i - 1].recordHash;
    && rows[i].record.Obj?
    && rows[i].prevHash == previous
    && h(Unsigned(rows[i].record)) == rows[i].recordHash
    && ShownOrEmpty(text, rows[i].record.fields, RECORD_HASH) == rows[i].recordHash
    && ShownOrEmpty(text, rows[i].record.fields, HASH_PREV) == previous
  }

  predicate SourceIntact(h: Digest, text: Json -> string, rows: seq<Row>) {
    forall i :: 0 <= i < |rows| ==> RowIntact(h, text, rows, i)
  }

  predicate HasTrace(text: Json -> string, rows: seq<Row>, trace: string) {
    exists row <- rows :: TraceOf(text, row) == trace
  }

  // What collection writes: each record projected, linked to the public chain so far, and re-hashed.

  function Relinked(lower: string -> string, flagged: string -> bool, record: Json, previous: string): Json {
    var public := PublicProjection.Project(lower, flagged, record);
    if public.Obj? then Obj(public.fields[HASH_PREV := Str(previous)]) else public
  }

  function Hashed(h: Digest, projected: Json): Json {
    if projected.Obj? then Obj(projected.fields[RECORD_HASH := Str(h(projected))]) else projected
  }

  function PublicHead(h: Digest, records: seq<Json>): string {
    if records == [] then "" else h(Unsigned(records[|records| - 1]))
  }

  function PublicChain(h: Digest, lower: string -> string, flagged: string -> bool, rows: seq<Row>): seq<Json> {
    if rows == [] then []
    else
      var n := |rows| - 1;
      var before := PublicChain(h, lower, flagged, rows[..n]);
      before + [Hashed(h, Relinked(lower, flagged, rows[n].record, PublicHead(h, before)))]
  }

  /** The provenance mapping, beside the public records. */
  function MappingChain(h: Digest, text: Json -> string, rows: seq<Row>, records: seq<Json>): seq<Mapping>
    requires |records| == |rows|
  {
    if rows == [] then []
    else
      var n := |rows| - 1;
      MappingChain(h, text, rows[..n], records[..n])
      + [Mapping(h(Unsigned(records[n])), rows[n].seqNo, rows[n].recordHash, TraceOf(text, rows[n]))]
  }

  function TraceOf(text: Json -> string, row: Row): string {
    if row.record.Obj? then ShownOrEmpty(text, row.record.fields, TRACE_ID) else ""
  }

  /** Entry `i` of the mapping pairs the `i`-th public digest with the `i`-th source digest. */
  lemma {:induction false} MappingPairsDigests(h: Digest, text: Json -> string, rows: seq<Row>, records: seq<Json>)
    requires |records| == |rows|
    ensures |MappingChain(h, text, rows, records)| == |rows|
    ensures forall i :: 0 <= i < |rows| ==>
      && MappingChain(h, text, rows, records)[i].projectedHash == h(Unsigned(records[i]))
      && MappingChain(h, text, rows, records)[i].sourceHash == rows[i].recordHash
      && MappingChain(h, text, rows, records)[i].seqNo == rows[i].seqNo
      && MappingChain(h, text, rows, records)[i].traceId == TextOr(text, rows[i].record, "trace_id")
  {
    if rows == [] {
    } else {
      MappingPairsDigests(h, text, rows[..|rows| - 1], records[..|rows| - 1]);
    }
  }

  lemma RelinkedIsUnsigned(h: Digest, lower: string -> string, flagged: string -> bool, record: Json, previous: string)
    requires record.Obj?
    ensures var projected := Relinked(lower, flagged, record, previous);
      && Hashed(h, projected).Obj?
      && Unsigned(Hashed(h, projected)) == projected
      && Hashed(h, projected).fields - {HASH_PREV, RECORD_HASH}
         == PublicProjection.Project(lower, flagged, record).fields - {HASH_PREV, RECORD_HASH}
  {
    var projected := Relinked(lower, flagged, record, previous);
    assert RECORD_HASH in PublicProjection.DROPPED_KEYS && SIGNATURE in PublicProjection.DROPPED_KEYS;
    assert RECORD_HASH !in projected.fields && SIGNATURE !in projected.fields;
    assert Hashed(h, projected).fields - {RECORD_HASH, SIGNATURE} == projected.fields;
  }

  /** The public record of a row differs from the projected source record only in the chain fields. */
  predicate Projects(lower: string -> string, flagged: string -> bool, record: Json, public: Json) {
    && record.Obj? && public.Obj?
    && public.fields - {HASH_PREV, RECORD_HASH}
       == PublicProjection.Project(lower, flagged, record).fields - {HASH_PREV, RECORD_HASH}
  }

  /**
   Every rewritten chain has one record per row in the same order, is accepted by the verifier, and
   differs from the projected source records only in the two chain fields.
   */
  lemma {:induction false} PublicChainIsAccepted(h: Digest, lower: string -> string, flagged: string -> bool,
                                                 rows: seq<Row>)
    requires forall row <- rows :: row.record.Obj?
    ensures var records := PublicChain(h, lower, flagged, rows);
      && |records| == |rows|
      && (rows != [] ==> ChainValid(h, records))
      && forall i :: 0 <= i < |rows| ==> Projects(lower, flagged, rows[i].record, records[i])
  {
    if rows == [] {
    } else {
      var n := |rows| - 1;
      var records := PublicChain(h, lower, flagged, rows);
      PublicChainIsAccepted(h, lower, flagged, rows[..n]);
      var before := PublicChain(h, lower, flagged, rows[..n]);
      assert rows[n] in rows;
      RelinkedIsUnsigned(h, lower, flagged, rows[n].record, PublicHead(h, before));
      forall i | 0 <= i < |rows|
        ensures LinkedAt(h, records, i) && Projects(lower, flagged, rows[i].record, records[i])
      {
        if i < n {
          assert LinkedAt(h, before, i) && Projects(lower, flagged, rows[..n][i].record, before[i]);
        }
      }
    }
  }

  /**
   `_gate6_projection` succeeds exactly on an intact source chain that contains both traces: a row
   with a wrong predecessor or digest, in its columns or embedded in its record, is always rejected.
   */
  method ProjectRows(h: Digest, text: Json -> string, lower: string -> string, flagged: string -> bool,
                     rows: seq<Row>, originalTrace: string, compensationTrace: string)
    returns (r: Result<(seq<Json>, seq<Mapping>), CollectionError>)
    ensures r.Ok? <==>
      SourceIntact(h, text, rows) && HasTrace(text, rows, originalTrace) && HasTrace(text, rows, compensationTrace)
    ensures r.Ok? ==>
      && r.value.0 == PublicChain(h, lower, flagged, rows)
      && |r.value.0| == |rows| && r.value.1 == MappingChain(h, text, rows, r.value.0)
  {
    var seen: set<string>;
    IntactUpToMeansAll(h, text, rows, |rows|);
    r, seen := ProjectAll(h, text, lower, flagged, rows, originalTrace, compensationTrace);
    if r.Ok? && (originalTrace !in seen || compensationTrace !in seen) {
      r := Err(TraceMissing);
    }
  }

  predicate IntactUpTo(h: Digest, text: Json -> string, rows: seq<Row>, n: nat)
    requires n <= |rows|
  {
    n == 0 || (IntactUpTo(h, text, rows, n - 1) && RowIntact(h, text, rows, n - 1))
  }

  lemma {:induction false} IntactUpToMeansAll(h: Digest, text: Json -> string, rows: seq<Row>, n: nat)
    requires n <= |rows|
    ensures IntactUpTo(h, text, rows, n) <==> forall i :: 0 <= i < n ==> RowIntact(h, text, rows, i)
  {
    if n == 0 {
    } else {
      IntactUpToMeansAll(h, text, rows, n - 1);
      if IntactUpTo(h, text, rows, n) {
        forall i | 0 <= i < n ensures RowIntact(h, text, rows, i) {
        }
      } else {
        assert !IntactUpTo(h, text, rows, n - 1) || !RowIntact(h, text, rows, n - 1);
      }
    }
  }

  lemma BrokenRowBreaksSource(h: Digest, text: Json -> string, rows: seq<Row>, i: nat)
    requires i < |rows| && !RowIntact(h, text, rows, i)
    ensures !IntactUpTo(h, text, rows, |rows|)
  {
    IntactUpToMeansAll(h, text, rows, |rows|);
  }

  /** The loop over the rows, and which of the two traces it came across. */
  method ProjectAll(h: Digest, text: Json -> string, lower: string -> string, flagged: string -> bool,
                    rows: seq<Row>, originalTrace: string, compensationTrace: string)
    returns (r: Result<(seq<Json>, seq<Mapping>), CollectionError>, seen: set<string>)
    ensures r.Ok? <==> IntactUpTo(h, text, rows, |rows|)
    ensures r.Ok? ==> Saw(text, rows, originalTrace, compensationTrace, seen)
    ensures r.Ok? ==> Projected(h, text, lower, flagged, rows, r.value.0, r.value.1, PublicHead(h, r.value.0))
  {
    var previousSource, previousPublic := "", "";
    var records: seq<Json>, mapping: seq<Mapping> := [], [];
    seen := {};
    for i := 0 to |rows|
      invariant IntactUpTo(h, text, rows, i)
      invariant previousSource == if i == 0 then "" else rows[i - 1].recordHash
      invariant Projected(h, text, lower, flagged, rows[..i], records, mapping, previousPublic)
      invariant Saw(text, rows[..i], originalTrace, compensationTrace, seen)
    {
      var row := rows[i];
      var problem := CheckRow(h, text, rows, i, previousSource);
      if problem.Some? {
        BrokenRowBreaksSource(h, text, rows, i);
        return Err(problem.value), seen;
      }
      records, mapping, previousPublic := ProjectRow(h, text, lower, flagged, rows, i, records, mapping,
                                                     previousPublic);
      var traceId := TraceOf(text, row);
      SawStep(text, rows, i, originalTrace, compensationTrace, seen);
      if traceId == originalTrace || traceId == compensationTrace {
        seen := seen + {traceId};
      }
      previousSource := row.recordHash;
    }
    assert rows[..|rows|] == rows;
    return Ok((records, mapping)), seen;
  }

  /** One row is projected, linked to the public chain so far, hashed and noted. */
  method ProjectRow(h: Digest, text: Json -> string, lower: string -> string, flagged: string -> bool, rows: seq<Row>,
                    i: nat, records: seq<Json>, mapping: seq<Mapping>, previous: string)
    returns (moreRecords: seq<Json>, moreMapping: seq<Mapping>, head: string)
    requires i < |rows| && rows[i].record.Obj?
      && Projected(h, text, lower, flagged, rows[..i], records, mapping, previous)
    ensures Projected(h, text, lower, flagged, rows[..i + 1], moreRecords, moreMapping, head)
  {
    var row, projected := rows[i], Relinked(lower, flagged, rows[i].record, previous);
    ProjectedStep(h, text, lower, flagged, rows, i, records, mapping, previous);
    head := h(projected);
    moreRecords := records + [Hashed(h, projected)];
    moreMapping := mapping + [Mapping(head, row.seqNo, row.recordHash, TraceOf(text, row))];
  }

  /** What the loop has written for the rows so far. */
  predicate Projected(h: Digest, text: Json -> string, lower: string -> string, flagged: string -> bool, rows: seq<Row>,
                      records: seq<Json>, mapping: seq<Mapping>, head: string)
  {
    && |records| == |rows| && records == PublicChain(h, lower, flagged, rows)
    && mapping == MappingChain(h, text, rows, records) && head == PublicHead(h, records)
  }

  lemma ProjectedStep(h: Digest, text: Json -> string, lower: string -> string, flagged: string -> bool, rows: seq<Row>,
                      i: nat, records: seq<Json>, mapping: seq<Mapping>, head: string)
    requires i < |rows| && rows[i].record.Obj? && Projected(h, text, lower, flagged, rows[..i], records, mapping, head)
    ensures var projected := Relinked(lower, flagged, rows[i].record, head);
      Projected(h, text, lower, flagged, rows[..i + 1], records + [Hashed(h, projected)],
                mapping + [Mapping(h(projected), rows[i].seqNo, rows[i].recordHash, TraceOf(text, rows[i]))],
                h(projected))
  {
    RelinkedIsUnsigned(h, lower, flagged, rows[i].record, head);
    assert rows[..i + 1][..i] == rows[..i];
    var projected := Relinked(lower, flagged, rows[i].record, head);
    assert (records + [Hashed(h, projected)])[..i] == records;
  }

  predicate Saw(text: Json -> string, rows: seq<Row>, originalTrace: string, compensationTrace: string,
                seen: set<string>) {
    && (originalTrace in seen <==> HasTrace(text, rows, originalTrace))
    && (compensationTrace in seen <==> HasTrace(text, rows, compensationTrace))
  }

  lemma SawStep(text: Json -> string, rows: seq<Row>, i: nat, originalTrace: string, compensationTrace: string,
                seen: set<string>)
    requires i < |rows| && Saw(text, rows[..i], originalTrace, compensationTrace, seen)
    ensures var trace := TraceOf(text, rows[i]);
      Saw(text, rows[..i + 1], originalTrace, compensationTrace,
          if trace == originalTrace || trace == compensationTrace then seen + {trace} else seen)
  {
    HasTraceStep(text, rows, i, originalTrace);
    HasTraceStep(text, rows, i, compensationTrace);
  }

  lemma HasTraceStep(text: Json -> string, rows: seq<Row>, i: nat, trace: string)
    requires i < |rows|
    ensures HasTrace(text, rows[..i + 1], trace)
      <==> HasTrace(text, rows[..i], trace) || TraceOf(text, rows[i]) == trace
  {
    assert rows[..i + 1] == rows[..i] + [rows[i]];
  }

  /** The checks on one row of the durable chain, in the order in which they are made. */
  method CheckRow(h: Digest, text: Json -> string, rows: seq<Row>, i: nat, previous: string)
    returns (problem: Option<CollectionError>)
    requires i < |rows| && previous == if i == 0 then "" else rows[i - 1].recordHash
    ensures problem.None? <==> RowIntact(h, text, rows, i)
  {
    var row := rows[i];
    if !row.record.Obj? {
      return Some(RecordNotObject);
    } else if row.prevHash != previous {
      return Some(PredecessorMismatch);
    } else if h(Unsigned(row.record)) != row.recordHash {
      return Some(HashMismatch);
    } else if ShownOrEmpty(text, row.record.fields, RECORD_HASH) != row.recordHash {
      return Some(EmbeddedHashDiffers);
    } else if ShownOrEmpty(text, row.record.fields, HASH_PREV) != previous {
      return Some(EmbeddedPredecessorDiffers);
    }
    return None;
  }

  // ---------------------------------------------------------------- what a digest commits to

  function PrevOf(unsigned: Json): string {
    if unsigned.Obj? && HASH_PREV in unsigned.fields && unsigned.fields[HASH_PREV].Str? then
      unsigned.fields[HASH_PREV].s
    else ""
  }

  function UnsignedAll(records: seq<Json>): (r: seq<Json>)
    ensures |r| == |records| && forall i :: 0 <= i < |r| ==> r[i] == Unsigned(records[i])
  {
    seq(|records|, i requires 0 <= i < |records| => Unsigned(records[i]))
  }

  /** A record without its signature. */
  function WithoutSignature(record: Json): Json {
    if record.Obj? then Obj(record.fields - {"signature"}) else record
  }

  /**
   With a digest that has no collisions and is never the empty string, the digest of the last record
   fixes the whole accepted chain: its length and every record up to its signature.
   */
  lemma HeadCommitsToChain(h: Digest, a: seq<Json>, b: seq<Json>)
    requires HashChains.CollisionFree(h) && ChainValid(h, a) && ChainValid(h, b)
    requires Raw(a[|a| - 1], "record_hash") == Raw(b[|b| - 1], "record_hash")
    ensures |a| == |b| && forall i :: 0 <= i < |a| ==> WithoutSignature(a[i]) == WithoutSignature(b[i])
  {
    AcceptedChainLinks(h, a);
    AcceptedChainLinks(h, b);
    assert LinkedAt(h, a, |a| - 1) && LinkedAt(h, b, |b| - 1);
    HashChains.HeadCommits(h, PrevOf, UnsignedAll(a), UnsignedAll(b));
    forall i | 0 <= i < |a| ensures WithoutSignature(a[i]) == WithoutSignature(b[i]) {
      assert LinkedAt(h, a, i) && LinkedAt(h, b, i);
      assert UnsignedAll(a)[i] == UnsignedAll(b)[i];
      HashAndUnsigned(a[i], b[i]);
    }
  }

  lemma HashAndUnsigned(a: Json, b: Json)
    requires a.Obj? && b.Obj? && Unsigned(a) == Unsigned(b)
    requires RECORD_HASH in a.fields && RECORD_HASH in b.fields && a.fields[RECORD_HASH] == b.fields[RECORD_HASH]
    ensures WithoutSignature(a) == WithoutSignature(b)
  {
    var x, y := a.fields - {SIGNATURE}, b.fields - {SIGNATURE};
    assert x == (a.fields - {RECORD_HASH, SIGNATURE})[RECORD_HASH := a.fields[RECORD_HASH]];
    assert y == (b.fields - {RECORD_HASH, SIGNATURE})[RECORD_HASH := b.fields[RECORD_HASH]];
  }

  /** The last digest of an intact source chain fixes all its digests, in the columns and embedded, and all records. */
  lemma HeadCommitsToSource(h: Digest, text: Json -> string, a: seq<Row>, b: seq<Row>)
    requires HashChains.CollisionFree(h) && SourceIntact(h, text, a) && SourceIntact(h, text, b) && a != [] && b != []
    requires a[|a| - 1].recordHash == b[|b| - 1].recordHash
    ensures |a| == |b|
    ensures forall i :: 0 <= i < |a| ==>
      && a[i].recordHash == b[i].recordHash && a[i].prevHash == b[i].prevHash
      && Unsigned(a[i].record) == Unsigned(b[i].record)
      && TextOr(text, a[i].record, "record_hash") == a[i].recordHash
      && TextOr(text, a[i].record, "gen_ai.evidence.hash_prev") == a[i].prevHash
  {
    SourceLinks(h, text, a);
    SourceLinks(h, text, b);
    assert RowIntact(h, text, a, |a| - 1) && RowIntact(h, text, b, |b| - 1);
    HashChains.HeadCommits(h, ShownPrev(text), SourceRecords(a), SourceRecords(b));
    forall i | 0 <= i < |a|
      ensures && a[i].recordHash == b[i].recordHash && a[i].prevHash == b[i].prevHash
              && Unsigned(a[i].record) == Unsigned(b[i].record)
              && TextOr(text, a[i].record, "record_hash") == a[i].recordHash
              && TextOr(text, a[i].record, "gen_ai.evidence.hash_prev") == a[i].prevHash
    {
      SourceRow(h, text, a, i);
      SourceRow(h, text, b, i);
      assert SourceRecords(a)[i] == SourceRecords(b)[i];
      assert i > 0 ==> SourceRecords(a)[i - 1] == SourceRecords(b)[i - 1];
    }
  }

  lemma SourceRow(h: Digest, text: Json -> string, rows: seq<Row>, i: nat)
    requires SourceIntact(h, text, rows) && i < |rows|
    ensures rows[i].recordHash == h(SourceRecords(rows)[i]) == TextOr(text, rows[i].record, "record_hash")
    ensures rows[i].prevHash == (if i == 0 then "" else h(SourceRecords(rows)[i - 1]))
    ensures rows[i].prevHash == TextOr(text, rows[i].record, "gen_ai.evidence.hash_prev")
  {
    assert RowIntact(h, text, rows, i);
    assert i > 0 ==> RowIntact(h, text, rows, i - 1);
  }

  function SourceRecords(rows: seq<Row>): (r: seq<Json>)
    ensures |r| == |rows| && forall i :: 0 <= i < |r| ==> r[i] == Unsigned(rows[i].record)
  {
    seq(|rows|, i requires 0 <= i < |rows| => Unsigned(rows[i].record))
  }

  function ShownPrev(text: Json -> string): Json -> string {
    j => TextOr(text, j, HASH_PREV)
  }

  lemma SourceLinks(h: Digest, text: Json -> string, rows: seq<Row>)
    requires SourceIntact(h, text, rows)
    ensures HashChains.Links(h, ShownPrev(text), SourceRecords(rows))
  {
    var chain := SourceRecords(rows);
    forall i | 0 <= i < |chain| ensures HashChains.LinkAt(h, ShownPrev(text), chain, i) {
      assert RowIntact(h, text, rows, i);
      assert i > 0 ==> RowIntact(h, text, rows, i - 1);
    }
  }

  /** A trace is there if some record shows its identifier. */
  lemma HasTraceExactly(text: Json -> string, rows: seq<Row>, trace: string)
    ensures HasTrace(text, rows, trace) <==> exists row <- rows :: TextOr(text, row.record, "trace_id") == trace
  {
  }

  lemma AcceptedChainLinks(h: Digest, records: seq<Json>)
    requires ChainValid(h, records)
    ensures HashChains.Links(h, PrevOf, UnsignedAll(records))
  {
    var chain := UnsignedAll(records);
    forall i | 0 <= i < |chain| ensures HashChains.LinkAt(h, PrevOf, chain, i) {
      assert LinkedAt(h, records, i);
    }
  }
}
